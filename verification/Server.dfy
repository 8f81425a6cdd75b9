/** The DNS task of main/dns_server.cpp as a step machine: client queries over UDP and TCP,
    upstream replies, evictions, and configuration changes by other tasks in between. Each
    function here is one uninterrupted stretch of dns_task's loop. */
module Server {
  import opened Bytes
  import opened Domain
  import opened Wire
  import opened CaseScrub
  import opened ReplyScrub
  import opened Ttl
  import opened Replies
  import opened Cache
  import opened CacheMap
  import opened Upstream
  import Verdict
  import BlRank
  import Records

  const TX_CAP: nat := 540
  const RX_CAP: nat := 1500
  const CLOAK_CAP: nat := 320
  const STALE_TTL: nat := 30
  const DEFAULT_TTL: nat := 30
  const TTL_MIN: nat := 10
  const TTL_MAX: nat := 3600

  // ---------- Configuration

  /** What the verdict depends on: the global pause, the live snapshot, the small tables. */
  datatype Published = Published(paused: bool, live: Option<Verdict.Snapshot>, rules: Verdict.Rules)

  /** The uninterpreted hashes, and what each configuration version publishes. */
  datatype Env = Env(hash: seq<byte> -> nat, qkey: seq<byte> -> nat, envelope: (seq<byte>, nat) -> nat,
                     hash40: seq<byte> -> Records.Rec, published: nat -> Published)

  datatype Decision = Unproven | NoMatch | Allow | Block

  /** blocklist_verdict under a configuration version, its lock free. */
  ghost function Decide(env: Env, version: nat, name: seq<byte>): Decision {
    var c := env.published(version);
    if name == [] || c.paused then NoMatch
    else if c.live.None? then Unproven
    else
      match Verdict.Judge(env.hash40, c.live.value, c.rules, name).state
      case NoMatch => NoMatch
      case Allow => Allow
      case Block => Block
  }

  /** gen is the generation counter. version counts the changes made so far; bumps says of
      each what the counter became when its bump completed, or None while it is pending. */
  datatype Config = Config(gen: nat, version: nat, bumps: seq<Option<nat>>)

  // ---------- State

  datatype Tcp = Tcp(open: bool, gen: nat, awaiting: bool)

  datatype Delivery = Delivery(rid: nat, tcp: bool, addr: nat, conn: nat, payload: seq<byte>)

  /** A query taken from a socket. off: this client is paused or bypassed; rw: the address
      a rewrite rule gives; gen: the generation read before the verdict. */
  datatype Query = Query(rid: nat, pkt: seq<byte>, name: seq<byte>, qend: nat, qtype: nat, clsIn: bool,
                         tcp: bool, addr: nat, conn: nat, off: bool, rw: nat, gen: nat)

  /** Where dns_task stands with the query in hand. */
  datatype Task =
    | Waiting
    | Looking(q: Query)
    | Staling(q: Query)
    | Judging(q: Query)
    | Forwarding(q: Query, noCache: bool, exempt: bool, auth: nat)

  /** asks logs the queries taken, sent the replies delivered; nothing reads either. */
  datatype State = State(cache: seq<Entry>, slots: seq<Slot>, tcp: Tcp, task: Task, cfg: Config,
                         asks: seq<Requester>, sent: seq<Delivery>)

  function Stamp(p: seq<byte>, id: nat): (q: seq<byte>)
    requires id < 0x1_0000
    ensures |q| == |p|
  {
    if |p| < 2 then p else Put16(id) + p[2..]
  }

  function Close(t: Tcp): Tcp {
    Tcp(false, t.gen + 1, false)
  }

  // ---------- Taking a query

  /** The name and end of the question of a packet dns_task serves. */
  function Parsed(pkt: seq<byte>): (r: Option<(seq<byte>, nat)>)
    ensures r.Some? ==> 17 <= r.value.1 <= |pkt|
  {
    if |pkt| < 12 || pkt[2] >= 128 || Get16(pkt, 4) == 0 then None else Question(pkt, 12)
  }

  function QueryOf(pkt: seq<byte>, tcp: bool, addr: nat, conn: nat, off: bool, rw: nat, gen: nat, rid: nat): Query
    requires Parsed(pkt).Some?
  {
    var (name, qend) := Parsed(pkt).value;
    var qtype := Get16(pkt, qend - 4);
    var clsIn := Get16(pkt, qend - 2) == 1;
    Query(rid, pkt, name, qend, qtype, clsIn, tcp, addr, conn, clsIn && off, if clsIn && qtype == 1 then rw else 0, gen)
  }

  function RequesterOf(q: Query): Requester
    requires |q.pkt| >= 2
  {
    Requester(q.rid, Get16(q.pkt, 0), q.tcp, q.addr, q.conn, q.name, q.qtype)
  }

  /** A datagram from a client the access list permits. */
  function TakeUdp(s: State, pkt: seq<byte>, addr: nat, off: bool, rw: nat): State {
    if Parsed(pkt).None? then s
    else
      var q := QueryOf(pkt, false, addr, 0, off, rw, s.cfg.gen, |s.asks|);
      s.(task := Looking(q), asks := s.asks + [RequesterOf(q)])
  }

  /** A complete message on the open connection. */
  function TakeTcp(s: State, pkt: seq<byte>, off: bool, rw: nat): State {
    if Parsed(pkt).None? then s.(tcp := Close(s.tcp))
    else
      var q := QueryOf(pkt, true, 0, s.tcp.gen, off, rw, s.cfg.gen, |s.asks|);
      s.(task := Looking(q), asks := s.asks + [RequesterOf(q)])
  }

  // ---------- Answering

  function DeliveryOf(r: Requester, payload: seq<byte>): Delivery {
    Delivery(r.rid, r.tcp, r.addr, r.conn, payload)
  }

  /** The query's own answer, if one was built: over UDP to its address, over TCP on the
      connection, which is closed either way. */
  function Answer(s: State, q: Query, payload: Option<seq<byte>>): State
    requires |q.pkt| >= 2
  {
    var sent := if payload.Some? then s.sent + [DeliveryOf(RequesterOf(q), payload.value)] else s.sent;
    s.(task := Waiting, sent := sent, tcp := if q.tcp then Close(s.tcp) else s.tcp)
  }

  predicate WellFormed(q: Query) {
    |q.pkt| >= 12 && 17 <= q.qend <= |q.pkt| && q.rw <= NO_TTL
  }

  function CacheKey(env: Env, q: Query): Key
    requires WellFormed(q)
  {
    Key(env.hash(q.name), q.qtype, q.pkt[12..q.qend - 4])
  }

  function BlockedAnswer(q: Query): Option<seq<byte>>
    requires WellFormed(q)
  {
    BlockedWithin(q.pkt[..q.qend], q.qtype, TX_CAP)
  }

  /** A cached reply under the client's own transaction id. */
  function Replay(e: Entry, q: Query): seq<byte>
    requires Sized(e) && WellFormed(q)
  {
    Stamp(e.resp[..e.respLen], Get16(q.pkt, 0))
  }

  // ---------- The ladder of one query

  /** The fresh lookup. The generation is read again here. */
  function LookFresh(env: Env, s: State, now: nat): State
    requires s.task.Looking? && WellFormed(s.task.q) && AllSized(s.cache)
  {
    var q := s.task.q;
    var hit := if q.rw != 0 || !q.clsIn then None else FindFresh(s.cache, CacheKey(env, q), now, s.cfg.gen);
    match hit
    case None => s.(task := if q.tcp then Judging(q) else Staling(q))
    case Some(i) =>
      var e := s.cache[i];
      if e.blocked && !q.off then Answer(s, q, BlockedAnswer(q))
      else if !e.blocked && 0 < e.respLen <= TX_CAP then Answer(s, q, Some(Replay(e, q)))
      else s.(task := if q.tcp then Judging(q) else Forwarding(q, q.off, false, s.cfg.version))
  }

  /** A refresh of a stale entry: a flight that delivers to no one, under the entry's own
      stamp. */
  function RefreshSlot(env: Env, was: Slot, q: Query, e: Entry, now: nat, t: nat): Slot
    requires WellFormed(q)
  {
    Claim(was, t).(client := RequesterOf(q), sent := now, qhash := env.hash(q.name), qkey := env.qkey(q.name),
                   qtype := q.qtype, refreshOnly := true, gen := e.gen, auth := e.auth, asked := q.name)
  }

  /** Serving stale, UDP only: the expired reply with short TTLs, and at most one refresh
      per three seconds and entry. t is the id a new flight gets. */
  function LookStale(env: Env, s: State, now: nat, t: nat): State
    requires s.task.Staling? && WellFormed(s.task.q) && AllSized(s.cache)
  {
    var q := s.task.q;
    var hit := if q.rw != 0 || !q.clsIn then None else FindStale(s.cache, CacheKey(env, q), now, s.cfg.gen);
    if hit.None? || s.cache[hit.value].respLen > TX_CAP then s.(task := Judging(q))
    else
      var i := hit.value;
      var e := s.cache[i];
      var a := Answer(s, q, Some(RewriteAnswerTtls(Replay(e, q), STALE_TTL)));
      if now < e.refreshAfter then a
      else if FindAsking(s.slots, env.hash(q.name), env.qkey(q.name), q.qtype) < |s.slots| then
        a.(cache := s.cache[i := e.(refreshAfter := now + TIMEOUT)])
      else
        var spare := FirstFree(s.slots);
        if spare == |s.slots| then a.(cache := s.cache[i := e.(refreshAfter := 0)])
        else a.(cache := s.cache[i := e.(refreshAfter := now + TIMEOUT)],
                slots := s.slots[spare := RefreshSlot(env, s.slots[spare], q, e, now, t)])
  }

  /** The rewrite answer, or the verdict. busy: the small-table lock was not free. */
  ghost function Judge(env: Env, s: State, now: nat, busy: bool): State
    requires s.task.Judging? && WellFormed(s.task.q) && AllSized(s.cache)
  {
    var q := s.task.q;
    if q.rw != 0 then Answer(s, q, RewrittenWithin(q.pkt[..q.qend], q.rw, TX_CAP))
    else
      var d := if !q.clsIn then NoMatch else Socket(env, s.cfg.version, q.name, busy);
      var cache := if d.Block? then StoreBlocked(s.cache, CacheKey(env, q), BLOCKED_TTL, now, q.gen, s.cfg.version)
                   else s.cache;
      if d.Block? && !q.off then Answer(s.(cache := cache), q, BlockedAnswer(q))
      else s.(cache := cache, task := Forwarding(q, q.off || d.Unproven?, d.Allow?, s.cfg.version))
  }

  /** blocklist_verdict as dns_task sees it: a lock that stays busy fails open. */
  ghost function Socket(env: Env, version: nat, name: seq<byte>, busy: bool): Decision {
    var c := env.published(version);
    if busy && name != [] && !c.paused then Unproven else Decide(env, version, name)
  }

  function ForwardSlot(env: Env, was: Slot, q: Query, noCache: bool, exempt: bool, auth: nat, now: nat, t: nat): Slot
    requires WellFormed(q)
  {
    Claim(was, t).(client := RequesterOf(q), sent := now, qhash := env.hash(q.name), qkey := env.qkey(q.name),
                   qtype := q.qtype, env := env.envelope(q.pkt, q.qend), noCache := !q.clsIn || noCache,
                   paused := noCache, exempt := exempt, gen := q.gen, auth := auth, asked := q.name)
  }

  function ServFail(q: Query): seq<byte>
    requires WellFormed(q)
  {
    WithHeader(q.pkt[..q.qend], RespFlags(Get16(q.pkt, 2), 2), 0)
  }

  /** Forwarding: ride an identical flight, or start one under the id t. With the table full
      a UDP query is dropped and a TCP one refused. */
  function Forward(env: Env, s: State, now: nat, t: nat): State
    requires s.task.Forwarding? && WellFormed(s.task.q)
  {
    var Forwarding(q, noCache, exempt, auth) := s.task;
    var held := if q.tcp then s.tcp.(awaiting := true) else s.tcp;
    var j := if q.clsIn && !noCache
             then FindJoinable(s.slots, env.hash(q.name), env.qkey(q.name), q.qtype, env.envelope(q.pkt, q.qend), now)
             else |s.slots|;
    if j < |s.slots| then s.(slots := s.slots[j := Join(s.slots[j], RequesterOf(q))], tcp := held, task := Waiting)
    else
      var spare := FirstFree(s.slots);
      if spare == |s.slots| then (if q.tcp then Answer(s, q, Some(ServFail(q))) else s.(task := Waiting))
      else s.(slots := s.slots[spare := ForwardSlot(env, s.slots[spare], q, noCache, exempt, auth, now, t)],
              tcp := held, task := Waiting)
  }

  // ---------- An upstream reply

  /** cname_chain_is_blocked, from the record at off on. */
  ghost function ChainBlocked(p: seq<byte>, off: nat, n: nat, listed: seq<byte> -> bool): bool
    decreases n
  {
    if n == 0 || Decompress(p, off).None? || !Continues(p, NameEnd(p, off)) then false
    else
      var (name, e) := Decompress(p, off).value;
      if listed(name) then true
      else if Get16(p, e) == 5 && Decompress(p, e + 10).Some? && listed(Decompress(p, e + 10).value.0) then true
      else ChainBlocked(p, RecordEnd(p, e), n - 1, listed)
  }

  ghost predicate Cloaked(p: seq<byte>, qend: nat, listed: seq<byte> -> bool) {
    |p| >= 12 && ChainBlocked(p, qend, Get16(p, 6), listed)
  }

  /** The reply answers the flight's own question. */
  predicate Matches(env: Env, ue: Slot, pkt: seq<byte>) {
    Question(pkt, 12).Some? &&
    var (name, qend) := Question(pkt, 12).value;
    Get16(pkt, qend - 4) == ue.qtype && env.hash(name) == ue.qhash && env.qkey(name) == ue.qkey
  }

  function SetTc(p: seq<byte>): (q: seq<byte>)
    requires |p| >= 3
    ensures |q| == |p|
  {
    if p[2] / 2 % 2 == 1 then p else p[2 := p[2] + 2]
  }

  predicate HasTc(p: seq<byte>)
    requires |p| >= 3
  {
    p[2] / 2 % 2 == 1
  }

  /** What the deliverees get, before the transaction id: the scrubbed reply or, where its
      chain is cloaked, a blocked answer; and which of the two it is. */
  ghost function Outgoing(ue: Slot, pkt: seq<byte>, listed: seq<byte> -> bool): (r: (seq<byte>, bool))
    requires Question(pkt, 12).Some?
    ensures |r.0| >= 12
  {
    var qend := Question(pkt, 12).value.1;
    var p := Scrubbed(pkt);
    if !ue.paused && !ue.exempt && Cloaked(p, qend, listed) && BlockedWithin(p[..qend], ue.qtype, CLOAK_CAP).Some?
    then (BlockedWithin(p[..qend], ue.qtype, CLOAK_CAP).value, true)
    else (if |p| == RX_CAP then SetTc(p) else p, false)
  }

  predicate IdsFit(ue: Slot) {
    ue.client.txid < 0x1_0000 && forall i :: 0 <= i < |ue.waiters| ==> ue.waiters[i].txid < 0x1_0000
  }

  /** Who the reply is delivered to. */
  function Deliverees(ue: Slot): (rs: seq<Requester>)
    ensures IdsFit(ue) ==> forall i :: 0 <= i < |rs| ==> rs[i].txid < 0x1_0000
  {
    if ue.refreshOnly then [] else [ue.client] + ue.waiters
  }

  /** The fan-out: each deliveree under its own id, over TCP only on the very connection
      that asked, which its delivery closes. */
  function FanOut(tcp: Tcp, sent: seq<Delivery>, rs: seq<Requester>, p: seq<byte>): (r: (Tcp, seq<Delivery>))
    requires forall i :: 0 <= i < |rs| ==> rs[i].txid < 0x1_0000
    decreases |rs|
  {
    if rs == [] then (tcp, sent)
    else
      var w := rs[0];
      var d := DeliveryOf(w, Stamp(p, w.txid));
      if !w.tcp then FanOut(tcp, sent + [d], rs[1..], p)
      else if tcp.open && tcp.awaiting && w.conn == tcp.gen then FanOut(Close(tcp), sent + [d], rs[1..], p)
      else FanOut(tcp, sent, rs[1..], p)
  }

  /** The id left in the buffer by the last stamp. */
  function LastId(ue: Slot): nat {
    if ue.refreshOnly || ue.waiters == [] then ue.client.txid else ue.waiters[|ue.waiters| - 1].txid
  }

  /** What the reply, as it was last stamped, leaves in the cache. */
  function Learn(es: seq<Entry>, ue: Slot, p: seq<byte>, qend: nat, cloaked: bool, now: nat): (r: seq<Entry>)
    requires AllSized(es) && |p| >= 12 && 16 <= qend <= |p|
    ensures |r| == |es| && AllSized(r)
  {
    if ue.noCache then es
    else if cloaked then StoreBlocked(es, Key(ue.qhash, ue.qtype, p[12..qend - 4]), BLOCKED_TTL, now, ue.gen, ue.auth)
    else if !HasTc(p) && (p[3] % 16 == 0 || p[3] % 16 == 3) then
      StoreReply(es, ue.qhash, ue.qtype, p, RespMinTtl(p, DEFAULT_TTL, TTL_MIN, TTL_MAX), now, ue.gen, ue.auth)
    else es
  }

  /** blocklist_is_blocked, as the cloaking check asks it. */
  ghost function Listed(env: Env, version: nat, busy: seq<byte> -> bool): seq<byte> -> bool {
    name => Socket(env, version, name, busy(name)).Block?
  }

  /** process_reply: any packet at all may arrive. busy says for each name whether the lock
      was busy when the cloaking check asked about it. */
  ghost function OnReply(env: Env, s: State, pkt: seq<byte>, now: nat, busy: seq<byte> -> bool): (r: State)
    requires AllSized(s.cache) && forall i :: 0 <= i < |s.slots| ==> IdsFit(s.slots[i])
    ensures AllSized(r.cache) && forall i :: 0 <= i < |r.slots| ==> IdsFit(r.slots[i])
  {
    if |pkt| < 12 then s
    else
      var i := FindLive(s.slots, Get16(pkt, 0));
      if i == |s.slots| || !Matches(env, s.slots[i], pkt) then s
      else
        var ue := s.slots[i];
        var qend := Question(pkt, 12).value.1;
        var listed := Listed(env, s.cfg.version, busy);
        var (p, cloaked) := Outgoing(ue, pkt, listed);
        var (tcp, sent) := FanOut(s.tcp, s.sent, Deliverees(ue), p);
        OutgoingLength(ue, pkt, listed);
        s.(cache := Learn(s.cache, ue, Stamp(p, LastId(ue)), qend, cloaked, now), tcp := tcp, sent := sent,
           slots := s.slots[i := ue.(inUse := false)])
  }

  lemma OutgoingLength(ue: Slot, pkt: seq<byte>, listed: seq<byte> -> bool)
    requires Question(pkt, 12).Some?
    ensures |Outgoing(ue, pkt, listed).0| >= Question(pkt, 12).value.1
  {
  }

  // ---------- Everything that can happen

  datatype Step =
    | UdpQuery(pkt: seq<byte>, addr: nat, off: bool, rw: nat)
    | TcpQuery(pkt: seq<byte>, off: bool, rw: nat)
    | FreshStep(now: nat)
    | StaleStep(now: nat, t: nat)
    | JudgeStep(now: nat, busy: bool)
    | ForwardStep(now: nat, t: nat)
    | Reply(pkt: seq<byte>, now: nat, busyFor: seq<byte> -> bool)
    | EvictStep(now: nat)
    | Accept
    | Hangup
    | Mutate
    | Bump(done: set<nat>)

  ghost predicate Possible(s: State, step: Step) {
    match step
    case UdpQuery(_, _, _, rw) => s.task.Waiting? && rw <= NO_TTL
    case TcpQuery(_, _, rw) => s.task.Waiting? && s.tcp.open && !s.tcp.awaiting && rw <= NO_TTL
    case FreshStep(_) => s.task.Looking?
    case StaleStep(_, t) => s.task.Staling? && Acceptable(s.slots, t)
    case JudgeStep(_, _) => s.task.Judging?
    case ForwardStep(_, t) => s.task.Forwarding? && Acceptable(s.slots, t)
    case Reply(_, _, _) => s.task.Waiting?
    case EvictStep(_) => s.task.Waiting?
    case Accept => s.task.Waiting? && !s.tcp.open
    case Hangup => s.task.Waiting?
    case Mutate => true
    case Bump(done) => forall m :: m in done ==> m < |s.cfg.bumps| && s.cfg.bumps[m].None?
  }

  /** A bump completes the changes it stands for: the counter moves once. */
  ghost function Bumped(c: Config, done: set<nat>): (r: Config)
    ensures |r.bumps| == |c.bumps| && r.version == c.version && r.gen == c.gen + 1
    ensures forall m :: 0 <= m < |c.bumps| ==> r.bumps[m] == if m in done then Some(c.gen + 1) else c.bumps[m]
  {
    Config(c.gen + 1, c.version,
           seq(|c.bumps|, m requires 0 <= m < |c.bumps| => if m in done then Some(c.gen + 1) else c.bumps[m]))
  }

  ghost predicate Sound(s: State) {
    AllSized(s.cache) && |s.slots| == SLOTS && (forall i :: 0 <= i < |s.slots| ==> IdsFit(s.slots[i])) &&
    (!s.task.Waiting? ==> WellFormed(s.task.q))
  }

  ghost function Next(env: Env, s: State, step: Step): State
    requires Sound(s) && Possible(s, step)
  {
    match step
    case UdpQuery(pkt, addr, off, rw) => TakeUdp(s, pkt, addr, off, rw)
    case TcpQuery(pkt, off, rw) => TakeTcp(s, pkt, off, rw)
    case FreshStep(now) => LookFresh(env, s, now)
    case StaleStep(now, t) => LookStale(env, s, now, t)
    case JudgeStep(now, busy) => Judge(env, s, now, busy)
    case ForwardStep(now, t) => Forward(env, s, now, t)
    case Reply(pkt, now, busyFor) => OnReply(env, s, pkt, now, busyFor)
    case EvictStep(now) => s.(slots := Evict(s.slots, now))
    case Accept => s.(tcp := Tcp(true, s.tcp.gen, false))
    case Hangup => s.(tcp := Close(s.tcp))
    case Mutate => s.(cfg := s.cfg.(version := s.cfg.version + 1, bumps := s.cfg.bumps + [None]))
    case Bump(done) => s.(cfg := Bumped(s.cfg, done))
  }
}
