/** The DNS task of main/dns_server.cpp as the program keeps it: one object that owns the
    cache, the table of flights and the TCP connection, and updates them in place. Each
    method is one stretch of run_loop and is proved against the step of module Server. */
module DnsTask {
  import opened Bytes
  import opened Domain
  import opened Wire
  import opened CaseScrub
  import opened ReplyScrub
  import opened Ttl
  import opened Replies
  import opened Cache
  import opened Upstream
  import opened Server
  import BlRank
  import Verdict

  /** The rank bounds kept beside every published table hold. */
  ghost predicate ConsistentTables(env: Env) {
    forall v: nat :: env.published(v).live.Some? ==>
      Verdict.Consistent(env.published(v).live.value, env.published(v).rules)
  }

  lemma NameFits(cap: nat, s: seq<byte>)
    requires cap >= 1
    ensures |Normalize(cap, s)| < cap
  {
  }

  lemma QuestionNameFits(p: seq<byte>, off: nat)
    ensures Question(p, off).Some? ==> 0 < |Question(p, off).value.0| <= 255
  {
    hide WalkLabels;
    if WalkLabels(p, off, []).Some? {
      NameFits(NAME_CAP, WalkLabels(p, off, []).value.0);
    }
  }

  lemma DecompressedNameFits(p: seq<byte>, off: nat)
    ensures Decompress(p, off).Some? ==> 0 < |Decompress(p, off).value.0| <= 255
  {
    hide Expand;
    if Expand(p, off, 0, None, []).Some? {
      NameFits(NAME_CAP, Expand(p, off, 0, None, []).value.0);
    }
  }

  lemma TablesOf(env: Env, v: nat)
    requires ConsistentTables(env)
    ensures env.published(v).live.Some? ==> Verdict.Consistent(env.published(v).live.value, env.published(v).rules)
  {
  }

  /** blocklist_verdict on a name, as the step machine decides it. */
  method Consult(env: Env, version: nat, name: seq<byte>, busy: bool) returns (d: Decision)
    requires ConsistentTables(env) && |name| <= 255
    ensures d == Socket(env, version, name, busy)
  {
    hide Verdict.Judge, Verdict.Consistent;
    TablesOf(env, version);
    var c := env.published(version);
    var a := Verdict.BlocklistVerdict(env.hash40, c.paused, c.live, busy, c.rules, name);
    if a.unproven {
      return Unproven;
    }
    match a.verdict.state {
      case NoMatch => d := NoMatch;
      case Allow => d := Allow;
      case Block => d := Block;
    }
  }

  // ---------- The parts of process_reply

  lemma ChainUnfold(p: seq<byte>, off: nat, n: nat, listed: seq<byte> -> bool)
    ensures n == 0 || Decompress(p, off).None? ==> !ChainBlocked(p, off, n, listed)
    ensures n > 0 && Decompress(p, off).Some? ==>
              var (name, e) := Decompress(p, off).value;
              e == NameEnd(p, off) &&
              ChainBlocked(p, off, n, listed) ==
              (Continues(p, e) &&
               (listed(name) ||
                (Get16(p, e) == 5 && Decompress(p, e + 10).Some? && listed(Decompress(p, e + 10).value.0)) ||
                ChainBlocked(p, RecordEnd(p, e), n - 1, listed)))
  {
    hide Decompress;
    if Decompress(p, off).Some? {
      NameEndIs(p, off);
    }
  }

  lemma ListedIs(env: Env, version: nat, busy: seq<byte> -> bool, name: seq<byte>)
    ensures Listed(env, version, busy)(name) == Socket(env, version, name, busy(name)).Block?
  {
    hide Socket;
  }

  /** One record of the chain: whether the walk is over, with what result, or where it
      goes on. */
  method ChainRecord(env: Env, version: nat, busy: seq<byte> -> bool, pkt: array<byte>, off: nat, ghost n: nat)
    returns (over: bool, b: bool, next: nat)
    requires ConsistentTables(env) && n > 0
    ensures over ==> b == ChainBlocked(pkt[..], off, n, Listed(env, version, busy))
    ensures !over ==>
              ChainBlocked(pkt[..], off, n, Listed(env, version, busy)) ==
              ChainBlocked(pkt[..], next, n - 1, Listed(env, version, busy))
  {
    hide ChainBlocked, Decompress, Socket, Listed;
    var len := pkt.Length;
    assert pkt[..len] == pkt[..];
    ChainUnfold(pkt[..], off, n, Listed(env, version, busy));
    var ok, e, name := DnsDecompressName(pkt, len, off);
    if !ok || e + 10 > len {
      return true, false, 0;
    }
    var rtype := pkt[e] as int * 256 + pkt[e + 1];
    next := e + 10 + (pkt[e + 8] as int * 256 + pkt[e + 9]);
    if next > len {
      return true, false, 0;
    }
    DecompressedNameFits(pkt[..], off);
    var d := Consult(env, version, name, busy(name));
    ListedIs(env, version, busy, name);
    if d.Block? {
      return true, true, 0;
    }
    if rtype == 5 {
      var good, _, target := DnsDecompressName(pkt, len, e + 10);
      DecompressedNameFits(pkt[..], e + 10);
      if good {
        d := Consult(env, version, target, busy(target));
        ListedIs(env, version, busy, target);
        if d.Block? {
          return true, true, 0;
        }
      }
    }
    return false, false, next;
  }

  /** cname_chain_is_blocked on a packet that fills its buffer. */
  method CnameChainIsBlocked(env: Env, version: nat, busy: seq<byte> -> bool, pkt: array<byte>, qend: nat)
    returns (b: bool)
    requires ConsistentTables(env)
    ensures b == Cloaked(pkt[..], qend, Listed(env, version, busy))
  {
    hide ChainBlocked, Listed;
    if pkt.Length < 12 {
      return false;
    }
    ghost var p, listed := pkt[..], Listed(env, version, busy);
    var ancount := pkt[6] as int * 256 + pkt[7];
    var off: nat, i: nat := qend, 0;
    while i < ancount
      invariant i <= ancount && ChainBlocked(p, qend, ancount, listed) == ChainBlocked(p, off, ancount - i, listed)
    {
      var over, found, next := ChainRecord(env, version, busy, pkt, off, ancount - i);
      if over {
        return found;
      }
      off := next;
      i := i + 1;
    }
    ChainUnfold(p, off, 0, listed);
    return false;
  }

  /** The scrub: the question, then the owner names. */
  method Scrub(pkt: array<byte>, qend: nat)
    requires Question(pkt[..], 12).Some? && qend == Question(pkt[..], 12).value.1
    modifies pkt
    ensures pkt[..] == Scrubbed(old(pkt[..]))
  {
    hide Question, ScrubOwners;
    NormalizeQnameCase(pkt, qend);
    NormalizeAnswerOwnerNames(pkt, qend);
  }

  lemma OutgoingIs(ue: Slot, was: seq<byte>, listed: seq<byte> -> bool)
    requires Question(was, 12).Some?
    ensures var p, qend := Scrubbed(was), Question(was, 12).value.1;
            qend <= |p| && 12 <= |p| &&
            Outgoing(ue, was, listed) ==
            (if !ue.paused && !ue.exempt && Cloaked(p, qend, listed) &&
             BlockedWithin(p[..qend], ue.qtype, CLOAK_CAP).Some?
             then (BlockedWithin(p[..qend], ue.qtype, CLOAK_CAP).value, true)
             else (if |p| == RX_CAP then SetTc(p) else p, false))
  {
    hide Question, Scrubbed, Cloaked, BlockedWithin, SetTc;
  }

  /** The blocked answer in a buffer of its own. */
  method Cloak(pkt: array<byte>, qend: nat, qtype: nat) returns (out: array<byte>, ok: bool)
    requires qend <= pkt.Length
    ensures ok == BlockedWithin(pkt[..qend], qtype, CLOAK_CAP).Some?
    ensures ok ==> fresh(out) && BlockedWithin(pkt[..qend], qtype, CLOAK_CAP) == Some(out[..])
    ensures !ok ==> out == pkt
  {
    hide Blocked;
    out := pkt;
    var buf := new byte[320];
    var n := BuildBlockedAny(pkt, qend, qtype, buf, 320);
    ok := n >= 0;
    if ok {
      var s := buf[..n];
      out := new byte[n](i requires 0 <= i < |s| => s[i]);
      assert out[..] == s;
    }
  }

  /** The buffer that goes out: the scrubbed reply itself, or the blocked answer built from
      it; a reply that filled the receive buffer is marked truncated. */
  method Choose(env: Env, version: nat, busy: seq<byte> -> bool, ue: Slot, pkt: array<byte>, qend: nat,
                ghost was: seq<byte>)
    returns (out: array<byte>, cloaked: bool)
    requires ConsistentTables(env) && Question(was, 12).Some? && qend == Question(was, 12).value.1
    requires pkt[..] == Scrubbed(was)
    modifies pkt
    ensures out == pkt || fresh(out)
    ensures (out[..], cloaked) == Outgoing(ue, was, Listed(env, version, busy))
  {
    assert RX_CAP == 1500;
    hide *;
    OutgoingIs(ue, was, Listed(env, version, busy));
    out, cloaked := pkt, false;
    if !ue.paused && !ue.exempt {
      cloaked := CnameChainIsBlocked(env, version, busy, pkt, qend);
    }
    if cloaked {
      out, cloaked := Cloak(pkt, qend, ue.qtype);
    }
    if !cloaked && pkt.Length == RX_CAP {
      MarkTruncated(pkt);
    }
  }

  /** pkt[2] |= 0x02. */
  method MarkTruncated(pkt: array<byte>)
    requires pkt.Length >= 3
    modifies pkt
    ensures pkt[..] == SetTc(old(pkt[..]))
  {
    if pkt[2] / 2 % 2 == 0 {
      pkt[2] := pkt[2] + 2;
    }
  }

  /** hdr->id. */
  method StampId(buf: array<byte>, id: nat)
    requires id < 0x1_0000
    modifies buf
    ensures buf[..] == Stamp(old(buf[..]), id)
  {
    if buf.Length >= 2 {
      buf[0], buf[1] := id / 256, id % 256;
    }
  }

  lemma StampTwice(p: seq<byte>, a: nat, b: nat)
    requires a < 0x1_0000 && b < 0x1_0000
    ensures Stamp(Stamp(p, a), b) == Stamp(p, b)
  {
  }

  /** Whatever the coins, the datagram that goes upstream carries our id and the client's
      own question, and no byte outside the question name and the id differs. */
  lemma UpstreamQueryAsksTheSame(pkt: seq<byte>, t: nat, coin: nat -> bool)
    requires Question(pkt, 12).Some? && t < 0x1_0000
    ensures var hi := Question(pkt, 12).value.1 - 4;
            var up := Stamp(Flip(pkt, 12, hi, 0, coin), t);
            |up| == |pkt| && Get16(up, 0) == t && Question(up, 12) == Question(pkt, 12) &&
            up[2..12] == pkt[2..12] && up[hi..] == pkt[hi..]
  {
    hide Question, Flip;
    var hi := Question(pkt, 12).value.1 - 4;
    var q := Flip(pkt, 12, hi, 0, coin);
    RandomizedQueryAsksTheSame(pkt, coin);
    StampedQuery(pkt, q, hi, t);
  }

  lemma StampedQuery(pkt: seq<byte>, q: seq<byte>, hi: nat, t: nat)
    requires |q| == |pkt| && 12 < hi <= |pkt| && t < 0x1_0000 && q[..12] == pkt[..12] && q[hi..] == pkt[hi..]
    requires Question(q, 12).Some?
    ensures var up := Stamp(q, t);
            |up| == |pkt| && Get16(up, 0) == t && Question(up, 12) == Question(q, 12) &&
            up[2..12] == pkt[2..12] && up[hi..] == pkt[hi..]
  {
    hide Question;
    var up := Stamp(q, t);
    QuestionStands(q, up, 12);
    forall i | 2 <= i < 12 ensures up[i] == pkt[i] {
      assert q[..12][i] == pkt[..12][i];
    }
    forall i | hi <= i < |pkt| ensures up[i] == pkt[i] {
      assert q[hi..][i - hi] == pkt[hi..][i - hi];
    }
  }

  // ---------- dns_task

  class Task {
    const cache: ForwardCache
    const table: UpstreamTable
    var tcp: Tcp
    var sent: seq<Delivery>
    var task: Server.Task
    var asks: seq<Requester>

    constructor ()
      ensures fresh(cache) && fresh(cache.ways) && fresh(table) && fresh(table.slots)
      ensures tcp == Tcp(false, 0, false) && sent == [] && task == Waiting && asks == []
      ensures WellPlaced(cache.ways[..]) && table.slots.Length == SLOTS
    {
      cache := new ForwardCache();
      table := new UpstreamTable();
      tcp := Tcp(false, 0, false);
      sent, task, asks := [], Waiting, [];
    }

    /** The state of the step machine this object is in, under a configuration. */
    ghost function Abs(cfg: Config): State
      reads this, cache.ways, table.slots
    {
      State(cache.ways[..], table.slots[..], tcp, task, cfg, asks, sent)
    }

    /** The parts the fan-out updates. */
    method Deliver(r: Requester, buf: array<byte>)
      requires r.txid < 0x1_0000
      modifies this`tcp, this`sent, buf
      ensures buf[..] == Stamp(old(buf[..]), r.txid)
      ensures FanOut(old(tcp), old(sent), [r], old(buf[..])) == (tcp, sent)
    {
      ghost var p := buf[..];
      StampId(buf, r.txid);
      ghost var d := DeliveryOf(r, Stamp(p, r.txid));
      assert [r][1..] == [];
      if r.tcp {
        if tcp.open && tcp.awaiting && r.conn == tcp.gen {
          sent := sent + [Delivery(r.rid, true, r.addr, r.conn, buf[..])];
          tcp := Close(tcp);
          assert FanOut(tcp, sent, [], p) == (tcp, sent);
        } else {
          assert FanOut(tcp, sent, [], p) == (tcp, sent);
        }
      } else {
        sent := sent + [Delivery(r.rid, false, r.addr, r.conn, buf[..])];
        assert FanOut(tcp, sent, [], p) == (tcp, sent);
      }
    }

    lemma FanOutSplit(t0: Tcp, s0: seq<Delivery>, r: Requester, rs: seq<Requester>, p: seq<byte>)
      requires r.txid < 0x1_0000 && forall i :: 0 <= i < |rs| ==> rs[i].txid < 0x1_0000
      ensures var (t1, s1) := FanOut(t0, s0, [r], p);
              FanOut(t0, s0, [r] + rs, p) == FanOut(t1, s1, rs, p)
    {
      assert ([r] + rs)[0] == r && ([r] + rs)[1..] == rs && [r][1..] == [];
      hide Stamp;
    }

    lemma FanOutIgnoresId(t0: Tcp, s0: seq<Delivery>, rs: seq<Requester>, p: seq<byte>, id: nat)
      requires id < 0x1_0000 && forall i :: 0 <= i < |rs| ==> rs[i].txid < 0x1_0000
      ensures FanOut(t0, s0, rs, Stamp(p, id)) == FanOut(t0, s0, rs, p)
      decreases |rs|
    {
      if rs != [] {
        StampTwice(p, id, rs[0].txid);
        var d := DeliveryOf(rs[0], Stamp(p, rs[0].txid));
        FanOutIgnoresId(t0, s0 + [d], rs[1..], p, id);
        FanOutIgnoresId(Close(t0), s0 + [d], rs[1..], p, id);
        FanOutIgnoresId(t0, s0, rs[1..], p, id);
      }
    }

    /** The fan-out has reached waiter w, and the buffer carries the last id stamped. */
    ghost predicate FannedTo(ue: Slot, p: seq<byte>, t0: Tcp, s0: seq<Delivery>, w: nat, t: Tcp, s: seq<Delivery>,
                             buf: seq<byte>)
    {
      IdsFit(ue) && w <= |ue.waiters| &&
      FanOut(t0, s0, [ue.client] + ue.waiters, p) == FanOut(t, s, ue.waiters[w..], p) &&
      buf == Stamp(p, if w == 0 then ue.client.txid else ue.waiters[w - 1].txid)
    }

    lemma FannedFirst(ue: Slot, p: seq<byte>, t0: Tcp, s0: seq<Delivery>)
      requires IdsFit(ue)
      ensures var b := Stamp(p, ue.client.txid);
              var (t, s) := FanOut(t0, s0, [ue.client], b);
              FannedTo(ue, p, t0, s0, 0, t, s, Stamp(b, ue.client.txid))
    {
      FanOutIgnoresId(t0, s0, [ue.client], p, ue.client.txid);
      FanOutSplit(t0, s0, ue.client, ue.waiters, p);
      StampTwice(p, ue.client.txid, ue.client.txid);
      assert ue.waiters[0..] == ue.waiters;
      hide FanOut, Stamp;
    }

    lemma FannedNext(ue: Slot, p: seq<byte>, t0: Tcp, s0: seq<Delivery>, w: nat, t: Tcp, s: seq<Delivery>,
                     buf: seq<byte>)
      requires FannedTo(ue, p, t0, s0, w, t, s, buf) && w < |ue.waiters|
      ensures ue.waiters[w].txid < 0x1_0000
      ensures var r := ue.waiters[w];
              var (t', s') := FanOut(t, s, [r], buf);
              FannedTo(ue, p, t0, s0, w + 1, t', s', Stamp(buf, r.txid))
    {
      var r := ue.waiters[w];
      var last := if w == 0 then ue.client.txid else ue.waiters[w - 1].txid;
      assert ue.waiters[w..] == [r] + ue.waiters[w + 1..];
      FanOutIgnoresId(t, s, [r], p, last);
      FanOutSplit(t, s, r, ue.waiters[w + 1..], p);
      StampTwice(p, last, r.txid);
      hide FanOut, Stamp;
    }

    lemma FannedLast(ue: Slot, p: seq<byte>, t0: Tcp, s0: seq<Delivery>, t: Tcp, s: seq<Delivery>, buf: seq<byte>)
      requires FannedTo(ue, p, t0, s0, |ue.waiters|, t, s, buf) && !ue.refreshOnly
      ensures FanOut(t0, s0, Deliverees(ue), p) == (t, s) && LastId(ue) < 0x1_0000 && buf == Stamp(p, LastId(ue))
    {
      assert ue.waiters[|ue.waiters|..] == [];
      FanOutNone(t, s, p);
      hide FanOut, Stamp;
    }

    /** The fan-out loop of process_reply: the requester that caused the forward, then every
        waiter, the id stamped for each in the one buffer. */
    method FanOutLoop(ue: Slot, buf: array<byte>)
      requires IdsFit(ue)
      modifies this`tcp, this`sent, buf
      ensures FanOut(old(tcp), old(sent), Deliverees(ue), old(buf[..])) == (tcp, sent)
      ensures buf[..] == Stamp(old(buf[..]), LastId(ue))
    {
      ghost var p, t0, s0 := buf[..], tcp, sent;
      StampId(buf, ue.client.txid);
      if ue.refreshOnly {
        return;
      }
      hide FanOut, Stamp, FannedTo, Deliverees, LastId;
      FannedFirst(ue, p, t0, s0);
      Deliver(ue.client, buf);
      var w: nat := 0;
      while w < |ue.waiters|
        invariant w <= |ue.waiters| && FannedTo(ue, p, t0, s0, w, tcp, sent, buf[..])
      {
        FannedNext(ue, p, t0, s0, w, tcp, sent, buf[..]);
        Deliver(ue.waiters[w], buf);
        w := w + 1;
      }
      FannedLast(ue, p, t0, s0, tcp, sent, buf[..]);
    }

    lemma FanOutNone(t: Tcp, s: seq<Delivery>, p: seq<byte>)
      ensures FanOut(t, s, [], p) == (t, s)
    {
    }

    /** The cache half of process_reply. */
    method LearnReply(ue: Slot, buf: array<byte>, qend: nat, cloaked: bool, now: nat)
      requires WellPlaced(cache.ways[..]) && buf.Length >= 12 && 16 <= qend <= buf.Length
      modifies cache, cache.ways
      ensures cache.ways[..] == Learn(old(cache.ways[..]), ue, buf[..], qend, cloaked, now)
    {
      PlacedSized(cache.ways[..], 0);
      hide WellPlaced, StoreBlocked, StoreReply, RespMinTtl;
      assert buf[..buf.Length] == buf[..];
      if ue.noCache {
        return;
      }
      if cloaked {
        cache.StoreBlockedName(Key(ue.qhash, ue.qtype, buf[12..qend - 4]), BLOCKED_TTL, now, ue.gen, ue.auth);
        return;
      }
      var rcode := buf[3] % 16;
      if buf[2] / 2 % 2 == 0 && (rcode == 0 || rcode == 3) {
        var ttl := DnsRespMinTtl(buf, buf.Length, DEFAULT_TTL, TTL_MIN, TTL_MAX);
        cache.StoreResp(ue.qhash, ue.qtype, buf, buf.Length, ttl, now, ue.gen, ue.auth);
      }
    }

    /** What process_reply demands of a packet: the flight the packet answers, or -1. */
    method FlightOf(env: Env, pkt: array<byte>) returns (i: int, qend: nat)
      ensures i < 0 <==>
              pkt.Length < 12 || FindLive(table.slots[..], Get16(pkt[..], 0)) == table.slots.Length ||
              !Matches(env, table.slots[FindLive(table.slots[..], Get16(pkt[..], 0))], pkt[..])
      ensures i >= 0 ==>
              i == FindLive(table.slots[..], Get16(pkt[..], 0)) && i < table.slots.Length &&
              Question(pkt[..], 12).Some? && qend == Question(pkt[..], 12).value.1
    {
      hide Question, First;
      if pkt.Length < 12 {
        return -1, 0;
      }
      var at := table.Find(pkt[0] as int * 256 + pkt[1]);
      if at == table.slots.Length {
        return -1, 0;
      }
      var ue := table.slots[at];
      assert pkt[..pkt.Length] == pkt[..];
      var end, name := ExtractQname(pkt, pkt.Length, 12);
      if end < 0 {
        return -1, 0;
      }
      var qtype := pkt[end - 4] as int * 256 + pkt[end - 3];
      if qtype != ue.qtype || env.hash(name) != ue.qhash || env.qkey(name) != ue.qkey {
        return -1, 0;
      }
      return at, end;
    }

    lemma ReplyIs(env: Env, s: State, pkt: seq<byte>, now: nat, busy: seq<byte> -> bool, i: nat)
      requires AllSized(s.cache) && forall j :: 0 <= j < |s.slots| ==> IdsFit(s.slots[j])
      requires |pkt| >= 12 && i == FindLive(s.slots, Get16(pkt, 0)) && i < |s.slots| && Matches(env, s.slots[i], pkt)
      ensures Question(pkt, 12).Some? && IdsFit(s.slots[i])
      ensures var ue, qend := s.slots[i], Question(pkt, 12).value.1;
              var (p, cloaked) := Outgoing(ue, pkt, Listed(env, s.cfg.version, busy));
              var (tcp, sent) := FanOut(s.tcp, s.sent, Deliverees(ue), p);
              qend <= |p| &&
              OnReply(env, s, pkt, now, busy) ==
              s.(cache := Learn(s.cache, ue, Stamp(p, LastId(ue)), qend, cloaked, now), tcp := tcp, sent := sent,
                 slots := s.slots[i := ue.(inUse := false)])
    {
      OutgoingLength(s.slots[i], pkt, Listed(env, s.cfg.version, busy));
      hide Outgoing, Learn, FanOut, Listed, Question;
    }

    /** process_reply. */
    method ProcessReply(env: Env, cfg: Config, pkt: array<byte>, now: nat, busy: seq<byte> -> bool)
      requires ConsistentTables(env) && WellPlaced(cache.ways[..])
      requires forall j :: 0 <= j < table.slots.Length ==> IdsFit(table.slots[j])
      modifies this`tcp, this`sent, cache, cache.ways, table.slots, pkt
      ensures AllSized(old(cache.ways[..]))
      ensures Abs(cfg) == OnReply(env, old(Abs(cfg)), old(pkt[..]), now, busy)
    {
      ghost var s, was := Abs(cfg), pkt[..];
      PlacedSized(cache.ways[..], 0);
      hide WellPlaced, Question, Matches, FindLive, Outgoing, Learn, FanOut, OnReply, Listed, Scrubbed, Stamp,
        AllSized, Sized, LastId, Deliverees, ConsistentTables, Live, Taken, First, InOwnSets, KeysUnique;
      var i, qend := FlightOf(env, pkt);
      if i < 0 {
        IgnoredIs(env, s, was, now, busy);
        return;
      }
      ReplyIs(env, s, was, now, busy, i);
      Handle(env, cfg, pkt, now, busy, i, qend);
    }

    /** A reply that answers flight i: scrubbed, chosen, fanned out, learned, and the slot
        released. */
    method Handle(env: Env, cfg: Config, pkt: array<byte>, now: nat, busy: seq<byte> -> bool, i: nat, qend: nat)
      requires ConsistentTables(env) && WellPlaced(cache.ways[..]) && AllSized(cache.ways[..])
      requires i < table.slots.Length && IdsFit(table.slots[i])
      requires Question(pkt[..], 12).Some? && qend == Question(pkt[..], 12).value.1
      modifies this`tcp, this`sent, cache, cache.ways, table.slots, pkt
      ensures var (s, was) := (old(Abs(cfg)), old(pkt[..]));
              var ue := s.slots[i];
              var (p, cloaked) := Outgoing(ue, was, Listed(env, cfg.version, busy));
              var (t, d) := FanOut(s.tcp, s.sent, Deliverees(ue), p);
              qend <= |p| &&
              Abs(cfg) ==
              s.(cache := Learn(s.cache, ue, Stamp(p, LastId(ue)), qend, cloaked, now), tcp := t, sent := d,
                 slots := s.slots[i := ue.(inUse := false)])
    {
      hide WellPlaced, Question, Outgoing, Learn, FanOut, Listed, Scrubbed, Stamp, AllSized, LastId, Deliverees,
        ConsistentTables;
      ghost var was, es, ss := pkt[..], cache.ways[..], table.slots[..];
      var ue := table.slots[i];
      OutgoingLength(ue, was, Listed(env, cfg.version, busy));
      Scrub(pkt, qend);
      var out, cloaked := Choose(env, cfg.version, busy, ue, pkt, qend, was);
      FanOutLoop(ue, out);
      assert cache.ways[..] == es && table.slots[..] == ss;
      LearnReply(ue, out, qend, cloaked, now);
      assert table.slots[..] == ss;
      table.slots[i] := ue.(inUse := false);
    }

    lemma IgnoredIs(env: Env, s: State, pkt: seq<byte>, now: nat, busy: seq<byte> -> bool)
      requires AllSized(s.cache) && forall j :: 0 <= j < |s.slots| ==> IdsFit(s.slots[j])
      requires |pkt| < 12 || FindLive(s.slots, Get16(pkt, 0)) == |s.slots| ||
               !Matches(env, s.slots[FindLive(s.slots, Get16(pkt, 0))], pkt)
      ensures OnReply(env, s, pkt, now, busy) == s
    {
    }

    // ---------- Queries

    /** The head of the query loop: parse the packet and read the generation. None where
        the packet is not a query dns_task serves. */
    method ReadQuery(cfg: Config, pkt: array<byte>, overTcp: bool, addr: nat, conn: nat, off: bool, rw: nat)
      returns (q: Option<Query>)
      ensures q.None? <==> Parsed(pkt[..]).None?
      ensures q.Some? ==> q.value == QueryOf(pkt[..], overTcp, addr, conn, off, rw, cfg.gen, |asks|)
    {
      hide Question;
      if pkt.Length < 12 || pkt[2] >= 128 || pkt[4] as int * 256 + pkt[5] == 0 {
        return None;
      }
      assert pkt[..pkt.Length] == pkt[..];
      var qend, name := ExtractQname(pkt, pkt.Length, 12);
      if qend < 0 {
        return None;
      }
      var qtype := pkt[qend - 4] as int * 256 + pkt[qend - 3];
      var clsIn := pkt[qend - 2] as int * 256 + pkt[qend - 1] == 1;
      return Some(Query(|asks|, pkt[..], name, qend, qtype, clsIn, overTcp, addr, conn, clsIn && off,
                        if clsIn && qtype == 1 then rw else 0, cfg.gen));
    }

    method TakeUdpQuery(cfg: Config, pkt: array<byte>, addr: nat, off: bool, rw: nat)
      modifies this`task, this`asks
      ensures Abs(cfg) == TakeUdp(old(Abs(cfg)), pkt[..], addr, off, rw)
    {
      hide Question, QueryOf;
      var q := ReadQuery(cfg, pkt, false, addr, 0, off, rw);
      if q.Some? {
        QueryIsLong(pkt[..], false, addr, 0, off, rw, cfg.gen, |asks|);
        task, asks := Looking(q.value), asks + [RequesterOf(q.value)];
      }
    }

    method TakeTcpQuery(cfg: Config, pkt: array<byte>, off: bool, rw: nat)
      modifies this`task, this`asks, this`tcp
      ensures Abs(cfg) == TakeTcp(old(Abs(cfg)), pkt[..], off, rw)
    {
      hide Question, QueryOf;
      var q := ReadQuery(cfg, pkt, true, 0, tcp.gen, off, rw);
      if q.None? {
        tcp := Close(tcp);
      } else {
        QueryIsLong(pkt[..], true, 0, tcp.gen, off, rw, cfg.gen, |asks|);
        task, asks := Looking(q.value), asks + [RequesterOf(q.value)];
      }
    }

    lemma QueryIsLong(pkt: seq<byte>, overTcp: bool, addr: nat, conn: nat, off: bool, rw: nat, gen: nat, rid: nat)
      requires Parsed(pkt).Some?
      ensures |QueryOf(pkt, overTcp, addr, conn, off, rw, gen, rid).pkt| >= 12
    {
    }

    /** sendto, or the TCP send and close. */
    method SendAnswer(cfg: Config, q: Query, payload: Option<seq<byte>>)
      requires |q.pkt| >= 2
      modifies this`task, this`sent, this`tcp
      ensures Abs(cfg) == Answer(old(Abs(cfg)), q, payload)
    {
      if payload.Some? {
        sent := sent + [DeliveryOf(RequesterOf(q), payload.value)];
      }
      if q.tcp {
        tcp := Close(tcp);
      }
      task := Waiting;
    }

    /** The blocked answer for the query in the receive buffer. */
    method BuildBlocked(q: Query, rx: array<byte>) returns (r: Option<seq<byte>>)
      requires WellFormed(q) && rx[..] == q.pkt
      ensures r == BlockedAnswer(q)
    {
      var tx := new byte[540];
      var n := BuildBlockedAny(rx, q.qend, q.qtype, tx, 540);
      assert rx[..q.qend] == q.pkt[..q.qend];
      r := if n < 0 then None else Some(tx[..n]);
    }

    /** cache hit? */
    method LookFreshQuery(env: Env, cfg: Config, now: nat, rx: array<byte>)
      requires WellPlaced(cache.ways[..]) && task.Looking? && WellFormed(task.q) && rx[..] == task.q.pkt
      modifies this`task, this`sent, this`tcp
      ensures AllSized(old(cache.ways[..])) && Abs(cfg) == LookFresh(env, old(Abs(cfg)), now)
    {
      PlacedSized(cache.ways[..], 0);
      hide WellPlaced, First, Find, Answer, BlockedAnswer, Stamp;
      var q := task.q;
      var hit: Option<nat> := None;
      if q.rw == 0 && q.clsIn {
        hit := cache.Lookup(CacheKey(env, q), now, cfg.gen);
      }
      if hit.None? {
        task := if q.tcp then Judging(q) else Staling(q);
        return;
      }
      var e := cache.ways[hit.value];
      assert e == cache.ways[..][hit.value];
      if e.blocked && !q.off {
        var r := BuildBlocked(q, rx);
        SendAnswer(cfg, q, r);
      } else if !e.blocked && 0 < e.respLen <= TX_CAP {
        SendAnswer(cfg, q, Some(Replay(e, q)));
      } else {
        task := if q.tcp then Judging(q) else Forwarding(q, q.off, false, cfg.version);
      }
    }

    /** The stale reply: the client's id, and every TTL cut down. */
    method BuildStale(e: Entry, q: Query) returns (r: seq<byte>)
      requires Sized(e) && WellFormed(q)
      ensures r == RewriteAnswerTtls(Replay(e, q), STALE_TTL)
    {
      hide RewriteAnswerTtls;
      var s := Replay(e, q);
      var tx := new byte[|s|](i requires 0 <= i < |s| => s[i]);
      assert tx[..] == s;
      DnsRewriteAnswerTtls(tx, STALE_TTL);
      r := tx[..];
    }

    /** The refresh behind a stale answer: gated, suppressed by a flight already asking, and
        tried again on the next hit where the table is full. */
    method Refresh(env: Env, now: nat, q: Query, i: nat, e: Entry, roll: nat -> nat, ghost hit: nat)
      requires WellFormed(q) && i < cache.ways.Length && cache.ways[i] == e
      requires Acceptable(table.slots[..], roll(hit) % 0x1_0000)
      modifies cache.ways, table.slots
      ensures var (es, ss) := (old(cache.ways[..]), old(table.slots[..]));
              var (spare, t) := (FirstFree(ss), FirstRoll(ss, roll, 0, hit));
              if FindAsking(ss, env.hash(q.name), env.qkey(q.name), q.qtype) < |ss| then
                cache.ways[..] == es[i := e.(refreshAfter := now + TIMEOUT)] && table.slots[..] == ss
              else if spare == |ss| then
                cache.ways[..] == es[i := e.(refreshAfter := 0)] && table.slots[..] == ss
              else
                cache.ways[..] == es[i := e.(refreshAfter := now + TIMEOUT)] &&
                table.slots[..] == ss[spare := RefreshSlot(env, ss[spare], q, e, now, t)]
    {
      hide First, Acceptable, FirstRoll, FirstFree, FindAsking, Claim;
      cache.ways[i] := e.(refreshAfter := now + TIMEOUT);
      var at := table.FindInflight(env.hash(q.name), env.qkey(q.name), q.qtype);
      if at < table.slots.Length {
        return;
      }
      var spare, t := table.Alloc(roll, hit);
      if spare < 0 {
        cache.ways[i] := e.(refreshAfter := 0);
        return;
      }
      table.slots[spare] := table.slots[spare].(client := RequesterOf(q), sent := now, qhash := env.hash(q.name),
        qkey := env.qkey(q.name), qtype := q.qtype, refreshOnly := true, gen := e.gen, auth := e.auth, asked := q.name);
    }

    lemma LookStaleIs(env: Env, s: State, now: nat, t: nat)
      requires s.task.Staling? && WellFormed(s.task.q) && AllSized(s.cache)
      ensures var q := s.task.q;
              var hit := if q.rw != 0 || !q.clsIn then None else FindStale(s.cache, CacheKey(env, q), now, s.cfg.gen);
              (hit.Some? ==> hit.value < |s.cache|) &&
              if hit.None? || s.cache[hit.value].respLen > TX_CAP then
                LookStale(env, s, now, t) == s.(task := Judging(q))
              else
                var (i, e, spare) := (hit.value, s.cache[hit.value], FirstFree(s.slots));
                var a := Answer(s, q, Some(RewriteAnswerTtls(Replay(e, q), STALE_TTL)));
                LookStale(env, s, now, t) ==
                (if now < e.refreshAfter then a
                 else if FindAsking(s.slots, env.hash(q.name), env.qkey(q.name), q.qtype) < |s.slots| then
                   a.(cache := s.cache[i := e.(refreshAfter := now + TIMEOUT)])
                 else if spare == |s.slots| then a.(cache := s.cache[i := e.(refreshAfter := 0)])
                 else a.(cache := s.cache[i := e.(refreshAfter := now + TIMEOUT)],
                         slots := s.slots[spare := RefreshSlot(env, s.slots[spare], q, e, now, t)]))
    {
      hide First, Answer, RewriteAnswerTtls, Replay, FirstFree, FindAsking, RefreshSlot, CacheKey;
    }

    /** serve-stale. */
    method LookStaleQuery(env: Env, cfg: Config, now: nat, roll: nat -> nat, ghost hit: nat)
      requires WellPlaced(cache.ways[..]) && task.Staling? && WellFormed(task.q)
      requires Acceptable(table.slots[..], roll(hit) % 0x1_0000)
      modifies this`task, this`sent, this`tcp, cache.ways, table.slots
      ensures AllSized(old(cache.ways[..]))
      ensures Abs(cfg) == LookStale(env, old(Abs(cfg)), now, FirstRoll(old(table.slots[..]), roll, 0, hit))
    {
      PlacedSized(cache.ways[..], 0);
      LookStaleIs(env, Abs(cfg), now, FirstRoll(table.slots[..], roll, 0, hit));
      hide LookStale, WellPlaced, First, Find, FindStale, Answer, RewriteAnswerTtls, Replay, Acceptable, FirstRoll,
        FirstFree, FindAsking, RefreshSlot, CacheKey;
      var q := task.q;
      var found: Option<nat> := None;
      if q.rw == 0 && q.clsIn {
        found := cache.LookupStale(CacheKey(env, q), now, cfg.gen);
      }
      if found.None? || cache.ways[found.value].respLen > TX_CAP {
        task := Judging(q);
        return;
      }
      var i := found.value;
      var e := cache.ways[i];
      assert e == cache.ways[..][i];
      var r := BuildStale(e, q);
      SendAnswer(cfg, q, Some(r));
      if now >= e.refreshAfter {
        Refresh(env, now, q, i, e, roll, hit);
      }
    }

    /** The rewritten reply, where it fits. */
    method BuildRewrite(q: Query, rx: array<byte>) returns (r: Option<seq<byte>>)
      requires WellFormed(q) && rx[..] == q.pkt && q.rw != 0
      ensures r == RewrittenWithin(q.pkt[..q.qend], q.rw, TX_CAP)
    {
      assert rx[..q.qend] == q.pkt[..q.qend];
      var tx := new byte[540];
      var n := BuildRewriteA(rx, q.qend, q.rw, tx, 540);
      r := if n < 0 then None else Some(tx[..n]);
    }

    /** The rewrite answer, or the verdict and what follows from it. */
    method JudgeQuery(env: Env, cfg: Config, now: nat, busy: bool, rx: array<byte>)
      requires ConsistentTables(env) && WellPlaced(cache.ways[..])
      requires task.Judging? && WellFormed(task.q) && |task.q.name| <= 255 && rx[..] == task.q.pkt
      modifies this`task, this`sent, this`tcp, cache, cache.ways
      ensures AllSized(old(cache.ways[..])) && Abs(cfg) == Judge(env, old(Abs(cfg)), now, busy)
    {
      PlacedSized(cache.ways[..], 0);
      hide WellPlaced, Answer, BlockedAnswer, StoreBlocked, Socket, CacheKey, RewrittenWithin, AllSized;
      var q := task.q;
      if q.rw != 0 {
        var r := BuildRewrite(q, rx);
        SendAnswer(cfg, q, r);
        return;
      }
      var d := NoMatch;
      if q.clsIn {
        d := Consult(env, cfg.version, q.name, busy);
      }
      if d.Block? {
        cache.StoreBlockedName(CacheKey(env, q), BLOCKED_TTL, now, q.gen, cfg.version);
      }
      if d.Block? && !q.off {
        var r := BuildBlocked(q, rx);
        SendAnswer(cfg, q, r);
      } else {
        task := Forwarding(q, q.off || d.Unproven?, d.Allow?, cfg.version);
      }
    }

    /** The query as it leaves for the upstream resolver: its case randomized, our id. */
    method SendUpstream(q: Query, t: nat, rx: array<byte>, coin: nat -> bool) returns (up: seq<byte>)
      requires WellFormed(q) && rx[..] == q.pkt && t < 0x1_0000
      modifies rx
      ensures up == Stamp(Flip(q.pkt, 12, q.qend - 4, 0, coin), t)
    {
      RandomizeQnameCase(rx, q.qend, coin);
      StampId(rx, t);
      up := rx[..];
    }

    /** A new flight for the query in hand, under a fresh id, or None with the table full. */
    method StartFlight(env: Env, now: nat, roll: nat -> nat, ghost hit: nat) returns (t: Option<nat>)
      requires task.Forwarding? && WellFormed(task.q) && Acceptable(table.slots[..], roll(hit) % 0x1_0000)
      modifies table.slots
      ensures var ss := old(table.slots[..]);
              var Forwarding(q, noCache, exempt, auth) := task;
              if FirstFree(ss) == |ss| then t == None && table.slots[..] == ss
              else
                FirstFree(ss) < |ss| && t == Some(FirstRoll(ss, roll, 0, hit)) &&
                var k := FirstFree(ss);
                table.slots[..] == ss[k := ForwardSlot(env, ss[k], q, noCache, exempt, auth, now, t.value)]
    {
      hide First, Acceptable, FirstRoll, FirstFree, Claim;
      var Forwarding(q, noCache, exempt, auth) := task;
      var spare, id := table.Alloc(roll, hit);
      if spare < 0 {
        return None;
      }
      table.slots[spare] := table.slots[spare].(client := RequesterOf(q), sent := now, qhash := env.hash(q.name),
        qkey := env.qkey(q.name), qtype := q.qtype, env := env.envelope(q.pkt, q.qend), noCache := !q.clsIn || noCache,
        paused := noCache, exempt := exempt, gen := q.gen, auth := auth, asked := q.name);
      t := Some(id);
    }

    /** forward: ride a flight, start one, or give up. up is the datagram sent upstream. */
    method ForwardQuery(env: Env, cfg: Config, now: nat, rx: array<byte>, roll: nat -> nat, ghost hit: nat,
                        coin: nat -> bool)
      returns (up: Option<seq<byte>>)
      requires task.Forwarding? && WellFormed(task.q) && rx[..] == task.q.pkt && table.slots.Length == SLOTS
      requires Acceptable(table.slots[..], roll(hit) % 0x1_0000)
      modifies this`task, this`sent, this`tcp, table.slots, rx
      ensures Abs(cfg) == Forward(env, old(Abs(cfg)), now, FirstRoll(old(table.slots[..]), roll, 0, hit))
      ensures up.Some? ==>
                up.value == Stamp(Flip(old(task.q.pkt), 12, old(task.q.qend) - 4, 0, coin),
                                  FirstRoll(old(table.slots[..]), roll, 0, hit))
    {
      RollFits(table.slots[..], roll, hit);
      hide First, Answer, Acceptable, FirstRoll, FirstFree, FindJoinable, ForwardSlot, Join, Flip, Stamp, ServFail;
      var Forwarding(q, noCache, exempt, auth) := task;
      up := None;
      if q.clsIn && !noCache {
        var j := table.FindToJoin(env.hash(q.name), env.qkey(q.name), q.qtype, env.envelope(q.pkt, q.qend), now);
        if j < table.slots.Length {
          JoinableHasRoom(table.slots[..], j, env, q, now);
          var ok := table.JoinFlight(j, RequesterOf(q));
          if q.tcp {
            tcp := tcp.(awaiting := true);
          }
          task := Waiting;
          return;
        }
      }
      var t := StartFlight(env, now, roll, hit);
      if t.None? {
        if q.tcp {
          SendAnswer(cfg, q, Some(ServFail(q)));
        } else {
          task := Waiting;
        }
        return;
      }
      var sentUp := SendUpstream(q, t.value, rx, coin);
      up := Some(sentUp);
      if q.tcp {
        tcp := tcp.(awaiting := true);
      }
      task := Waiting;
    }

    lemma RollFits(ss: seq<Slot>, roll: nat -> nat, hit: nat)
      requires Acceptable(ss, roll(hit) % 0x1_0000)
      ensures FirstRoll(ss, roll, 0, hit) < 0x1_0000
    {
    }

    lemma JoinableHasRoom(ss: seq<Slot>, j: nat, env: Env, q: Query, now: nat)
      requires WellFormed(q) && j < |ss|
      requires j == FindJoinable(ss, env.hash(q.name), env.qkey(q.name), q.qtype, env.envelope(q.pkt, q.qend), now)
      ensures |ss[j].waiters| < MAX_WAITERS
    {
    }
  }
}
