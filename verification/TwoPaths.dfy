/** The two verdict paths: the L2 hook of main/dns_sink.cpp, which answers some queries
    straight from the receive task, and the socket path of main/dns_server.cpp. Whenever
    the hook answers, the socket path would have sent the same bytes. */
module TwoPaths {
  import opened Bytes
  import opened Domain
  import opened Wire
  import opened CaseScrub
  import opened Ttl
  import opened Replies
  import opened Cache
  import opened CacheMap
  import opened Upstream
  import opened Server
  import Generations
  import L2Reply

  const TX_FRAME: nat := 600

  // ---------- Rewrite rules (main/rewrite.c)

  datatype Rule = Rule(domain: seq<byte>, ip: nat)

  /** The rule's domain itself, or a name below it. */
  predicate RuleCovers(rule: seq<byte>, name: seq<byte>) {
    name == rule ||
    (|name| > |rule| + 1 && name[|name| - |rule| - 1] == DOT && name[|name| - |rule|..] == rule)
  }

  function FirstRule(rules: seq<Rule>, name: seq<byte>): Option<nat> {
    if rules == [] then None
    else if RuleCovers(rules[0].domain, name) then Some(rules[0].ip)
    else FirstRule(rules[1..], name)
  }

  function StrLen(s: seq<byte>): (n: nat)
    ensures n <= |s|
  {
    if s == [] || s[0] == 0 then 0 else 1 + StrLen(s[1..])
  }

  /** What a C string function sees of a name: the bytes before the first zero. */
  function CString(name: seq<byte>): seq<byte> {
    name[..StrLen(name)]
  }

  lemma {:induction false} StrLenFindsZero(s: seq<byte>)
    ensures forall i :: 0 <= i < StrLen(s) ==> s[i] != 0
    ensures StrLen(s) < |s| ==> s[StrLen(s)] == 0
  {
    if s != [] && s[0] != 0 {
      StrLenFindsZero(s[1..]);
      assert forall i :: 1 <= i < |s| ==> s[i] == s[1..][i - 1];
    }
  }

  lemma NoZeroNoCut(name: seq<byte>)
    ensures 0 !in name ==> CString(name) == name
  {
    StrLenFindsZero(name);
  }

  /** Addresses are 32 bits wide. */
  predicate RulesFit(rules: seq<Rule>) {
    forall i :: 0 <= i < |rules| ==> rules[i].ip <= NO_TTL
  }

  lemma {:induction false} FirstRuleFits(rules: seq<Rule>, name: seq<byte>)
    requires RulesFit(rules)
    ensures FirstRule(rules, name).Some? ==> FirstRule(rules, name).value <= NO_TTL
  {
    if rules != [] {
      FirstRuleFits(rules[1..], name);
    }
  }

  /** rewrite_lookup: 0 where no rule covers the name, as strlen measures it. */
  function RewriteLookup(rules: seq<Rule>, name: seq<byte>): (ip: nat)
    requires RulesFit(rules)
    ensures ip <= NO_TTL
  {
    FirstRuleFits(rules, CString(name));
    match FirstRule(rules, CString(name))
    case None => 0
    case Some(ip) => ip
  }

  method Strlen(s: seq<byte>) returns (n: nat)
    ensures n == StrLen(s)
  {
    n := 0;
    while n < |s| && s[n] != 0
      invariant n <= |s| && StrLen(s) == n + StrLen(s[n..])
    {
      assert s[n..][1..] == s[n + 1..];
      n := n + 1;
    }
  }

  /** The rule scan both lookups share. */
  method ScanRules(rules: seq<Rule>, name: seq<byte>) returns (r: Option<nat>)
    ensures r == FirstRule(rules, name)
  {
    var i: nat := 0;
    while i < |rules|
      invariant i <= |rules| && FirstRule(rules, name) == FirstRule(rules[i..], name)
    {
      var rule := rules[i].domain;
      assert rules[i..][0] == rules[i] && rules[i..][1..] == rules[i + 1..];
      if |name| == |rule| && name == rule {
        return Some(rules[i].ip);
      }
      if |name| > |rule| + 1 && name[|name| - |rule| - 1] == DOT && name[|name| - |rule|..] == rule {
        return Some(rules[i].ip);
      }
      i := i + 1;
    }
    assert rules[i..] == [];
    return None;
  }

  /** rewrite_lookup. stuck: the bounded wait for its lock ran out. */
  method LookupRewrite(rules: seq<Rule>, stuck: bool, domain: seq<byte>) returns (ip: nat)
    requires RulesFit(rules)
    ensures ip == if stuck then 0 else RewriteLookup(rules, domain)
  {
    if |rules| == 0 {
      return 0;
    }
    if stuck {
      return 0;
    }
    var n := Strlen(domain);
    var r := ScanRules(rules, domain[..n]);
    ip := if r.Some? then r.value else 0;
  }

  // ---------- What both paths consult

  /** The address of the device, and the small per-client tables with the state of their
      locks: busy for the hook, which does not wait, or stuck for dns_task, whose bounded wait
      ran out; tablesBusy is for both. acl empty means everybody. */
  datatype Gates = Gates(ourIp: nat, acl: seq<nat>, aclBusy: bool, paused: nat -> bool, bypass: seq<nat>,
                         bypassBusy: bool, bypassStuck: bool, rules: seq<Rule>, rulesBusy: bool, rulesStuck: bool,
                         tablesBusy: bool, moved: bool)

  /** acl_permits_nb and acl_permits: the hook needs proof, dns_task gives the benefit of
      the doubt. */
  predicate AclNb(g: Gates, src: nat) {
    g.acl == [] || (!g.aclBusy && src in g.acl)
  }

  predicate Acl(g: Gates, src: nat) {
    g.acl == [] || g.aclBusy || src in g.acl
  }

  predicate BypassNb(g: Gates, src: nat) {
    !g.bypassBusy && src in g.bypass
  }

  /** bypass_active_for, as dns_task asks it. */
  predicate Bypassed(g: Gates, src: nat) {
    !g.bypassStuck && src in g.bypass
  }

  /** rewrite_lookup, as dns_task asks it. */
  function DnsRewrite(g: Gates, name: seq<byte>): (ip: nat)
    requires RulesFit(g.rules)
    ensures ip <= NO_TTL
  {
    if g.rulesStuck then 0 else RewriteLookup(g.rules, name)
  }

  // ---------- The L2 hook

  /** The checks of l2_input_cb up to the DNS header: where the message is, and how long. */
  function Ladder(f: seq<byte>, ourIp: nat): (r: Option<(nat, nat)>)
    ensures r.Some? ==> 42 <= r.value.0 <= 82 && 12 <= r.value.1 && r.value.0 + r.value.1 <= |f|
  {
    if ourIp == 0 || |f| < 55 || f[12] != 8 || f[13] != 0 || f[14] / 16 != 4 then None
    else
      var ihl := f[14] % 16 * 4;
      var iptot := Get16(f, 16);
      if ihl < 20 || f[23] != 17 || iptot < ihl + 8 || 14 + iptot > |f| || Get16(f, 20) % 0x4000 != 0 then None
      else if Get32(f, 30) != ourIp || Get32(f, 26) == 0 || Get32(f, 26) == 0xFFFF_FFFF || f[26] / 16 == 14 then None
      else
        var udp := 14 + ihl;
        var udplen := Get16(f, udp + 4);
        if Get16(f, udp + 2) != 53 || udplen < 20 || udp + udplen > 14 + iptot then None
        else if f[udp + 10] >= 128 || Get16(f, udp + 12) != 1 then None
        else Some((udp + 8, udplen - 8))
  }

  /** The DNS message of a frame the ladder accepts, and who sent it. */
  function Message(f: seq<byte>, ourIp: nat): (pkt: seq<byte>)
    requires Ladder(f, ourIp).Some?
    ensures |pkt| >= 12
  {
    f[Ladder(f, ourIp).value.0..Ladder(f, ourIp).value.0 + Ladder(f, ourIp).value.1]
  }

  /** blocklist_verdict_nb proves a block. */
  ghost predicate ProvenBlock(env: Env, g: Gates, version: nat, name: seq<byte>) {
    !g.tablesBusy && !g.moved && Decide(env, version, name).Block?
  }

  /** The query the hook may answer: let through by every gate, A or AAAA of class IN, and
      not rewritten. */
  function Probed(g: Gates, pkt: seq<byte>, src: nat): (r: Option<(seq<byte>, nat, nat)>)
    requires |pkt| >= 12
    ensures r.Some? ==> Question(pkt, 12) == Some((r.value.0, r.value.1)) && (r.value.2 == 1 || r.value.2 == 28)
  {
    if !AclNb(g, src) || g.paused(src) || BypassNb(g, src) || Question(pkt, 12).None? then None
    else
      var (name, qend) := Question(pkt, 12).value;
      var qtype := Get16(pkt, qend - 4);
      if (qtype != 1 && qtype != 28) || Get16(pkt, qend - 2) != 1 then None
      else if qtype == 1 && g.rules != [] && (g.rulesBusy || FirstRule(g.rules, name).Some?) then None
      else Some((name, qend, qtype))
  }

  /** The key under which the hook looks a message up in the cache. */
  function HookKey(env: Env, pkt: seq<byte>): Key
    requires Question(pkt, 12).Some?
  {
    var (name, qend) := Question(pkt, 12).value;
    Key(env.hash(name), Get16(pkt, qend - 4), pkt[12..qend - 4])
  }

  /** The DNS payload the hook answers a message with, or None where it hands the frame on.
      hit is what its cache read came back with. */
  ghost function L2AnswerWith(env: Env, g: Gates, version: nat, pkt: seq<byte>, src: nat, dns: nat,
                              hit: Option<seq<byte>>): Option<seq<byte>>
    requires |pkt| >= 12 && dns <= 82
  {
    match Probed(g, pkt, src)
    case None => None
    case Some((name, qend, qtype)) =>
      match hit
      case Some(r) => Some(Stamp(r, Get16(pkt, 0)))
      case None =>
        var b := Blocked(pkt[..qend], qtype);
        if ProvenBlock(env, g, version, name) && dns + |b| <= TX_FRAME then Some(b) else None
  }

  /** The same where nothing is written to the cache while it is read. */
  ghost function L2Answer(env: Env, g: Gates, es: seq<Entry>, cfg: Config, pkt: seq<byte>, src: nat, dns: nat, now: nat)
    : Option<seq<byte>>
    requires |es| == ENTRIES && |pkt| >= 12 && dns <= 82
  {
    if Question(pkt, 12).None? then None
    else L2AnswerWith(env, g, cfg.version, pkt, src, dns, L2Get(es, HookKey(env, pkt), TX_FRAME - dns, now, cfg.gen))
  }

  // ---------- The socket path, uninterrupted

  /** What dns_task does with one datagram while nothing else happens: the reply it sends
      at once, or None where it drops or forwards the query. */
  ghost function SocketAnswer(env: Env, g: Gates, s: State, pkt: seq<byte>, src: nat, now: nat, t: nat)
    : Option<seq<byte>>
    requires s.task.Waiting? && AllSized(s.cache) && RulesFit(g.rules)
  {
    if !Acl(g, src) || Parsed(pkt).None? then None
    else
      var rw := DnsRewrite(g, Parsed(pkt).value.0);
      var s1 := TakeUdp(s, pkt, src, g.paused(src) || Bypassed(g, src), rw);
      var s2 := LookFresh(env, s1, now);
      LadderKeepsQuery(env, s1, now);
      var s3 := if s2.task.Staling? then LookStale(env, s2, now, t) else s2;
      StaleKeepsQuery(env, s2, now, t);
      var s4 := if s3.task.Judging? then Judge(env, s3, now, g.tablesBusy) else s3;
      if s4.task.Waiting? && |s4.sent| == |s.sent| + 1 then Some(s4.sent[|s.sent|].payload) else None
  }

  lemma LadderKeepsQuery(env: Env, s: State, now: nat)
    requires s.task.Looking? && WellFormed(s.task.q) && AllSized(s.cache)
    ensures var s' := LookFresh(env, s, now);
            s'.cache == s.cache && (s'.task.Waiting? || s'.task.q == s.task.q)
  {
    hide FindFresh, BlockedAnswer, Replay;
  }

  lemma StaleKeepsQuery(env: Env, s: State, now: nat, t: nat)
    requires AllSized(s.cache)
    ensures s.task.Staling? && WellFormed(s.task.q) ==>
              var s' := LookStale(env, s, now, t);
              AllSized(s'.cache) && (s'.task.Waiting? || s'.task.q == s.task.q)
  {
    if s.task.Staling? && WellFormed(s.task.q) && FindStale(s.cache, CacheKey(env, s.task.q), now, s.cfg.gen).Some? {
      Generations.StaleIsStale(s.cache, CacheKey(env, s.task.q), now, s.cfg.gen);
    }
    hide FindStale, RewriteAnswerTtls, Replay, FindAsking, FirstFree, RefreshSlot;
  }

  // ---------- Agreement

  /** The query dns_task reads from the message. off: the client is bypassed. */
  lemma TakenQuery(env: Env, s: State, pkt: seq<byte>, src: nat, off: bool, rw: nat)
    requires Parsed(pkt).Some? && rw <= NO_TTL
    ensures var (name, qend) := Parsed(pkt).value;
            var q := QueryOf(pkt, false, src, 0, off, rw, s.cfg.gen, |s.asks|);
            var qtype := Get16(pkt, qend - 4);
            WellFormed(q) && q.pkt == pkt && q.name == name && q.qend == qend && q.qtype == qtype && !q.tcp &&
            q.off == (q.clsIn && off) &&
            q.clsIn == (Get16(pkt, qend - 2) == 1) && (q.rw == if q.clsIn && qtype == 1 then rw else 0) &&
            CacheKey(env, q) == Key(env.hash(name), qtype, pkt[12..qend - 4]) && q.gen == s.cfg.gen &&
            TakeUdp(s, pkt, src, off, rw) == s.(task := Looking(q), asks := s.asks + [RequesterOf(q)])
  {
    hide Question;
  }

  /** A fast-path hit is dns_task's fresh hit, replayed. */
  lemma HitIsReplayed(env: Env, s1: State, now: nat, cap: nat)
    requires s1.task.Looking? && WellFormed(s1.task.q) && WellPlaced(s1.cache) && AllSized(s1.cache)
    requires s1.task.q.rw == 0 && s1.task.q.clsIn && !s1.task.q.tcp
    requires L2Get(s1.cache, CacheKey(env, s1.task.q), cap, now, s1.cfg.gen).Some?
    ensures var r := L2Get(s1.cache, CacheKey(env, s1.task.q), cap, now, s1.cfg.gen).value;
            LookFresh(env, s1, now) == Answer(s1, s1.task.q, Some(Stamp(r, Get16(s1.task.q.pkt, 0))))
  {
    var q := s1.task.q;
    L2GetIsFreshAllowedHit(s1.cache, CacheKey(env, q), cap, now, s1.cfg.gen);
    var hit := FindFresh(s1.cache, CacheKey(env, q), now, s1.cfg.gen);
    hide L2Get, FindFresh, Answer, WellPlaced, Stamp, CacheKey, BlockedAnswer;
    assert hit.Some?;
    PlacedSized(s1.cache, hit.value);
  }

  /** Where the fast path misses and the current verdict is a block, dns_task finds a
      cached block or comes to the verdict itself, past an empty stale window. */
  lemma MissIsJudged(env: Env, s: State, s1: State, now: nat, t: nat, cap: nat)
    requires Generations.Inv(env, s, true) && Generations.Settled(s.cfg) && cap >= RESP_MAX
    requires s1.task.Looking? && Generations.QueryOk(s.cfg, s1.task.q) && s1.cache == s.cache && s1.cfg == s.cfg
    requires AllSized(s1.cache) && s1.task.q.rw == 0 && s1.task.q.clsIn && !s1.task.q.tcp && !s1.task.q.off
    requires L2Get(s1.cache, CacheKey(env, s1.task.q), cap, now, s1.cfg.gen).None?
    requires Decide(env, s.cfg.version, s1.task.q.name).Block?
    ensures var q := s1.task.q;
            LookFresh(env, s1, now) == Answer(s1, q, BlockedAnswer(q)) ||
            (LookFresh(env, s1, now) == s1.(task := Staling(q)) &&
             LookStale(env, s1.(task := Staling(q)), now, t) == s1.(task := Judging(q)))
  {
    var q := s1.task.q;
    var k := CacheKey(env, q);
    assert WellPlaced(s.cache);
    L2GetIsFreshAllowedHit(s1.cache, k, cap, now, s1.cfg.gen);
    var hit, old1 := FindFresh(s1.cache, k, now, s1.cfg.gen), FindStale(s1.cache, k, now, s1.cfg.gen);
    FreshHitIsBlock(env, s, k, cap, now);
    NothingStale(env, s, q, now);
    hide L2Get, FindFresh, FindStale, Answer, WellPlaced, CacheKey, BlockedAnswer, Replay, Generations.Inv, Decide,
      Question;
  }

  /** A fresh hit the fast path passed over is a cached block. */
  lemma FreshHitIsBlock(env: Env, s: State, k: Key, cap: nat, now: nat)
    requires Generations.Inv(env, s, true) && cap >= RESP_MAX && WellPlaced(s.cache) && |s.cache| == ENTRIES
    requires L2Get(s.cache, k, cap, now, s.cfg.gen).None?
    ensures var f := FindFresh(s.cache, k, now, s.cfg.gen);
            f.Some? ==> f.value < |s.cache| && s.cache[f.value].blocked
  {
    L2GetIsFreshAllowedHit(s.cache, k, cap, now, s.cfg.gen);
    var f := FindFresh(s.cache, k, now, s.cfg.gen);
    if f.Some? {
      Generations.FreshIsFresh(s.cache, k, now, s.cfg.gen);
      assert Generations.EntryOk(env, s.cfg, s.cache[f.value], true);
    }
    hide L2Get, FindFresh, WellPlaced, Decide, Question, Generations.StampOk;
  }

  /** Under a settled configuration that blocks the name, no stale entry answers it. */
  lemma NothingStale(env: Env, s: State, q: Query, now: nat)
    requires Generations.Inv(env, s, true) && Generations.Settled(s.cfg) && Generations.QueryOk(s.cfg, q)
    requires Decide(env, s.cfg.version, q.name).Block? && |s.cache| == ENTRIES
    ensures FindStale(s.cache, CacheKey(env, q), now, s.cfg.gen).None?
  {
    var k := CacheKey(env, q);
    var f := FindStale(s.cache, k, now, s.cfg.gen);
    if f.Some? {
      Generations.StaleIsStale(s.cache, k, now, s.cfg.gen);
      Generations.SettledHitIsAllowedNow(env, s, f.value);
      EntryOfCache(env, s, f.value);
      hide Generations.Inv, FindStale, Decide, Question, CacheKey, Owns, Generations.EntryOk;
      Generations.FoundEntryNames(env, s.cfg, q, s.cache[f.value]);
    }
  }

  lemma EntryOfCache(env: Env, s: State, i: nat)
    requires Generations.Inv(env, s, true) && i < |s.cache|
    ensures Generations.EntryOk(env, s.cfg, s.cache[i], true)
  {
    hide WellPlaced, Generations.EntryOk;
  }

  lemma BlockedFits(q: Query)
    requires WellFormed(q) && Question(q.pkt, 12) == Some((q.name, q.qend))
    ensures BlockedAnswer(q) == Some(Blocked(q.pkt[..q.qend], q.qtype))
  {
    WireLenAgreesWithQuestion(q.pkt, 12);
    hide Question, WireLen, WithHeader, AnswerRr, RespFlags;
  }

  lemma JudgedBlocks(env: Env, s: State, now: nat) returns (es: seq<Entry>)
    requires s.task.Judging? && WellFormed(s.task.q) && AllSized(s.cache)
    requires s.task.q.rw == 0 && s.task.q.clsIn && !s.task.q.off && Decide(env, s.cfg.version, s.task.q.name).Block?
    ensures |s.task.q.pkt| >= 2
    ensures Judge(env, s, now, false) == Answer(s.(cache := es), s.task.q, BlockedAnswer(s.task.q))
  {
    var q := s.task.q;
    es := StoreBlocked(s.cache, CacheKey(env, q), BLOCKED_TTL, now, q.gen, s.cfg.version);
    hide StoreBlocked, Answer, BlockedAnswer, CacheKey, Decide;
    assert Judge(env, s, now, false) == Answer(s.(cache := es), q, BlockedAnswer(q));
  }

  /** An answer at the end of the ladder is what the client gets. */
  lemma AnswerIsSent(s: State, q: Query, payload: seq<byte>)
    requires |q.pkt| >= 2
    ensures var s' := Answer(s, q, Some(payload));
            s'.task.Waiting? && |s'.sent| == |s.sent| + 1 && s'.sent[|s.sent|].payload == payload
  {
  }

  /** dns_task answers the message with the address of a rewrite rule. */
  predicate Rewritten(g: Gates, pkt: seq<byte>)
    requires RulesFit(g.rules) && Parsed(pkt).Some?
  {
    var (name, qend) := Parsed(pkt).value;
    Get16(pkt, qend - 4) == 1 && Get16(pkt, qend - 2) == 1 && DnsRewrite(g, name) != 0
  }

  /** What it then answers. */
  function RewriteReply(g: Gates, pkt: seq<byte>): seq<byte>
    requires RulesFit(g.rules) && Parsed(pkt).Some?
  {
    var (name, qend) := Parsed(pkt).value;
    Answered(pkt[..qend], 1, REWRITE_TTL, Address(DnsRewrite(g, name)))
  }

  /** The fast path finds the reply in the cache. */
  ghost predicate CacheAnswers(env: Env, s: State, pkt: seq<byte>, dns: nat, now: nat)
    requires |s.cache| == ENTRIES && Parsed(pkt).Some? && dns <= 82
  {
    var (name, qend) := Parsed(pkt).value;
    L2Get(s.cache, Key(env.hash(name), Get16(pkt, qend - 4), pkt[12..qend - 4]), TX_FRAME - dns, now, s.cfg.gen).Some?
  }

  lemma NotRewritten(g: Gates, pkt: seq<byte>)
    requires RulesFit(g.rules) && Parsed(pkt).Some? && 0 !in Parsed(pkt).value.0
    requires var (name, qend) := Parsed(pkt).value;
             Get16(pkt, qend - 4) == 1 ==> g.rules == [] || FirstRule(g.rules, name).None?
    ensures !Rewritten(g, pkt)
  {
    NoZeroNoCut(Parsed(pkt).value.0);
    hide Question;
  }

  /** What an answer of the hook says about the message and the gates. */
  lemma AnsweredMeans(env: Env, g: Gates, es: seq<Entry>, cfg: Config, pkt: seq<byte>, src: nat, dns: nat, now: nat)
    requires |es| == ENTRIES && |pkt| >= 12 && dns <= 82 && L2Answer(env, g, es, cfg, pkt, src, dns, now).Some?
    ensures AclNb(g, src) && !g.paused(src) && !BypassNb(g, src) && Question(pkt, 12).Some?
    ensures var (name, qend) := Question(pkt, 12).value;
            Get16(pkt, qend - 2) == 1 && (Get16(pkt, qend - 4) == 1 ==> g.rules == [] || FirstRule(g.rules, name).None?)
  {
    hide L2Get, Blocked, Stamp, Question, ProvenBlock, FirstRule;
  }

  /** The hook's payload, in terms of the query dns_task would take. */
  ghost predicate AnsweredAs(env: Env, g: Gates, s: State, q: Query, dns: nat, now: nat, payload: seq<byte>) {
    |s.cache| == ENTRIES && dns <= 82 && WellFormed(q) &&
    var hit := L2Get(s.cache, CacheKey(env, q), TX_FRAME - dns, now, s.cfg.gen);
    if hit.Some? then payload == Stamp(hit.value, Get16(q.pkt, 0))
    else payload == Blocked(q.pkt[..q.qend], q.qtype) && !g.tablesBusy && Decide(env, s.cfg.version, q.name).Block?
  }

  lemma AnsweredFor(env: Env, g: Gates, s: State, pkt: seq<byte>, src: nat, dns: nat, now: nat, q: Query)
    requires |s.cache| == ENTRIES && |pkt| >= 12 && dns <= 82 &&
             L2Answer(env, g, s.cache, s.cfg, pkt, src, dns, now).Some?
    requires WellFormed(q) && q.pkt == pkt && Question(pkt, 12) == Some((q.name, q.qend)) &&
             q.qtype == Get16(pkt, q.qend - 4)
    ensures AnsweredAs(env, g, s, q, dns, now, L2Answer(env, g, s.cache, s.cfg, pkt, src, dns, now).value)
  {
    hide L2Get, Blocked, Stamp, Question, FirstRule, Decide;
  }

  /** q is what dns_task makes of the message, where no rewrite rule applies. */
  ghost predicate TakenAs(g: Gates, s: State, pkt: seq<byte>, src: nat, q: Query)
    requires RulesFit(g.rules)
  {
    Parsed(pkt).Some? && WellFormed(q) &&
    q == QueryOf(pkt, false, src, 0, Bypassed(g, src), DnsRewrite(g, Parsed(pkt).value.0), s.cfg.gen, |s.asks|) &&
    Generations.QueryOk(s.cfg, q) && q.pkt == pkt && q.off == Bypassed(g, src) && !q.tcp && q.clsIn && q.rw == 0
  }

  function Taken(s: State, q: Query): State
    requires |q.pkt| >= 2
  {
    s.(task := Looking(q), asks := s.asks + [RequesterOf(q)])
  }

  lemma TakenIs(s: State, q: Query)
    requires |q.pkt| >= 2
    ensures var s1 := Taken(s, q);
            s1.task == Looking(q) && s1.cache == s.cache && s1.cfg == s.cfg && s1.sent == s.sent && s1.slots == s.slots
  {
  }

  lemma TakenAsIs(g: Gates, s: State, pkt: seq<byte>, src: nat, q: Query)
    requires RulesFit(g.rules) && TakenAs(g, s, pkt, src, q)
    ensures |q.pkt| >= 12 && WellFormed(q) && Generations.QueryOk(s.cfg, q) &&
            Question(q.pkt, 12) == Some((q.name, q.qend))
    ensures q.pkt == pkt && q.off == Bypassed(g, src) && !q.tcp && q.clsIn && q.rw == 0
  {
    hide Question;
  }

  /** dns_task's path, step by step. */
  lemma SocketIs(env: Env, g: Gates, s: State, pkt: seq<byte>, src: nat, now: nat, t: nat, q: Query)
    requires s.task.Waiting? && AllSized(s.cache) && RulesFit(g.rules)
    requires Acl(g, src) && !g.paused(src) && Parsed(pkt).Some? && TakenAs(g, s, pkt, src, q)
    ensures |q.pkt| >= 12 && WellFormed(q) && Taken(s, q).task == Looking(q) && Taken(s, q).cache == s.cache
    ensures var s2 := LookFresh(env, Taken(s, q), now);
            s2.task.Waiting? && |s2.sent| == |s.sent| + 1 ==>
              SocketAnswer(env, g, s, pkt, src, now, t) == Some(s2.sent[|s.sent|].payload)
    ensures var s1 := Taken(s, q);
            LookFresh(env, s1, now) == s1.(task := Staling(q)) &&
            LookStale(env, s1.(task := Staling(q)), now, t) == s1.(task := Judging(q)) ==>
              var s4 := Judge(env, s1.(task := Judging(q)), now, g.tablesBusy);
              s4.task.Waiting? && |s4.sent| == |s.sent| + 1 ==>
                SocketAnswer(env, g, s, pkt, src, now, t) == Some(s4.sent[|s.sent|].payload)
  {
    var rw := DnsRewrite(g, Parsed(pkt).value.0);
    TakenQuery(env, s, pkt, src, Bypassed(g, src), rw);
    var s1 := Taken(s, q);
    assert TakeUdp(s, pkt, src, Bypassed(g, src), rw) == s1;
    LadderKeepsQuery(env, s1, now);
    StaleKeepsQuery(env, LookFresh(env, s1, now), now, t);
    hide LookFresh, LookStale, Judge, QueryOf, RequesterOf, Parsed, TakeUdp, DnsRewrite, Bypassed;
  }

  lemma HitAgrees(env: Env, g: Gates, s: State, pkt: seq<byte>, src: nat, now: nat, t: nat, q: Query, cap: nat)
    requires s.task.Waiting? && WellPlaced(s.cache) && AllSized(s.cache) && |s.cache| == ENTRIES
    requires RulesFit(g.rules) && Acl(g, src) && !g.paused(src) && Parsed(pkt).Some?
    requires TakenAs(g, s, pkt, src, q) && WellFormed(q)
    requires L2Get(s.cache, CacheKey(env, q), cap, now, s.cfg.gen).Some?
    ensures SocketAnswer(env, g, s, pkt, src, now, t) ==
            Some(Stamp(L2Get(s.cache, CacheKey(env, q), cap, now, s.cfg.gen).value, Get16(q.pkt, 0)))
  {
    hide *;
    TakenAsIs(g, s, pkt, src, q);
    TakenIs(s, q);
    SocketIs(env, g, s, pkt, src, now, t, q);
    HitIsReplayed(env, Taken(s, q), now, cap);
    AnswerIsSent(Taken(s, q), q, Stamp(L2Get(s.cache, CacheKey(env, q), cap, now, s.cfg.gen).value, Get16(q.pkt, 0)));
  }

  lemma BlockAgrees(env: Env, g: Gates, s: State, pkt: seq<byte>, src: nat, now: nat, t: nat, q: Query, cap: nat)
    requires Generations.Inv(env, s, true) && Generations.Settled(s.cfg) && cap >= 512
    requires s.task.Waiting? && AllSized(s.cache) && |s.cache| == ENTRIES && RulesFit(g.rules)
    requires Acl(g, src) && !g.paused(src) && !Bypassed(g, src) && Parsed(pkt).Some? && !g.tablesBusy
    requires TakenAs(g, s, pkt, src, q) && WellFormed(q)
    requires L2Get(s.cache, CacheKey(env, q), cap, now, s.cfg.gen).None? && Decide(env, s.cfg.version, q.name).Block?
    ensures SocketAnswer(env, g, s, pkt, src, now, t) == Some(Blocked(q.pkt[..q.qend], q.qtype))
  {
    assert RESP_MAX == 512;
    hide *;
    TakenAsIs(g, s, pkt, src, q);
    TakenIs(s, q);
    SocketIs(env, g, s, pkt, src, now, t, q);
    FormedIsLong(q);
    BlockedFits(q);
    var s1 := Taken(s, q);
    MissIsJudged(env, s, s1, now, t, cap);
    var b := Blocked(q.pkt[..q.qend], q.qtype);
    AnswerIsSent(s1, q, b);
    var s3 := s1.(task := Judging(q));
    var es := JudgedBlocks(env, s3, now);
    AnswerIsSent(s3.(cache := es), q, b);
  }

  lemma FormedIsLong(q: Query)
    requires WellFormed(q)
    ensures 12 <= q.qend <= |q.pkt|
  {
  }

  /** The query dns_task takes, where no rewrite rule applies. */
  lemma TakenUnrewritten(env: Env, g: Gates, s: State, pkt: seq<byte>, src: nat, q: Query)
    requires RulesFit(g.rules) && Parsed(pkt).Some? && !Rewritten(g, pkt) && Get16(pkt, Parsed(pkt).value.1 - 2) == 1
    requires q == QueryOf(pkt, false, src, 0, Bypassed(g, src), DnsRewrite(g, Parsed(pkt).value.0), s.cfg.gen, |s.asks|)
    ensures TakenAs(g, s, pkt, src, q) && WellFormed(q)
    ensures Parsed(pkt) == Some((q.name, q.qend)) && q.qtype == Get16(pkt, q.qend - 4) && q.pkt == pkt
    ensures TakeUdp(s, pkt, src, Bypassed(g, src), DnsRewrite(g, Parsed(pkt).value.0)) == Taken(s, q)
  {
    TakenQuery(env, s, pkt, src, Bypassed(g, src), DnsRewrite(g, Parsed(pkt).value.0));
    hide DnsRewrite, FirstRule, QueryOf, Question, TakeUdp;
  }

  /** The query dns_task takes and the hook's payload, named once. */
  lemma HookAnswerFor(env: Env, g: Gates, s: State, pkt: seq<byte>, src: nat, dns: nat, now: nat) returns (q: Query)
    requires |s.cache| == ENTRIES && RulesFit(g.rules) && Parsed(pkt).Some? && dns <= 82 && !Rewritten(g, pkt)
    requires |pkt| >= 12 && L2Answer(env, g, s.cache, s.cfg, pkt, src, dns, now).Some?
    ensures AclNb(g, src) && !g.paused(src) && TakenAs(g, s, pkt, src, q) && WellFormed(q)
    ensures TakeUdp(s, pkt, src, Bypassed(g, src), DnsRewrite(g, Parsed(pkt).value.0)) == Taken(s, q)
    ensures AnsweredAs(env, g, s, q, dns, now, L2Answer(env, g, s.cache, s.cfg, pkt, src, dns, now).value)
    ensures CacheAnswers(env, s, pkt, dns, now) <==>
              L2Get(s.cache, CacheKey(env, q), TX_FRAME - dns, now, s.cfg.gen).Some?
  {
    hide *;
    q := QueryOf(pkt, false, src, 0, Bypassed(g, src), DnsRewrite(g, Parsed(pkt).value.0), s.cfg.gen, |s.asks|);
    ParsedIsQuestion(pkt);
    AnsweredMeans(env, g, s.cache, s.cfg, pkt, src, dns, now);
    TakenUnrewritten(env, g, s, pkt, src, q);
    HookPayload(env, g, s, pkt, src, dns, now, q);
  }

  lemma ParsedIsQuestion(pkt: seq<byte>)
    requires Parsed(pkt).Some?
    ensures Question(pkt, 12) == Parsed(pkt)
  {
    hide Question;
  }

  lemma TakenNames(g: Gates, s: State, pkt: seq<byte>, src: nat, q: Query)
    requires RulesFit(g.rules) && TakenAs(g, s, pkt, src, q)
    ensures |pkt| >= 12 && q.pkt == pkt && Parsed(pkt) == Some((q.name, q.qend)) && 17 <= q.qend <= |pkt|
    ensures q.qtype == Get16(pkt, q.qend - 4)
  {
    hide Question, DnsRewrite, Bypassed, RulesFit, Generations.QueryOk;
  }

  lemma HookPayload(env: Env, g: Gates, s: State, pkt: seq<byte>, src: nat, dns: nat, now: nat, q: Query)
    requires |s.cache| == ENTRIES && RulesFit(g.rules) && Parsed(pkt).Some? && dns <= 82
    requires TakenAs(g, s, pkt, src, q) && WellFormed(q)
    requires |pkt| >= 12 && L2Answer(env, g, s.cache, s.cfg, pkt, src, dns, now).Some?
    ensures AnsweredAs(env, g, s, q, dns, now, L2Answer(env, g, s.cache, s.cfg, pkt, src, dns, now).value)
    ensures CacheAnswers(env, s, pkt, dns, now) <==>
              L2Get(s.cache, CacheKey(env, q), TX_FRAME - dns, now, s.cfg.gen).Some?
  {
    hide *;
    ParsedIsQuestion(pkt);
    TakenNames(g, s, pkt, src, q);
    AnsweredFor(env, g, s, pkt, src, dns, now, q);
    AnswerFrom(env, g, s, pkt, dns, now, q, L2Answer(env, g, s.cache, s.cfg, pkt, src, dns, now).value);
  }

  /** What dns_task sends where the hook answers. */
  lemma SocketWhereHookAnswers(env: Env, g: Gates, s: State, pkt: seq<byte>, src: nat, dns: nat, now: nat, t: nat)
    requires Generations.Inv(env, s, true) && Generations.Settled(s.cfg) && s.task.Waiting?
    requires AllSized(s.cache) && |s.cache| == ENTRIES && RulesFit(g.rules)
    requires Parsed(pkt).Some? && dns <= 82
    requires |pkt| >= 12 && L2Answer(env, g, s.cache, s.cfg, pkt, src, dns, now).Some?
    ensures SocketAnswer(env, g, s, pkt, src, now, t) ==
            if Rewritten(g, pkt) then Some(RewriteReply(g, pkt))
            else if CacheAnswers(env, s, pkt, dns, now) || !Bypassed(g, src) then
              L2Answer(env, g, s.cache, s.cfg, pkt, src, dns, now)
            else None
  {
    assert WellPlaced(s.cache) && RESP_MAX == 512 && TX_FRAME == 600;
    hide *;
    ByLockFree(g, src);
    if Rewritten(g, pkt) {
      AnsweredMeans(env, g, s.cache, s.cfg, pkt, src, dns, now);
      RewriteAnswers(env, g, s, pkt, src, now, t);
    } else {
      var q := HookAnswerFor(env, g, s, pkt, src, dns, now);
      UnrewrittenAnswer(env, g, s, pkt, src, dns, now, t, q,
                        L2Answer(env, g, s.cache, s.cfg, pkt, src, dns, now).value);
    }
  }

  /** In every reachable state with no configuration change half applied: where the hook
      answers, the socket path sends the same bytes to the same client exactly if no rewrite
      rule catches the name as strlen measures it, and the answer comes from the cache or the
      client is not bypassed. A rewritten name is answered alike only where the cached reply
      happens to be the rewrite's own. */
  lemma PathsAgreeExactly(env: Env, g: Gates, s: State, pkt: seq<byte>, src: nat, dns: nat, now: nat, t: nat)
    requires Generations.Inv(env, s, true) && Generations.Settled(s.cfg) && s.task.Waiting?
    requires AllSized(s.cache) && |s.cache| == ENTRIES && RulesFit(g.rules)
    requires Parsed(pkt).Some? && dns <= 82
    requires |pkt| >= 12 && L2Answer(env, g, s.cache, s.cfg, pkt, src, dns, now).Some?
    ensures var a, b := L2Answer(env, g, s.cache, s.cfg, pkt, src, dns, now), SocketAnswer(env, g, s, pkt, src, now, t);
            var hit := CacheAnswers(env, s, pkt, dns, now);
            a == b <==> if Rewritten(g, pkt) then hit && a.value == RewriteReply(g, pkt) else hit || !Bypassed(g, src)
  {
    hide *;
    ParsedIsQuestion(pkt);
    SocketWhereHookAnswers(env, g, s, pkt, src, dns, now, t);
    if Rewritten(g, pkt) && !CacheAnswers(env, s, pkt, dns, now) {
      UncachedIsBlock(env, g, s, pkt, src, dns, now);
      BlockIsNoRewrite(g, pkt);
    }
  }

  lemma UncachedIsBlock(env: Env, g: Gates, s: State, pkt: seq<byte>, src: nat, dns: nat, now: nat)
    requires |s.cache| == ENTRIES && Parsed(pkt).Some? && Question(pkt, 12) == Parsed(pkt) && dns <= 82 && |pkt| >= 12
    requires !CacheAnswers(env, s, pkt, dns, now) && L2Answer(env, g, s.cache, s.cfg, pkt, src, dns, now).Some?
    ensures var qend := Parsed(pkt).value.1;
            L2Answer(env, g, s.cache, s.cfg, pkt, src, dns, now) == Some(Blocked(pkt[..qend], Get16(pkt, qend - 4)))
  {
    hide L2Get, Blocked, Stamp, Question, ProvenBlock, FirstRule, Parsed;
  }

  /** What AnsweredAs says of the message itself. */
  lemma AnswerFrom(env: Env, g: Gates, s: State, pkt: seq<byte>, dns: nat, now: nat, q: Query, payload: seq<byte>)
    requires Parsed(pkt).Some? && WellFormed(q) && q.pkt == pkt && Parsed(pkt) == Some((q.name, q.qend))
    requires q.qtype == Get16(pkt, q.qend - 4) && AnsweredAs(env, g, s, q, dns, now, payload)
    ensures CacheAnswers(env, s, pkt, dns, now) <==>
              L2Get(s.cache, CacheKey(env, q), TX_FRAME - dns, now, s.cfg.gen).Some?
    ensures !CacheAnswers(env, s, pkt, dns, now) ==>
              17 <= q.qend && payload == Blocked(pkt[..q.qend], q.qtype)
  {
    hide L2Get, Blocked, Stamp, Question, Decide;
  }

  lemma BlockIsNoRewrite(g: Gates, pkt: seq<byte>)
    requires RulesFit(g.rules) && Parsed(pkt).Some? && Rewritten(g, pkt)
    ensures var (name, qend) := Parsed(pkt).value;
            Get16(pkt, qend - 4) == 1 && Blocked(pkt[..qend], 1) != RewriteReply(g, pkt)
  {
    var (name, qend) := Parsed(pkt).value;
    BlockedIsNotRewritten(pkt[..qend], DnsRewrite(g, name));
    hide Blocked, Answered, Question, DnsRewrite;
  }

  /** A name no rewrite rule catches: dns_task replays the hit, blocks alike, or forwards
      for a bypassed client. */
  lemma UnrewrittenAnswer(env: Env, g: Gates, s: State, pkt: seq<byte>, src: nat, dns: nat, now: nat, t: nat, q: Query,
                          payload: seq<byte>)
    requires Generations.Inv(env, s, true) && Generations.Settled(s.cfg) && WellPlaced(s.cache)
    requires TX_FRAME == 600 && RESP_MAX == 512
    requires s.task.Waiting? && AllSized(s.cache) && |s.cache| == ENTRIES && RulesFit(g.rules)
    requires Acl(g, src) && !g.paused(src) && Parsed(pkt).Some?
    requires TakenAs(g, s, pkt, src, q) && WellFormed(q) && AnsweredAs(env, g, s, q, dns, now, payload)
    requires TakeUdp(s, pkt, src, Bypassed(g, src), DnsRewrite(g, Parsed(pkt).value.0)) == Taken(s, q)
    ensures var hit := L2Get(s.cache, CacheKey(env, q), TX_FRAME - dns, now, s.cfg.gen).Some?;
            SocketAnswer(env, g, s, pkt, src, now, t) == if hit || !Bypassed(g, src) then Some(payload) else None
  {
    hide L2Get, Blocked, Stamp, Question, Decide, SocketAnswer, TakenAs, DnsRewrite, Bypassed, Generations.Inv,
      Generations.Settled, Acl, WellPlaced, AllSized, Parsed, CacheKey, WellFormed, TakeUdp, Taken;
    if L2Get(s.cache, CacheKey(env, q), TX_FRAME - dns, now, s.cfg.gen).Some? {
      HitAgrees(env, g, s, pkt, src, now, t, q, TX_FRAME - dns);
    } else if !Bypassed(g, src) {
      BlockAgrees(env, g, s, pkt, src, now, t, q, TX_FRAME - dns);
    } else {
      BypassedForwards(env, g, s, pkt, src, now, t, q, TX_FRAME - dns);
    }
  }

  /** So, with the bypass lock free and no zero byte in the name: whatever the hook answers a
      message with, the socket path would have sent, byte for byte, to the same client. */
  lemma TwoPathsAgree(env: Env, g: Gates, s: State, pkt: seq<byte>, src: nat, dns: nat, now: nat, t: nat)
    requires Generations.Inv(env, s, true) && Generations.Settled(s.cfg) && s.task.Waiting? && !g.bypassBusy
    requires AllSized(s.cache) && |s.cache| == ENTRIES && RulesFit(g.rules)
    requires Parsed(pkt).Some? && dns <= 82 && 0 !in Parsed(pkt).value.0
    requires |pkt| >= 12 && L2Answer(env, g, s.cache, s.cfg, pkt, src, dns, now).Some?
    ensures SocketAnswer(env, g, s, pkt, src, now, t) == L2Answer(env, g, s.cache, s.cfg, pkt, src, dns, now)
  {
    hide *;
    ParsedIsQuestion(pkt);
    ByLockFree(g, src);
    AnsweredMeans(env, g, s.cache, s.cfg, pkt, src, dns, now);
    NotRewritten(g, pkt);
    PathsAgreeExactly(env, g, s, pkt, src, dns, now, t);
  }

  /** The same over whole runs: in any state a run can reach from boot, once no
      configuration change is half applied, the two paths agree. */
  lemma PathsAgreeInEveryRun(env: Env, g: Gates, es: seq<Entry>, cfg: Config, steps: seq<Step>, pkt: seq<byte>,
                             src: nat, dns: nat, now: nat, t: nat)
    requires Generations.Unstamped(es) && Generations.ConfigOk(cfg) && Generations.RestoredAllowed(env, es)
    requires Generations.Steps(env, Generations.Start(es, cfg), steps)
    requires Generations.NoCollision(env, Generations.Start(es, cfg), steps)
    requires Generations.Settled(Generations.After(env, Generations.Start(es, cfg), steps).cfg)
    requires Generations.After(env, Generations.Start(es, cfg), steps).task.Waiting?
    requires !g.bypassBusy && RulesFit(g.rules)
    requires Parsed(pkt).Some? && dns <= 82 && 0 !in Parsed(pkt).value.0 && |pkt| >= 12
    ensures var s := Generations.After(env, Generations.Start(es, cfg), steps);
            |s.cache| == ENTRIES && AllSized(s.cache) &&
            (L2Answer(env, g, s.cache, s.cfg, pkt, src, dns, now).Some? ==>
               SocketAnswer(env, g, s, pkt, src, now, t) == L2Answer(env, g, s.cache, s.cfg, pkt, src, dns, now))
  {
    var s0 := Generations.Start(es, cfg);
    Generations.StartHolds(env, es, cfg, true);
    Generations.RunKeeps(env, s0, steps, true);
    var s := Generations.After(env, s0, steps);
    PlacedSized(s.cache, 0);
    hide *;
    if L2Answer(env, g, s.cache, s.cfg, pkt, src, dns, now).Some? {
      TwoPathsAgree(env, g, s, pkt, src, dns, now, t);
    }
  }

  // ---------- Where the hypotheses matter

  lemma RewriteAnswers(env: Env, g: Gates, s: State, pkt: seq<byte>, src: nat, now: nat, t: nat)
    requires s.task.Waiting? && AllSized(s.cache) && RulesFit(g.rules) && Parsed(pkt).Some?
    requires Acl(g, src) && !g.paused(src) && Rewritten(g, pkt)
    ensures SocketAnswer(env, g, s, pkt, src, now, t) == Some(RewriteReply(g, pkt))
  {
    var (name, qend) := Parsed(pkt).value;
    var rw, off := DnsRewrite(g, name), Bypassed(g, src);
    TakenQuery(env, s, pkt, src, off, rw);
    var q := QueryOf(pkt, false, src, 0, off, rw, s.cfg.gen, |s.asks|);
    var s1 := TakeUdp(s, pkt, src, off, rw);
    WireLenAgreesWithQuestion(pkt, 12);
    var p := Answered(pkt[..qend], 1, REWRITE_TTL, Address(rw));
    AnswerIsSent(s1.(task := Judging(q)), q, p);
    hide Question, WireLen, DnsRewrite, Bypassed, FindFresh, FindStale, Answered, QueryOf, TakeUdp, RequesterOf, Answer;
    assert LookFresh(env, s1, now) == s1.(task := Staling(q));
    assert LookStale(env, s1.(task := Staling(q)), now, t) == s1.(task := Judging(q));
    assert RewrittenWithin(pkt[..qend], rw, TX_CAP) == Some(p);
  }

  /** A proven block of an A query the gates let through, with nothing in the cache. */
  lemma HookBlocks(env: Env, g: Gates, s: State, pkt: seq<byte>, src: nat, dns: nat, now: nat)
    requires |s.cache| == ENTRIES && |pkt| >= 12 && dns <= 82 && Question(pkt, 12).Some?
    requires AclNb(g, src) && !g.paused(src) && !BypassNb(g, src)
    requires var (name, qend) := Question(pkt, 12).value;
             Get16(pkt, qend - 4) == 1 && Get16(pkt, qend - 2) == 1 && ProvenBlock(env, g, s.cfg.version, name) &&
             L2Get(s.cache, Key(env.hash(name), 1, pkt[12..qend - 4]), TX_FRAME - dns, now, s.cfg.gen).None? &&
             (g.rules == [] || (!g.rulesBusy && FirstRule(g.rules, name).None?))
    ensures var qend := Question(pkt, 12).value.1;
            12 <= qend <= 273 &&
            L2Answer(env, g, s.cache, s.cfg, pkt, src, dns, now) == Some(Blocked(pkt[..qend], 1))
  {
    WireLenAgreesWithQuestion(pkt, 12);
    hide Question, WireLen, L2Get, ProvenBlock, FirstRule, WithHeader, AnswerRr, RespFlags;
    var qend := Question(pkt, 12).value.1;
    assert |Blocked(pkt[..qend], 1)| == qend + 16;
  }

  /** With a zero byte in the name the two rewrite lookups can differ, and then so do the
      paths: the hook blocks what dns_task rewrites. */
  lemma ZeroByteSplitsPaths(env: Env, g: Gates, s: State, pkt: seq<byte>, src: nat, dns: nat, now: nat, t: nat)
    requires Generations.Inv(env, s, true) && Generations.Settled(s.cfg) && s.task.Waiting?
    requires AllSized(s.cache) && |s.cache| == ENTRIES && RulesFit(g.rules) && Parsed(pkt).Some?
    requires AclNb(g, src) && !g.paused(src) && !BypassNb(g, src) && !g.rulesBusy && |pkt| >= 12 && dns <= 82
    requires var (name, qend) := Parsed(pkt).value;
             Get16(pkt, qend - 4) == 1 && Get16(pkt, qend - 2) == 1 && ProvenBlock(env, g, s.cfg.version, name) &&
             !CacheAnswers(env, s, pkt, dns, now) && FirstRule(g.rules, name).None? && DnsRewrite(g, name) != 0
    ensures var a, b := L2Answer(env, g, s.cache, s.cfg, pkt, src, dns, now), SocketAnswer(env, g, s, pkt, src, now, t);
            a.Some? && b == Some(RewriteReply(g, pkt)) && a != b
  {
    ParsedIsQuestion(pkt);
    assert Rewritten(g, pkt) by {
      hide Question, DnsRewrite;
    }
    Uncached(env, s, pkt, dns, now);
    hide *;
    ByLockFree(g, src);
    HookBlocks(env, g, s, pkt, src, dns, now);
    SocketWhereHookAnswers(env, g, s, pkt, src, dns, now, t);
    BlockIsNoRewrite(g, pkt);
  }

  lemma Uncached(env: Env, s: State, pkt: seq<byte>, dns: nat, now: nat)
    requires |s.cache| == ENTRIES && Parsed(pkt).Some? && dns <= 82 && !CacheAnswers(env, s, pkt, dns, now)
    ensures var (name, qend) := Parsed(pkt).value;
            var k := Key(env.hash(name), Get16(pkt, qend - 4), pkt[12..qend - 4]);
            L2Get(s.cache, k, TX_FRAME - dns, now, s.cfg.gen).None?
  {
    hide L2Get, Question;
  }

  lemma ByLockFree(g: Gates, src: nat)
    ensures AclNb(g, src) ==> Acl(g, src)
    ensures Bypassed(g, src) ==> src in g.bypass
    ensures BypassNb(g, src) <==> src in g.bypass && !g.bypassBusy
  {
  }

  /** The two answers differ in their TTL, if in nothing else. */
  lemma BlockedIsNotRewritten(q: seq<byte>, ip: nat)
    requires |q| >= 12 && ip <= NO_TTL
    ensures Blocked(q, 1) != Answered(q, 1, REWRITE_TTL, Address(ip))
  {
    var a, b := Blocked(q, 1), Answered(q, 1, REWRITE_TTL, Address(ip));
    hide WithHeader, RespFlags;
    assert a[|q| + 8] == 0 && b[|q| + 8] == 1;
  }

  /** The rule "a" catches the name "a\0b.c" as strlen measures it, and not as it is. */
  lemma ZeroByteHidesNameFromStrlen()
    ensures var rules, name := [Rule([97], 1)], [97, 0, 98, DOT, 99];
            FirstRule(rules, name).None? && RulesFit(rules) && RewriteLookup(rules, name) == 1
  {
    var rules, name := [Rule([97], 1)], [97, 0, 98, DOT, 99];
    assert name[1..][0] == 0;
    assert StrLen(name) == 1;
    assert CString(name) == [97];
  }

  /** With the bypass lock busy the hook cannot see that a client is bypassed, and sinkholes
      what dns_task forwards for it. */
  lemma BusyBypassSplitsPaths(env: Env, g: Gates, s: State, pkt: seq<byte>, src: nat, dns: nat, now: nat, t: nat)
    requires Generations.Inv(env, s, true) && Generations.Settled(s.cfg) && s.task.Waiting?
    requires AllSized(s.cache) && |s.cache| == ENTRIES && Parsed(pkt).Some? && |pkt| >= 12 && dns <= 82
    requires AclNb(g, src) && !g.paused(src) && Bypassed(g, src) && g.bypassBusy && g.rules == []
    requires var (name, qend) := Parsed(pkt).value;
             Get16(pkt, qend - 4) == 1 && Get16(pkt, qend - 2) == 1 && ProvenBlock(env, g, s.cfg.version, name) &&
             !CacheAnswers(env, s, pkt, dns, now)
    ensures L2Answer(env, g, s.cache, s.cfg, pkt, src, dns, now).Some?
    ensures SocketAnswer(env, g, s, pkt, src, now, t).None?
  {
    ParsedIsQuestion(pkt);
    assert !Rewritten(g, pkt) && RulesFit(g.rules) by {
      hide Question;
    }
    Uncached(env, s, pkt, dns, now);
    hide *;
    ByLockFree(g, src);
    HookBlocks(env, g, s, pkt, src, dns, now);
    SocketWhereHookAnswers(env, g, s, pkt, src, dns, now, t);
  }

  lemma BypassedForwards(env: Env, g: Gates, s: State, pkt: seq<byte>, src: nat, now: nat, t: nat, q: Query, cap: nat)
    requires Generations.Inv(env, s, true) && Generations.Settled(s.cfg) && s.task.Waiting? && WellPlaced(s.cache)
    requires AllSized(s.cache) && |s.cache| == ENTRIES && Parsed(pkt).Some? && cap >= 512 && RulesFit(g.rules)
    requires Acl(g, src) && !g.paused(src) && Bypassed(g, src) && TakenAs(g, s, pkt, src, q) && WellFormed(q)
    requires TakeUdp(s, pkt, src, true, DnsRewrite(g, Parsed(pkt).value.0)) == Taken(s, q)
    requires Decide(env, s.cfg.version, q.name).Block? && L2Get(s.cache, CacheKey(env, q), cap, now, s.cfg.gen).None?
    ensures SocketAnswer(env, g, s, pkt, src, now, t).None?
  {
    TakenAsIs(g, s, pkt, src, q);
    NothingStale(env, s, q, now);
    FreshHitIsBlock(env, s, CacheKey(env, q), cap, now);
    OffForwards(env, Taken(s, q), now, t, g.tablesBusy);
    hide FindFresh, FindStale, L2Get, Decide, CacheKey, Generations.Inv, LookFresh, LookStale, Judge, QueryOf,
      WellPlaced, TakeUdp, Parsed, DnsRewrite, Bypassed, Generations.QueryOk, TakenAs;
  }

  /** A bypassed client's query that finds neither an allowed hit nor a stale one goes
      upstream. */
  lemma OffForwards(env: Env, s1: State, now: nat, t: nat, busy: bool)
    requires s1.task.Looking? && WellFormed(s1.task.q) && AllSized(s1.cache) && |s1.cache| == ENTRIES
    requires var q := s1.task.q;
             q.off && q.rw == 0 && q.clsIn && !q.tcp && FindStale(s1.cache, CacheKey(env, q), now, s1.cfg.gen).None? &&
             var f := FindFresh(s1.cache, CacheKey(env, q), now, s1.cfg.gen);
             f.Some? ==> f.value < |s1.cache| && s1.cache[f.value].blocked
    ensures var q, s2 := s1.task.q, LookFresh(env, s1, now);
            s2 == s1.(task := Forwarding(q, true, false, s1.cfg.version)) ||
            (s2 == s1.(task := Staling(q)) && LookStale(env, s2, now, t) == s1.(task := Judging(q)) &&
             Judge(env, s1.(task := Judging(q)), now, busy).task.Forwarding?)
  {
    hide FindFresh, FindStale, CacheKey, StoreBlocked, Socket;
  }
}
