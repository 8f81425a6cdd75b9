/** The L2 hook's cache read while dns_task writes: the seqlock of main/dns_server.cpp under
    the two verdict paths. Whenever the read ends, even in the middle of a store, what the
    hook then answers is what the socket path would have sent. */
module Interleaved {
  import opened Bytes
  import opened Domain
  import opened Replies
  import opened Ttl
  import opened Cache
  import opened CacheMap
  import opened Upstream
  import opened Server
  import opened TwoPaths
  import Generations
  import Seqlock

  // ---------- dns_task writes the cache only by stores

  /** One stretch of dns_task: a store that is not refused, a touched refresh gate, or nothing. */
  ghost predicate OneStore(a: seq<Entry>, b: seq<Entry>)
    requires AllSized(a)
  {
    a == b || exists op: Op :: (op.Touch? || Meant(op).Some?) && b == Apply(a, op)
  }

  lemma StoreIsOne(a: seq<Entry>, op: Op)
    requires AllSized(a)
    ensures OneStore(a, Apply(a, op))
  {
    hide WireLen, Victim, ReplyKey;
    if !op.Touch? && Meant(op).None? {
      assert Apply(a, op) == a;
    }
  }

  lemma StaleStores(env: Env, s: State, now: nat, t: nat)
    requires s.task.Staling? && WellFormed(s.task.q) && AllSized(s.cache)
    ensures OneStore(s.cache, LookStale(env, s, now, t).cache)
  {
    var q := s.task.q;
    var hit := FindStale(s.cache, CacheKey(env, q), now, s.cfg.gen);
    Generations.StaleOutcome(env, s, now, t);
    if hit.Some? {
      Generations.StaleIsStale(s.cache, CacheKey(env, q), now, s.cfg.gen);
      StoreIsOne(s.cache, Touch(hit.value, now + TIMEOUT));
      StoreIsOne(s.cache, Touch(hit.value, 0));
    }
    hide LookStale, FindStale, CacheKey, OneStore, WellFormed;
  }

  lemma JudgeStores(env: Env, s: State, now: nat, busy: bool)
    requires s.task.Judging? && WellFormed(s.task.q) && AllSized(s.cache)
    ensures OneStore(s.cache, Judge(env, s, now, busy).cache)
  {
    var q := s.task.q;
    StoreIsOne(s.cache, PutBlocked(CacheKey(env, q), BLOCKED_TTL, now, q.gen, s.cfg.version));
    hide StoreBlocked, Decide, CacheKey, RewrittenWithin, BlockedAnswer, Meant, WellFormed;
  }

  lemma LearnStores(es: seq<Entry>, ue: Slot, p: seq<byte>, qend: nat, cloaked: bool, now: nat)
    requires AllSized(es) && |p| >= 12 && 16 <= qend <= |p|
    ensures OneStore(es, Learn(es, ue, p, qend, cloaked, now))
  {
    Generations.LearnCases(es, ue, p, qend, cloaked, now);
    StoreIsOne(es, PutBlocked(Key(ue.qhash, ue.qtype, p[12..qend - 4]), BLOCKED_TTL, now, ue.gen, ue.auth));
    StoreIsOne(es, PutReply(ue.qhash, ue.qtype, p, RespMinTtl(p, DEFAULT_TTL, TTL_MIN, TTL_MAX), now, ue.gen,
                           ue.auth));
    hide OneStore, Learn, Meant, HasTc;
  }

  lemma ReplyStores(env: Env, s: State, pkt: seq<byte>, now: nat, busy: seq<byte> -> bool)
    requires Sound(s)
    ensures OneStore(s.cache, OnReply(env, s, pkt, now, busy).cache)
  {
    hide OneStore, Learn, FanOut, Outgoing, Question, FindLive, Matches;
    StoreNothing(s.cache);
    if |pkt| >= 12 {
      var i := FindLive(s.slots, Get16(pkt, 0));
      if i < |s.slots| && Matches(env, s.slots[i], pkt) {
        Generations.MatchesParses(env, s.slots[i], pkt);
        var ue := s.slots[i];
        var qend := Question(pkt, 12).value.1;
        var listed := Listed(env, s.cfg.version, busy);
        var (p, cloaked) := Outgoing(ue, pkt, listed);
        OutgoingLength(ue, pkt, listed);
        LearnStores(s.cache, ue, Stamp(p, LastId(ue)), qend, cloaked, now);
      }
    }
  }

  lemma StoreNothing(es: seq<Entry>)
    requires AllSized(es)
    ensures OneStore(es, es)
  {
  }

  lemma StepStores(env: Env, s: State, step: Step)
    requires Sound(s) && Possible(s, step)
    ensures OneStore(s.cache, Next(env, s, step).cache)
  {
    hide OneStore, OnReply, LookStale, Judge, LookFresh, Forward, TakeUdp, TakeTcp, Acceptable, WellFormed;
    StoreNothing(s.cache);
    match step
    case UdpQuery(pkt, addr, off, rw) => TakesNothing(s, pkt, addr, off, rw);
    case TcpQuery(pkt, off, rw) => TakesNothing(s, pkt, 0, off, rw);
    case FreshStep(now) => LadderKeepsQuery(env, s, now);
    case StaleStep(now, t) => StaleStores(env, s, now, t);
    case JudgeStep(now, busy) => JudgeStores(env, s, now, busy);
    case ForwardStep(now, t) => ForwardsNothing(env, s, now, t);
    case Reply(pkt, now, busyFor) => ReplyStores(env, s, pkt, now, busyFor);
    case EvictStep(now) =>
    case Accept =>
    case Hangup =>
    case Mutate =>
    case Bump(done) =>
  }

  lemma TakesNothing(s: State, pkt: seq<byte>, addr: nat, off: bool, rw: nat)
    requires s.task.Waiting? && rw <= NO_TTL
    ensures TakeUdp(s, pkt, addr, off, rw).cache == s.cache
    ensures s.tcp.open && !s.tcp.awaiting ==> TakeTcp(s, pkt, off, rw).cache == s.cache
  {
    hide Question;
  }

  lemma ForwardsNothing(env: Env, s: State, now: nat, t: nat)
    requires s.task.Forwarding? && WellFormed(s.task.q)
    ensures Forward(env, s, now, t).cache == s.cache
  {
    hide FindJoinable, FirstFree, ServFail, Join, ForwardSlot;
  }

  /** The operations the writer of module Seqlock can perform. */
  ghost predicate Performable(ops: seq<Op>) {
    forall i :: 0 <= i < |ops| ==> ops[i].Touch? || Meant(ops[i]).Some?
  }

  lemma {:induction false} RunFront(es: seq<Entry>, op: Op, ops: seq<Op>)
    requires WellPlaced(es) && WellPlaced(Apply(es, op))
    ensures Run(es, [op] + ops) == Run(Apply(es, op), ops)
    decreases |ops|
  {
    PlacedSized(es, 0);
    hide *;
    if ops == [] {
      assert [op] + ops == [] + [op];
      RunNothing(es);
      RunNothing(Apply(es, op));
      Seqlock.RunOnce(es, [], op);
    } else {
      var m := |ops| - 1;
      RunFront(es, op, ops[..m]);
      assert ops == ops[..m] + [ops[m]];
      assert [op] + ops == ([op] + ops[..m]) + [ops[m]];
      Seqlock.RunOnce(es, [op] + ops[..m], ops[m]);
      Seqlock.RunOnce(Apply(es, op), ops[..m], ops[m]);
    }
  }

  lemma RunNothing(es: seq<Entry>)
    requires WellPlaced(es)
    ensures Run(es, []) == es
  {
  }

  /** A store, or none, in front of a sequence of them. */
  lemma StoreFirst(a: seq<Entry>, b: seq<Entry>, ops: seq<Op>) returns (all: seq<Op>)
    requires WellPlaced(a) && WellPlaced(b) && AllSized(a) && OneStore(a, b) && Performable(ops)
    ensures Performable(all) && Run(a, all) == Run(b, ops)
  {
    hide WellPlaced, Apply, Meant, Run;
    all := ops;
    if a != b {
      var op: Op :| (op.Touch? || Meant(op).Some?) && b == Apply(a, op);
      RunFront(a, op, ops);
      all := [op] + ops;
    }
  }

  lemma PlacedIn(env: Env, s: State)
    requires Generations.Inv(env, s, false)
    ensures WellPlaced(s.cache) && AllSized(s.cache)
  {
    assert WellPlaced(s.cache);
    PlacedSized(s.cache, 0);
  }

  /** Over every run of dns_task the cache is what a sequence of stores and touched gates
      makes of it: what the writer of module Seqlock performs field by field. */
  lemma {:induction false} RunIsStores(env: Env, s: State, steps: seq<Step>) returns (ops: seq<Op>)
    requires Generations.Inv(env, s, false) && Generations.Steps(env, s, steps)
    ensures Performable(ops) && WellPlaced(s.cache) && Run(s.cache, ops) == Generations.After(env, s, steps).cache
    decreases |steps|
  {
    PlacedIn(env, s);
    RunNothing(s.cache);
    ops := [];
    hide Generations.Inv, Next, Possible, Sound, Run, OneStore, WellPlaced;
    if steps != [] {
      StepStores(env, s, steps[0]);
      Generations.StepKeeps(env, s, steps[0], false);
      var s1 := Next(env, s, steps[0]);
      PlacedIn(env, s1);
      ops := RunIsStores(env, s1, steps[1..]);
      ops := StoreFirst(s.cache, s1.cache, ops);
    }
  }

  // ---------- What the read comes back with

  /** With every change settled and the name blocked, the cache holds nothing the fast path
      could serve for it. */
  lemma BlockedIsNotCached(env: Env, s: State, q: Query, cap: nat, now: nat)
    requires Generations.Inv(env, s, true) && Generations.Settled(s.cfg) && Generations.QueryOk(s.cfg, q)
    requires Decide(env, s.cfg.version, q.name).Block? && |s.cache| == ENTRIES && WellPlaced(s.cache)
    ensures L2Get(s.cache, CacheKey(env, q), cap, now, s.cfg.gen).None?
  {
    var k := CacheKey(env, q);
    L2GetIsFreshAllowedHit(s.cache, k, cap, now, s.cfg.gen);
    var f := FindFresh(s.cache, k, now, s.cfg.gen);
    if f.Some? {
      Generations.FreshIsFresh(s.cache, k, now, s.cfg.gen);
      Generations.SettledHitIsAllowedNow(env, s, f.value);
      EntryOfCache(env, s, f.value);
      hide Generations.Inv, FindFresh, L2Get, Decide, Question, CacheKey, Owns, Generations.EntryOk, WellPlaced;
      if !s.cache[f.value].blocked {
        Generations.FoundEntryNames(env, s.cfg, q, s.cache[f.value]);
      }
    }
  }

  lemma BlockMeans(env: Env, g: Gates, version: nat, pkt: seq<byte>, src: nat, dns: nat)
    requires |pkt| >= 12 && dns <= 82 && L2AnswerWith(env, g, version, pkt, src, dns, None).Some?
    ensures Question(pkt, 12).Some? && Decide(env, version, Question(pkt, 12).value.0).Block?
  {
    hide Question, Decide, Blocked, FirstRule;
  }

  /** A query for the message, as dns_task would take it. */
  lemma QueryFor(env: Env, s: State, pkt: seq<byte>) returns (q: Query)
    requires Parsed(pkt).Some? && Question(pkt, 12) == Parsed(pkt)
    ensures WellFormed(q) && Generations.QueryOk(s.cfg, q) && q.name == Question(pkt, 12).value.0
    ensures CacheKey(env, q) == HookKey(env, pkt)
  {
    TakenQuery(env, s, pkt, 0, false, 0);
    q := QueryOf(pkt, false, 0, 0, false, 0, s.cfg.gen, |s.asks|);
    hide Question, QueryOf, TakeUdp, WellFormed, CacheKey;
  }

  /** A message the hook blocks is not answered from the settled cache either. */
  lemma BlockStands(env: Env, g: Gates, s: State, pkt: seq<byte>, src: nat, dns: nat, now: nat)
    requires Generations.Inv(env, s, true) && Generations.Settled(s.cfg) && |s.cache| == ENTRIES && WellPlaced(s.cache)
    requires Parsed(pkt).Some? && |pkt| >= 12 && dns <= 82 && Question(pkt, 12) == Parsed(pkt)
    requires L2AnswerWith(env, g, s.cfg.version, pkt, src, dns, None).Some?
    ensures L2Answer(env, g, s.cache, s.cfg, pkt, src, dns, now) ==
              L2AnswerWith(env, g, s.cfg.version, pkt, src, dns, None)
  {
    assert TX_FRAME == 600;
    hide *;
    BlockMeans(env, g, s.cfg.version, pkt, src, dns);
    var q := QueryFor(env, s, pkt);
    BlockedIsNotCached(env, s, q, TX_FRAME - dns, now);
    ReadIsSettled(env, g, s, pkt, src, dns, now, None);
  }

  lemma ReadableIs(y: Seqlock.Sys)
    requires Seqlock.Legal(y)
    ensures AllSized(y.mem) && Seqlock.InBounds(y.r)
  {
  }

  /** Whatever dns_task is in the middle of when the hook's cache read returns: the read's
      reply, or without one the proven block, is what the socket path sends for the message
      in every settled state of dns_task; for a reply, in the state whose cache the stores so
      far make, under the generation the read sampled. */
  lemma InterleavedPathsAgree(env: Env, g: Gates, s: State, init: seq<Entry>, gen: nat, steps: seq<Seqlock.Step>,
                              pkt: seq<byte>, src: nat, dns: nat, now: nat, t: nat)
    requires WellPlaced(init) && Seqlock.Legal(Seqlock.Start(init, gen)) &&
             Seqlock.Steps(Seqlock.Start(init, gen), steps)
    requires Generations.Inv(env, s, true) && Generations.Settled(s.cfg) && s.task.Waiting? && !g.bypassBusy
    requires AllSized(s.cache) && |s.cache| == ENTRIES && WellPlaced(s.cache) && RulesFit(g.rules)
    requires Parsed(pkt).Some? && dns <= 82 && 0 !in Parsed(pkt).value.0 && |pkt| >= 12
    requires var y := Seqlock.After(Seqlock.Start(init, gen), steps);
             !y.r.pc.Returned? && Question(pkt, 12).Some? &&
             y.r.q == Seqlock.Query(HookKey(env, pkt), TX_FRAME - dns, now)
    ensures var y := Seqlock.After(Seqlock.Start(init, gen), steps);
            var n := Seqlock.Read(y.r, y.mem, y.sq, y.gen);
            n.pc.Returned? && (n.pc.reply.Some? ==> s.cache == Run(init, y.ops) && s.cfg.gen == y.r.gen) ==>
              var a := L2AnswerWith(env, g, s.cfg.version, pkt, src, dns, n.pc.reply);
              a.Some? ==> SocketAnswer(env, g, s, pkt, src, now, t) == a
  {
    hide *;
    var y := Seqlock.After(Seqlock.Start(init, gen), steps);
    ReadableIs(y);
    var n := Seqlock.Read(y.r, y.mem, y.sq, y.gen);
    ParsedIsQuestion(pkt);
    Seqlock.PositiveReadIsCommitted(init, gen, steps);
    if n.pc.Returned? && (n.pc.reply.Some? ==> s.cache == Run(init, y.ops) && s.cfg.gen == y.r.gen) &&
       L2AnswerWith(env, g, s.cfg.version, pkt, src, dns, n.pc.reply).Some? {
      if n.pc.reply.Some? {
        ReadIsSettled(env, g, s, pkt, src, dns, now, n.pc.reply);
      } else {
        BlockStands(env, g, s, pkt, src, dns, now);
      }
      TwoPathsAgree(env, g, s, pkt, src, dns, now, t);
    }
  }

  lemma ReadIsSettled(env: Env, g: Gates, s: State, pkt: seq<byte>, src: nat, dns: nat, now: nat,
                      hit: Option<seq<byte>>)
    requires |s.cache| == ENTRIES && Question(pkt, 12).Some? && |pkt| >= 12 && dns <= 82
    requires hit == L2Get(s.cache, HookKey(env, pkt), TX_FRAME - dns, now, s.cfg.gen)
    ensures L2Answer(env, g, s.cache, s.cfg, pkt, src, dns, now) ==
              L2AnswerWith(env, g, s.cfg.version, pkt, src, dns, hit)
  {
    hide L2Get, Question, L2AnswerWith, HookKey;
  }

  /** And over whole runs of both: dns_task from boot on any input, the read against any
      interleaving of the stores that made its cache. */
  lemma InterleavedPathsAgreeInEveryRun(env: Env, g: Gates, es: seq<Entry>, cfg: Config, served: seq<Step>,
                                        steps: seq<Seqlock.Step>, pkt: seq<byte>, src: nat, dns: nat, now: nat, t: nat)
    requires Generations.Unstamped(es) && Generations.ConfigOk(cfg) && Generations.RestoredAllowed(env, es)
    requires Generations.Steps(env, Generations.Start(es, cfg), served)
    requires Generations.NoCollision(env, Generations.Start(es, cfg), served)
    requires Generations.Settled(Generations.After(env, Generations.Start(es, cfg), served).cfg)
    requires Generations.After(env, Generations.Start(es, cfg), served).task.Waiting?
    requires Seqlock.Legal(Seqlock.Start(es, cfg.gen)) && Seqlock.Steps(Seqlock.Start(es, cfg.gen), steps)
    requires !g.bypassBusy && RulesFit(g.rules)
    requires Parsed(pkt).Some? && dns <= 82 && 0 !in Parsed(pkt).value.0 && |pkt| >= 12
    requires var y := Seqlock.After(Seqlock.Start(es, cfg.gen), steps);
             !y.r.pc.Returned? && Question(pkt, 12).Some? &&
             y.r.q == Seqlock.Query(HookKey(env, pkt), TX_FRAME - dns, now)
    ensures var s := Generations.After(env, Generations.Start(es, cfg), served);
            var y := Seqlock.After(Seqlock.Start(es, cfg.gen), steps);
            var n := Seqlock.Read(y.r, y.mem, y.sq, y.gen);
            AllSized(s.cache) && WellPlaced(es) &&
            (n.pc.Returned? && (n.pc.reply.Some? ==> s.cache == Run(es, y.ops) && s.cfg.gen == y.r.gen) ==>
               var a := L2AnswerWith(env, g, s.cfg.version, pkt, src, dns, n.pc.reply);
               a.Some? ==> SocketAnswer(env, g, s, pkt, src, now, t) == a)
  {
    var s0 := Generations.Start(es, cfg);
    Generations.StartHolds(env, es, cfg, true);
    Generations.RunKeeps(env, s0, served, true);
    var s := Generations.After(env, s0, served);
    assert WellPlaced(s.cache) && WellPlaced(es);
    PlacedSized(s.cache, 0);
    hide *;
    InterleavedPathsAgree(env, g, s, es, cfg.gen, steps, pkt, src, dns, now, t);
  }
}
