/** Generation stamps over whole runs: no cache hit ever serves a verdict that is older
    than a configuration change whose bump has completed, although the store happens an
    upstream round trip after the verdict. */
module Generations {
  import opened Bytes
  import opened Domain
  import opened CaseScrub
  import opened ReplyScrub
  import opened Replies
  import opened Ttl
  import opened Cache
  import opened CacheMap
  import opened Upstream
  import opened Server

  // ---------- Stamps

  ghost predicate ConfigOk(c: Config) {
    |c.bumps| == c.version && forall m :: 0 <= m < |c.bumps| && c.bumps[m].Some? ==> 0 < c.bumps[m].value <= c.gen
  }

  /** A verdict under version v, stamped g: every later change that is complete moved the
      counter past g. */
  ghost predicate StampOk(c: Config, g: nat, v: nat) {
    g <= c.gen && v <= c.version &&
    forall m :: v <= m < |c.bumps| && c.bumps[m].Some? ==> g < c.bumps[m].value
  }

  /** c' comes from c by changes and bumps. */
  ghost predicate Later(c: Config, c': Config) {
    c.gen <= c'.gen && c.version <= c'.version && |c.bumps| <= |c'.bumps| &&
    (forall m :: 0 <= m < |c.bumps| && c.bumps[m].Some? ==> c'.bumps[m] == c.bumps[m]) &&
    (forall m :: 0 <= m < |c'.bumps| && c'.bumps[m].Some? && (m >= |c.bumps| || c.bumps[m].None?) ==>
                   c'.bumps[m].value > c.gen)
  }

  lemma StampKept(c: Config, c': Config, g: nat, v: nat)
    requires ConfigOk(c) && Later(c, c') && StampOk(c, g, v)
    ensures StampOk(c', g, v)
  {
  }

  lemma StampNow(c: Config, g: nat)
    requires ConfigOk(c) && g <= c.gen
    ensures StampOk(c, g, c.version)
  {
  }

  /** The heart of the argument: an entry stamped with the current generation was
      authorised after every completed change. */
  lemma CurrentStampIsUpToDate(c: Config, g: nat, v: nat, m: nat)
    requires ConfigOk(c) && StampOk(c, g, v) && g == c.gen
    ensures m < |c.bumps| && c.bumps[m].Some? ==> m < v
  {
  }

  // ---------- What the cache holds

  function Reply(e: Entry): seq<byte>
    requires Sized(e)
  {
    e.resp[..e.respLen]
  }

  /** An allowed entry holds a reply; and where no reply so far named a doubly colliding
      name (honest), it answers its own question and the verdict behind it was no block. */
  ghost predicate Authorised(env: Env, e: Entry, honest: bool)
    requires Sized(e)
  {
    12 < e.respLen &&
    (honest ==>
       Question(Reply(e), 12).Some? && WireLen(Reply(e), 12) == e.qnLen &&
       !Decide(env, e.auth, Question(Reply(e), 12).value.0).Block?)
  }

  ghost predicate EntryOk(env: Env, c: Config, e: Entry, honest: bool) {
    Sized(e) && (e.valid ==> StampOk(c, e.gen, e.auth) && (!e.blocked ==> Authorised(env, e, honest)))
  }

  ghost predicate CacheOk(env: Env, c: Config, es: seq<Entry>, honest: bool) {
    WellPlaced(es) && forall i :: 0 <= i < |es| ==> EntryOk(env, c, es[i], honest)
  }

  lemma CacheLater(env: Env, c: Config, c': Config, es: seq<Entry>, honest: bool)
    requires ConfigOk(c) && Later(c, c') && CacheOk(env, c, es, honest)
    ensures CacheOk(env, c', es, honest)
  {
    forall i | 0 <= i < |es| ensures EntryOk(env, c', es[i], honest) {
      if es[i].valid {
        StampKept(c, c', es[i].gen, es[i].auth);
      }
    }
  }

  lemma BlockedKept(env: Env, c: Config, es: seq<Entry>, k: Key, ttl: nat, now: nat, g: nat, v: nat,
                    honest: bool)
    requires CacheOk(env, c, es, honest) && StampOk(c, g, v)
    ensures CacheOk(env, c, StoreBlocked(es, k, ttl, now, g, v), honest)
  {
    ApplyKeepsPlaces(es, PutBlocked(k, ttl, now, g, v));
    hide WellPlaced, Victim, Authorised, StampOk, Overlay;
  }

  lemma ReplyKept(env: Env, c: Config, es: seq<Entry>, h: nat, t: nat, resp: seq<byte>, ttl: nat, now: nat, g: nat,
                  v: nat, honest: bool)
    requires CacheOk(env, c, es, honest) && StampOk(c, g, v)
    requires Storable(resp) ==>
               Question(resp, 12).Some? && (honest ==> !Decide(env, v, Question(resp, 12).value.0).Block?)
    ensures CacheOk(env, c, StoreReply(es, h, t, resp, ttl, now, g, v), honest)
  {
    ApplyKeepsPlaces(es, PutReply(h, t, resp, ttl, now, g, v));
    if Storable(resp) {
      var k := ReplyKey(h, t, resp);
      var i := Victim(es, k);
      PlacedSized(es, i);
      ReplyCarries(es[i], h, t, resp, ttl, now, g, v);
      var e := ReplyEntry(es[i], k, resp, ttl, now, g, v);
      assert Reply(e) == resp;
      assert e.qnLen == WireLen(resp, 12);
      hide WellPlaced, Victim, StampOk, Overlay, Question, WireLen, Decide;
      assert EntryOk(env, c, e, honest);
    }
  }

  lemma GateKept(env: Env, c: Config, es: seq<Entry>, i: nat, after: nat, honest: bool)
    requires CacheOk(env, c, es, honest) && i < |es|
    ensures CacheOk(env, c, es[i := es[i].(refreshAfter := after)], honest)
  {
    ApplyKeepsPlaces(es, Touch(i, after));
    hide WellPlaced, StampOk, Question, WireLen, Decide;
    assert EntryOk(env, c, es[i].(refreshAfter := after), honest);
  }

  // ---------- Flights and the query in hand

  ghost predicate SlotOk(env: Env, c: Config, s: Slot, honest: bool) {
    IdsFit(s) && |s.waiters| <= MAX_WAITERS &&
    (s.inUse && !s.noCache ==>
       StampOk(c, s.gen, s.auth) && (honest ==> !Decide(env, s.auth, s.asked).Block?))
  }

  ghost predicate SlotsOk(env: Env, c: Config, ss: seq<Slot>, honest: bool) {
    |ss| == SLOTS && forall i :: 0 <= i < |ss| ==> SlotOk(env, c, ss[i], honest)
  }

  ghost predicate QueryOk(c: Config, q: Query) {
    WellFormed(q) && Question(q.pkt, 12) == Some((q.name, q.qend)) && q.gen <= c.gen
  }

  ghost predicate TaskOk(env: Env, c: Config, t: Task) {
    match t
    case Waiting => true
    case Forwarding(q, noCache, _, auth) =>
      QueryOk(c, q) && StampOk(c, q.gen, auth) && (q.clsIn && !noCache ==> !Decide(env, auth, q.name).Block?)
    case _ => QueryOk(c, t.q)
  }

  /** What every run keeps. */
  ghost predicate Inv(env: Env, s: State, honest: bool) {
    ConfigOk(s.cfg) && CacheOk(env, s.cfg, s.cache, honest) && SlotsOk(env, s.cfg, s.slots, honest) &&
    TaskOk(env, s.cfg, s.task)
  }

  // ---------- Names on the wire

  /** Two questions whose wire names differ in case only name the same name. */
  lemma SameWireSameName(p: seq<byte>, q: seq<byte>)
    requires Question(p, 12).Some? && Question(q, 12).Some?
    requires WireEq(p[12..Question(p, 12).value.1 - 4], q[12..Question(q, 12).value.1 - 4])
    ensures Question(p, 12).value.0 == Question(q, 12).value.0
  {
    var end := Question(p, 12).value.1;
    var n := end - 4;
    var r := q[..12] + p[12..end];
    QuestionStands(p, r, 12);
    forall i | 0 <= i < n ensures Lower(r[i]) == Lower(q[i]) {
      if i >= 12 {
        assert LowerAll(p[12..n])[i - 12] == LowerAll(q[12..n])[i - 12];
      }
    }
    var r', q' := r[..n] + [0, 0, 0, 0], q[..n] + [0, 0, 0, 0];
    QuestionStands4(r, r', n);
    QuestionStands4(q, q', n);
    QuestionIgnoresCase(r', q', 12);
  }

  /** The four bytes of type and class do not matter to the name. */
  lemma QuestionStands4(p: seq<byte>, q: seq<byte>, n: nat)
    requires Question(p, 12).Some? && Question(p, 12).value.1 - 4 == n && |q| == n + 4
    requires forall i :: 12 <= i < n ==> q[i] == p[i]
    ensures Question(q, 12) == Question(p, 12)
  {
    WalkStands(p, q, 12, []);
    hide WalkLabels;
  }

  /** An entry found for a query holds a reply about the query's own name. */
  lemma FoundEntryNames(env: Env, c: Config, q: Query, e: Entry)
    requires QueryOk(c, q) && EntryOk(env, c, e, true) && e.valid && !e.blocked && Owns(e, CacheKey(env, q))
    ensures Question(Reply(e), 12).Some? && Question(Reply(e), 12).value.0 == q.name
  {
    var r := Reply(e);
    WireLenAgreesWithQuestion(r, 12);
    var end := Question(r, 12).value.1;
    SliceOfSlice(e.resp, 0, e.respLen, 12, end - 4);
    assert r[12..end - 4] == Name(e);
    hide Question, WireLen, Decide, StampOk;
    SameWireSameName(r, q.pkt);
  }

  lemma ScrubKeepsQuestion(pkt: seq<byte>)
    requires Question(pkt, 12).Some?
    ensures Question(Scrubbed(pkt), 12) == Question(pkt, 12)
  {
    hide *;
    ScrubStaysInNames(pkt);
  }

  lemma StampKeepsQuestion(p: seq<byte>, id: nat)
    requires Question(p, 12).Some? && id < 0x1_0000
    ensures Question(Stamp(p, id), 12) == Question(p, 12)
  {
    QuestionStands(p, Stamp(p, id), 12);
  }

  // ---------- The steps

  lemma TakeKeeps(env: Env, s: State, pkt: seq<byte>, tcp: bool, addr: nat, off: bool, rw: nat, honest: bool)
    requires Inv(env, s, honest) && rw <= NO_TTL
    ensures Inv(env, TakeUdp(s, pkt, addr, off, rw), honest)
    ensures Inv(env, TakeTcp(s, pkt, off, rw), honest)
  {
    hide CacheOk, SlotsOk, ConfigOk, Question;
  }

  lemma FreshKeeps(env: Env, s: State, now: nat, honest: bool)
    requires Inv(env, s, honest) && s.task.Looking? && WellFormed(s.task.q) && AllSized(s.cache)
    ensures Inv(env, LookFresh(env, s, now), honest)
  {
    var q := s.task.q;
    StampNow(s.cfg, q.gen);
    var k := CacheKey(env, q);
    var hit := FindFresh(s.cache, k, now, s.cfg.gen);
    hide WellPlaced, SlotsOk, Question, Decide, StampOk, FindFresh, BlockedAnswer, Replay, ConfigOk;
    if hit.Some? {
      FreshIsFresh(s.cache, k, now, s.cfg.gen);
      assert EntryOk(env, s.cfg, s.cache[hit.value], honest);
    }
  }

  lemma FreshIsFresh(es: seq<Entry>, k: Key, now: nat, gen: nat)
    requires |es| == ENTRIES && FindFresh(es, k, now, gen).Some?
    ensures var i := FindFresh(es, k, now, gen).value;
            i < |es| && Fresh(es[i], k, now, gen) && Owns(es[i], k) && es[i].valid && Sized(es[i])
  {
  }

  lemma StaleIsStale(es: seq<Entry>, k: Key, now: nat, gen: nat)
    requires |es| == ENTRIES && FindStale(es, k, now, gen).Some?
    ensures var i := FindStale(es, k, now, gen).value;
            i < |es| && Owns(es[i], k) && es[i].valid && !es[i].blocked && Sized(es[i]) && es[i].gen == gen
  {
  }

  /** What the stale lookup can do to the state. */
  lemma StaleOutcome(env: Env, s: State, now: nat, t: nat)
    requires s.task.Staling? && WellFormed(s.task.q) && AllSized(s.cache)
    ensures var q, s' := s.task.q, LookStale(env, s, now, t);
            var hit := FindStale(s.cache, CacheKey(env, q), now, s.cfg.gen);
            s'.cfg == s.cfg && (s'.task == Waiting || s'.task == Judging(q)) &&
            ((s'.cache == s.cache && s'.slots == s.slots) ||
             (hit.Some? &&
              var (i, spare) := (hit.value, FirstFree(s.slots));
              var e := s.cache[i];
              (s'.cache == s.cache[i := e.(refreshAfter := now + TIMEOUT)] ||
               s'.cache == s.cache[i := e.(refreshAfter := 0)]) &&
              (s'.slots == s.slots ||
               (spare < |s.slots| && s'.slots == s.slots[spare := RefreshSlot(env, s.slots[spare], q, e, now, t)]))))
  {
    hide FindStale, RewriteAnswerTtls, Replay, FindAsking, FirstFree, RefreshSlot, CacheKey;
  }

  lemma StaleKeeps(env: Env, s: State, now: nat, t: nat, honest: bool)
    requires Inv(env, s, honest) && s.task.Staling? && WellFormed(s.task.q) && AllSized(s.cache)
    ensures Inv(env, LookStale(env, s, now, t), honest)
  {
    var q := s.task.q;
    var hit := FindStale(s.cache, CacheKey(env, q), now, s.cfg.gen);
    StaleOutcome(env, s, now, t);
    hide LookStale, WellPlaced, WellFormed, Question, Decide, StampOk, FindStale, FirstFree, WireLen, Owns, CacheKey,
      ConfigOk, RefreshSlot, SlotOk;
    if hit.Some? {
      StaleIsStale(s.cache, CacheKey(env, q), now, s.cfg.gen);
      var i := hit.value;
      var e := s.cache[i];
      assert EntryOk(env, s.cfg, e, honest);
      if honest {
        FoundEntryNames(env, s.cfg, q, e);
      }
      assert StampOk(s.cfg, e.gen, e.auth) && (honest ==> !Decide(env, e.auth, q.name).Block?);
      GateKept(env, s.cfg, s.cache, i, now + TIMEOUT, honest);
      GateKept(env, s.cfg, s.cache, i, 0, honest);
      hide CacheOk, EntryOk;
      RefreshedSlotsOk(env, s.cfg, s.slots, q, e, now, t, honest);
    }
  }

  lemma RefreshedSlotsOk(env: Env, c: Config, ss: seq<Slot>, q: Query, e: Entry, now: nat, t: nat, honest: bool)
    requires SlotsOk(env, c, ss, honest) && QueryOk(c, q)
    requires StampOk(c, e.gen, e.auth) && (honest ==> !Decide(env, e.auth, q.name).Block?)
    ensures FirstFree(ss) < |ss| ==>
              SlotsOk(env, c, ss[FirstFree(ss) := RefreshSlot(env, ss[FirstFree(ss)], q, e, now, t)], honest)
  {
    hide Decide, StampOk, Question, FirstFree, SlotOk, RefreshSlot;
    if FirstFree(ss) < |ss| {
      RefreshSlotOk(env, c, ss[FirstFree(ss)], q, e, now, t, honest);
    }
  }

  lemma RefreshSlotOk(env: Env, c: Config, was: Slot, q: Query, e: Entry, now: nat, t: nat, honest: bool)
    requires QueryOk(c, q) && StampOk(c, e.gen, e.auth) && (honest ==> !Decide(env, e.auth, q.name).Block?)
    ensures SlotOk(env, c, RefreshSlot(env, was, q, e, now, t), honest)
  {
    hide Question, Decide, StampOk;
  }

  lemma JudgeKeeps(env: Env, s: State, now: nat, busy: bool, honest: bool)
    requires Inv(env, s, honest) && s.task.Judging? && WellFormed(s.task.q) && AllSized(s.cache)
    ensures Inv(env, Judge(env, s, now, busy), honest)
  {
    var q := s.task.q;
    StampNow(s.cfg, q.gen);
    BlockedKept(env, s.cfg, s.cache, CacheKey(env, q), BLOCKED_TTL, now, q.gen, s.cfg.version, honest);
    hide CacheOk, SlotsOk, Question, Decide, StampOk, RewrittenWithin, BlockedAnswer, ConfigOk, StoreBlocked;
  }

  lemma ForwardKeeps(env: Env, s: State, now: nat, t: nat, honest: bool)
    requires Inv(env, s, honest) && s.task.Forwarding? && WellFormed(s.task.q)
    ensures Inv(env, Forward(env, s, now, t), honest)
  {
    var Forwarding(q, noCache, exempt, auth) := s.task;
    hide CacheOk, Question, Decide, StampOk, ConfigOk, FindJoinable, FirstFree, ServFail, SlotsOk, Join, ForwardSlot;
    var j := FindJoinable(s.slots, env.hash(q.name), env.qkey(q.name), q.qtype, env.envelope(q.pkt, q.qend), now);
    if j < |s.slots| {
      JoinedOk(env, s.cfg, s.slots, j, RequesterOf(q), honest);
    }
    var spare := FirstFree(s.slots);
    if spare < |s.slots| {
      LaunchedOk(env, s.cfg, s.slots, spare, q, noCache, exempt, auth, now, t, honest);
    }
  }

  lemma JoinedOk(env: Env, c: Config, ss: seq<Slot>, j: nat, r: Requester, honest: bool)
    requires SlotsOk(env, c, ss, honest) && j < |ss| && |ss[j].waiters| < MAX_WAITERS && r.txid < 0x1_0000
    ensures SlotsOk(env, c, ss[j := Join(ss[j], r)], honest)
  {
    hide Decide, StampOk;
    assert SlotOk(env, c, ss[j], honest);
    assert SlotOk(env, c, Join(ss[j], r), honest);
    hide SlotOk;
  }

  lemma LaunchedOk(env: Env, c: Config, ss: seq<Slot>, k: nat, q: Query, noCache: bool, exempt: bool, auth: nat,
                   now: nat, t: nat, honest: bool)
    requires SlotsOk(env, c, ss, honest) && k < |ss| && WellFormed(q) && StampOk(c, q.gen, auth)
    requires honest && q.clsIn && !noCache ==> !Decide(env, auth, q.name).Block?
    ensures SlotsOk(env, c, ss[k := ForwardSlot(env, ss[k], q, noCache, exempt, auth, now, t)], honest)
  {
    hide Decide, StampOk;
    assert SlotOk(env, c, ForwardSlot(env, ss[k], q, noCache, exempt, auth, now, t), honest);
    hide SlotOk, ForwardSlot;
  }

  /** The reply names a name other than the one asked, that collides with it in both the
      public and the secret hash. */
  ghost predicate Collides(env: Env, s: State, pkt: seq<byte>) {
    |pkt| >= 12 &&
    var i := FindLive(s.slots, Get16(pkt, 0));
    i < |s.slots| && Matches(env, s.slots[i], pkt) && Question(pkt, 12).value.0 != s.slots[i].asked
  }

  lemma OutgoingCases(ue: Slot, pkt: seq<byte>, listed: seq<byte> -> bool)
    requires Question(pkt, 12).Some?
    ensures var (p, cloaked) := Outgoing(ue, pkt, listed);
            |p| >= 12 && (!cloaked ==> p == Scrubbed(pkt) || HasTc(p))
  {
    hide Question, BlockedWithin, Cloaked, Scrubbed, SetTc;
    TruncatedHasTc(Scrubbed(pkt));
  }

  /** Learning is one store at most, and never of a truncated reply. */
  lemma LearnCases(es: seq<Entry>, ue: Slot, p: seq<byte>, qend: nat, cloaked: bool, now: nat)
    requires AllSized(es) && |p| >= 12 && 16 <= qend <= |p|
    ensures var l := Learn(es, ue, p, qend, cloaked, now);
            l == es ||
            (!ue.noCache && cloaked &&
             l == StoreBlocked(es, Key(ue.qhash, ue.qtype, p[12..qend - 4]), BLOCKED_TTL, now, ue.gen, ue.auth)) ||
            (!ue.noCache && !cloaked && !HasTc(p) &&
             l == StoreReply(es, ue.qhash, ue.qtype, p, RespMinTtl(p, DEFAULT_TTL, TTL_MIN, TTL_MAX), now, ue.gen,
                             ue.auth))
  {
    hide StoreBlocked, StoreReply, RespMinTtl;
  }

  lemma StampKeepsTc(p: seq<byte>, id: nat)
    requires |p| >= 12 && id < 0x1_0000
    ensures |Stamp(p, id)| == |p| && HasTc(Stamp(p, id)) == HasTc(p)
  {
  }

  lemma IdFits(ue: Slot)
    requires IdsFit(ue)
    ensures LastId(ue) < 0x1_0000
  {
  }

  lemma LearnKeeps(env: Env, c: Config, es: seq<Entry>, ue: Slot, pkt: seq<byte>, listed: seq<byte> -> bool, now: nat,
                   honest: bool)
    requires CacheOk(env, c, es, honest) && SlotOk(env, c, ue, honest) && ue.inUse && Question(pkt, 12).Some? &&
             AllSized(es)
    requires honest ==> Question(pkt, 12).value.0 == ue.asked
    requires Question(pkt, 12).value.1 <= |Outgoing(ue, pkt, listed).0|
    ensures var (p, cloaked) := Outgoing(ue, pkt, listed);
            LastId(ue) < 0x1_0000 &&
            CacheOk(env, c, Learn(es, ue, Stamp(p, LastId(ue)), Question(pkt, 12).value.1, cloaked, now), honest)
  {
    var (p, cloaked) := Outgoing(ue, pkt, listed);
    var qend := Question(pkt, 12).value.1;
    assert !ue.noCache ==> StampOk(c, ue.gen, ue.auth) && (honest ==> !Decide(env, ue.auth, ue.asked).Block?);
    assert IdsFit(ue);
    hide *;
    IdFits(ue);
    OutgoingCases(ue, pkt, listed);
    var q := Stamp(p, LastId(ue));
    StampKeepsTc(p, LastId(ue));
    LearnCases(es, ue, q, qend, cloaked, now);
    if !ue.noCache && cloaked {
      BlockedKept(env, c, es, Key(ue.qhash, ue.qtype, q[12..qend - 4]), BLOCKED_TTL, now, ue.gen, ue.auth, honest);
    } else if !ue.noCache && !HasTc(p) {
      ScrubKeepsQuestion(pkt);
      StampKeepsQuestion(p, LastId(ue));
      ReplyKept(env, c, es, ue.qhash, ue.qtype, q, RespMinTtl(q, DEFAULT_TTL, TTL_MIN, TTL_MAX), now, ue.gen,
                ue.auth, honest);
    }
  }

  lemma TruncatedHasTc(p: seq<byte>)
    requires |p| >= 3
    ensures HasTc(SetTc(p))
  {
  }

  lemma ReplyStepKeeps(env: Env, s: State, pkt: seq<byte>, now: nat, busy: seq<byte> -> bool, honest: bool)
    requires Inv(env, s, honest) && Sound(s) && (honest ==> !Collides(env, s, pkt))
    ensures Inv(env, OnReply(env, s, pkt, now, busy), honest)
  {
    hide CacheOk, ConfigOk, Question, Decide, StampOk, Learn, Outgoing, FanOut, FindLive, Matches;
    if |pkt| >= 12 {
      var i := FindLive(s.slots, Get16(pkt, 0));
      if i < |s.slots| && Matches(env, s.slots[i], pkt) {
        MatchesParses(env, s.slots[i], pkt);
        var ue := s.slots[i];
        var listed := Listed(env, s.cfg.version, busy);
        OutgoingLength(ue, pkt, listed);
        assert SlotOk(env, s.cfg, ue, honest);
        LearnKeeps(env, s.cfg, s.cache, ue, pkt, listed, now, honest);
        assert SlotOk(env, s.cfg, ue.(inUse := false), honest);
      }
    }
  }

  lemma MatchesParses(env: Env, ue: Slot, pkt: seq<byte>)
    requires Matches(env, ue, pkt)
    ensures Question(pkt, 12).Some?
  {
  }

  lemma ConfigStepKeeps(env: Env, s: State, c': Config, honest: bool)
    requires Inv(env, s, honest) && ConfigOk(c') && Later(s.cfg, c')
    ensures Inv(env, s.(cfg := c'), honest)
  {
    CacheLater(env, s.cfg, c', s.cache, honest);
    forall i | 0 <= i < |s.slots| ensures SlotOk(env, c', s.slots[i], honest) {
      assert SlotOk(env, s.cfg, s.slots[i], honest);
      if s.slots[i].inUse && !s.slots[i].noCache {
        StampKept(s.cfg, c', s.slots[i].gen, s.slots[i].auth);
      }
    }
    if s.task.Forwarding? {
      StampKept(s.cfg, c', s.task.q.gen, s.task.auth);
    }
  }

  lemma EvictKeeps(env: Env, s: State, now: nat, honest: bool)
    requires Inv(env, s, honest)
    ensures Inv(env, s.(slots := Evict(s.slots, now)), honest)
  {
    hide CacheOk, ConfigOk, TaskOk, Decide, StampOk;
    forall i | 0 <= i < |s.slots| ensures SlotOk(env, s.cfg, EvictOne(s.slots[i], now), honest) {
      assert SlotOk(env, s.cfg, s.slots[i], honest);
    }
  }

  /** Every step of the machine keeps the invariant. */
  lemma StepKeeps(env: Env, s: State, step: Step, honest: bool)
    requires Inv(env, s, honest) && Sound(s) && Possible(s, step)
    requires honest && step.Reply? ==> !Collides(env, s, step.pkt)
    ensures Inv(env, Next(env, s, step), honest)
  {
    hide CacheOk, SlotsOk, TaskOk, LookFresh, LookStale, Judge, Forward, OnReply, TakeUdp, TakeTcp, Evict, Question,
      Collides;
    match step
    case UdpQuery(pkt, addr, off, rw) => TakeKeeps(env, s, pkt, false, addr, off, rw, honest);
    case TcpQuery(pkt, off, rw) => TakeKeeps(env, s, pkt, true, 0, off, rw, honest);
    case FreshStep(now) => FreshKeeps(env, s, now, honest);
    case StaleStep(now, t) => StaleKeeps(env, s, now, t, honest);
    case JudgeStep(now, busy) => JudgeKeeps(env, s, now, busy, honest);
    case ForwardStep(now, t) => ForwardKeeps(env, s, now, t, honest);
    case Reply(pkt, now, busyFor) => ReplyStepKeeps(env, s, pkt, now, busyFor, honest);
    case EvictStep(now) => EvictKeeps(env, s, now, honest);
    case Accept =>
    case Hangup =>
    case Mutate => ConfigStepKeeps(env, s, Next(env, s, step).cfg, honest);
    case Bump(done) => ConfigStepKeeps(env, s, Bumped(s.cfg, done), honest);
  }

  // ---------- Whole runs

  ghost predicate Steps(env: Env, s: State, steps: seq<Step>)
    decreases |steps|
  {
    steps == [] ||
    (Sound(s) && Possible(s, steps[0]) && Steps(env, Next(env, s, steps[0]), steps[1..]))
  }

  ghost function After(env: Env, s: State, steps: seq<Step>): State
    requires Steps(env, s, steps)
    decreases |steps|
  {
    if steps == [] then s else After(env, Next(env, s, steps[0]), steps[1..])
  }

  /** No reply in the run names a doubly colliding name. */
  ghost predicate NoCollision(env: Env, s: State, steps: seq<Step>)
    requires Steps(env, s, steps)
    decreases |steps|
  {
    steps == [] ||
    ((steps[0].Reply? ==> !Collides(env, s, steps[0].pkt)) && NoCollision(env, Next(env, s, steps[0]), steps[1..]))
  }

  lemma {:induction false} RunKeeps(env: Env, s: State, steps: seq<Step>, honest: bool)
    requires Inv(env, s, honest) && Steps(env, s, steps) && (honest ==> NoCollision(env, s, steps))
    ensures Inv(env, After(env, s, steps), honest)
    decreases |steps|
  {
    if steps != [] {
      hide Inv, Next, Possible, Sound, Collides;
      StepKeeps(env, s, steps[0], honest);
      RunKeeps(env, Next(env, s, steps[0]), steps[1..], honest);
    }
  }

  lemma StepIsLater(env: Env, s: State, step: Step)
    requires ConfigOk(s.cfg) && Sound(s) && Possible(s, step)
    ensures ConfigOk(Next(env, s, step).cfg) && Later(s.cfg, Next(env, s, step).cfg)
  {
    hide LookFresh, LookStale, Judge, Forward, OnReply, TakeUdp, TakeTcp, Evict;
    match step
    case Mutate =>
    case Bump(done) =>
    case _ => SameConfig(env, s, step);
  }

  lemma SameConfig(env: Env, s: State, step: Step)
    requires Sound(s) && Possible(s, step) && !step.Mutate? && !step.Bump?
    ensures Next(env, s, step).cfg == s.cfg
  {
    hide FindFresh, FindStale, Question, Replies.Blocked, RewriteAnswerTtls, FindJoinable, FirstFree, FindAsking,
      Decide, Learn, Outgoing, FanOut, FindLive, Matches, StoreBlocked, Evict;
  }

  lemma LaterTwice(a: Config, b: Config, c: Config)
    requires Later(a, b) && Later(b, c) && ConfigOk(b)
    ensures Later(a, c)
  {
  }

  lemma {:induction false} RunIsLater(env: Env, s: State, steps: seq<Step>)
    requires ConfigOk(s.cfg) && Steps(env, s, steps)
    ensures ConfigOk(After(env, s, steps).cfg) && Later(s.cfg, After(env, s, steps).cfg)
    decreases |steps|
  {
    if steps != [] {
      hide Next, Possible, Sound;
      StepIsLater(env, s, steps[0]);
      RunIsLater(env, Next(env, s, steps[0]), steps[1..]);
      LaterTwice(s.cfg, Next(env, s, steps[0]).cfg, After(env, s, steps).cfg);
    }
  }

  /** e was authorised after change m. */
  ghost predicate NewerThan(e: Entry, m: nat) {
    m < e.auth
  }

  /** In every reachable state, whatever packets arrived and however slowly: a fresh, a
      stale or a fast-path hit under the current generation rests on a verdict taken after
      every configuration change whose bump has completed. */
  lemma NoStaleVerdictIsServed(env: Env, s0: State, steps: seq<Step>, k: Key, now: nat, cap: nat, m: nat)
    requires Inv(env, s0, false) && Steps(env, s0, steps)
    requires m < |After(env, s0, steps).cfg.bumps| && After(env, s0, steps).cfg.bumps[m].Some?
    ensures var s := After(env, s0, steps);
            |s.cache| == ENTRIES &&
            (FindFresh(s.cache, k, now, s.cfg.gen).Some? ==>
               NewerThan(s.cache[FindFresh(s.cache, k, now, s.cfg.gen).value], m)) &&
            (FindStale(s.cache, k, now, s.cfg.gen).Some? ==>
               NewerThan(s.cache[FindStale(s.cache, k, now, s.cfg.gen).value], m)) &&
            (FindReplayable(s.cache, k, now, s.cfg.gen, cap).Some? ==>
               NewerThan(s.cache[FindReplayable(s.cache, k, now, s.cfg.gen, cap).value], m))
  {
    RunKeeps(env, s0, steps, false);
    var s := After(env, s0, steps);
    var g := s.cfg.gen;
    PlacedSized(s.cache, 0);
    FindsAreStamped(s.cache, k, now, g, cap);
    hide WellPlaced, Authorised, StampOk, FindFresh, FindStale, FindReplayable, Steps, After;
    forall i | 0 <= i < |s.cache| && s.cache[i].valid && s.cache[i].gen == g ensures NewerThan(s.cache[i], m) {
      assert EntryOk(env, s.cfg, s.cache[i], false);
      CurrentStampIsUpToDate(s.cfg, g, s.cache[i].auth, m);
    }
  }

  ghost predicate StampedHit(es: seq<Entry>, r: Option<nat>, g: nat) {
    r.Some? ==> r.value < |es| && es[r.value].valid && es[r.value].gen == g
  }

  lemma FindsAreStamped(es: seq<Entry>, k: Key, now: nat, g: nat, cap: nat)
    requires |es| == ENTRIES
    ensures StampedHit(es, FindFresh(es, k, now, g), g) && StampedHit(es, FindStale(es, k, now, g), g)
    ensures StampedHit(es, FindReplayable(es, k, now, g, cap), g)
  {
  }

  /** The same for the other core, which samples the generation first and reads the cache
      later: what it serves is newer than every change complete when it sampled. */
  lemma SampledReadIsUpToDate(env: Env, s0: State, before: seq<Step>, between: seq<Step>, k: Key, now: nat, cap: nat,
                              m: nat)
    requires Inv(env, s0, false) && Steps(env, s0, before)
    requires Steps(env, After(env, s0, before), between)
    requires var c := After(env, s0, before).cfg;
             m < |c.bumps| && c.bumps[m].Some?
    ensures var s1 := After(env, s0, before);
            var s2 := After(env, s1, between);
            |s2.cache| == ENTRIES &&
            (FindReplayable(s2.cache, k, now, s1.cfg.gen, cap).Some? ==>
               NewerThan(s2.cache[FindReplayable(s2.cache, k, now, s1.cfg.gen, cap).value], m))
  {
    RunKeeps(env, s0, before, false);
    var s1 := After(env, s0, before);
    RunKeeps(env, s1, between, false);
    RunIsLater(env, s1, between);
    var s2 := After(env, s1, between);
    PlacedSized(s2.cache, 0);
    FindsAreStamped(s2.cache, k, now, s1.cfg.gen, cap);
    hide WellPlaced, Authorised, FindReplayable, Steps, After;
    var r := FindReplayable(s2.cache, k, now, s1.cfg.gen, cap);
    if r.Some? {
      var e := s2.cache[r.value];
      assert EntryOk(env, s2.cfg, e, false);
      assert StampOk(s2.cfg, e.gen, e.auth) && s2.cfg.bumps[m] == s1.cfg.bumps[m];
    }
  }

  /** No configuration change is half applied. */
  ghost predicate Settled(c: Config) {
    forall m :: 0 <= m < |c.bumps| ==> c.bumps[m].Some?
  }

  lemma SettledStamp(c: Config, g: nat, v: nat)
    requires ConfigOk(c) && StampOk(c, g, v) && Settled(c) && g == c.gen
    ensures v == c.version
  {
    CurrentStampIsUpToDate(c, g, v, v);
  }

  /** With every change settled, a hit under the current generation rests on the current
      configuration, which does not block the name it answers. */
  lemma SettledHitIsAllowedNow(env: Env, s: State, i: nat)
    requires Inv(env, s, true) && Settled(s.cfg) && i < |s.cache| && s.cache[i].valid && s.cache[i].gen == s.cfg.gen
    ensures Sized(s.cache[i]) && s.cache[i].auth == s.cfg.version
    ensures var e := s.cache[i];
            !e.blocked ==>
              12 < e.respLen && Question(Reply(e), 12).Some? && WireLen(Reply(e), 12) == e.qnLen &&
              !Decide(env, s.cfg.version, Question(Reply(e), 12).value.0).Block?
  {
    assert EntryOk(env, s.cfg, s.cache[i], true);
    hide WellPlaced, Decide, Question, WireLen, SlotsOk, StampOk, Settled;
    SettledStamp(s.cfg, s.cache[i].gen, s.cache[i].auth);
  }

  // ---------- Where runs start

  /** What cache_load_sd leaves in a way: an expired entry, its generation untouched. */
  function RestoredEntry(e: Entry, k: Key, resp: seq<byte>): Entry
    requires Sized(e) && |resp| <= RESP_MAX && 12 + |k.name| <= RESP_MAX
  {
    e.(hash := k.hash, qtype := k.qtype, blocked := false, valid := true, respLen := |resp|,
       resp := Overlay(e.resp, 0, resp), qnLen := |k.name|, deadline := 1, refreshAfter := 0)
  }

  /** cache_load_sd on one record of the file. */
  function Restore(es: seq<Entry>, hash: nat, qtype: nat, resp: seq<byte>): (r: seq<Entry>)
    requires AllSized(es)
    ensures |r| == |es|
  {
    if !Storable(resp) then es
    else
      var k := ReplyKey(hash, qtype, resp);
      es[Victim(es, k) := RestoredEntry(es[Victim(es, k)], k, resp)]
  }

  /** Every entry carries the generation and configuration of a blank one. */
  ghost predicate Unstamped(es: seq<Entry>) {
    WellPlaced(es) &&
    forall i :: 0 <= i < |es| ==> es[i].gen == 0 && es[i].auth == 0 && (es[i].valid ==> es[i].respLen > 12)
  }

  lemma RestoredCarries(e: Entry, hash: nat, qtype: nat, resp: seq<byte>)
    requires Sized(e) && Storable(resp)
    ensures var k := ReplyKey(hash, qtype, resp);
            Carries(RestoredEntry(e, k, resp), Folded(k), Value(false, k.name, resp, 1, e.gen, e.auth))
  {
    ReplyCarries(e, hash, qtype, resp, 0, 0, e.gen, e.auth);
    var k := ReplyKey(hash, qtype, resp);
    var like := ReplyEntry(e, k, resp, 0, 0, e.gen, e.auth);
    hide WireLen, Overlay, ReplyKey;
    assert Name(RestoredEntry(e, k, resp)) == Name(like);
  }

  lemma RestoreKeeps(es: seq<Entry>, hash: nat, qtype: nat, resp: seq<byte>)
    requires Unstamped(es)
    ensures Unstamped(Restore(es, hash, qtype, resp))
  {
    if Storable(resp) {
      var k := ReplyKey(hash, qtype, resp);
      var v := Victim(es, k);
      PlacedSized(es, v);
      RestoredCarries(es[v], hash, qtype, resp);
      hide WellPlaced, Victim, Carries, WireLen, Overlay, ReplyKey;
      WriteVictim(es, k, RestoredEntry(es[v], k, resp), Value(false, k.name, resp, 1, es[v].gen, es[v].auth));
    }
  }

  /** dns_task as it starts, with whatever the card held restored into the cache. */
  function Start(es: seq<Entry>, cfg: Config): State {
    State(es, seq(SLOTS, _ => Idle()), Tcp(false, 0, false), Waiting, cfg, [], [])
  }

  /** From the card, only replies to names that the boot configuration does not block. */
  ghost predicate RestoredAllowed(env: Env, es: seq<Entry>) {
    forall i :: 0 <= i < |es| && es[i].valid ==>
      Sized(es[i]) && Question(Reply(es[i]), 12).Some? && WireLen(Reply(es[i]), 12) == es[i].qnLen &&
      !Decide(env, 0, Question(Reply(es[i]), 12).value.0).Block?
  }

  lemma StartHolds(env: Env, es: seq<Entry>, cfg: Config, honest: bool)
    requires Unstamped(es) && ConfigOk(cfg) && (honest ==> RestoredAllowed(env, es))
    ensures Inv(env, Start(es, cfg), honest)
  {
    hide WellPlaced, Question, WireLen, Decide;
    forall i | 0 <= i < |es| ensures EntryOk(env, cfg, es[i], honest) {
      AllSizedAt(es, i);
    }
  }

  lemma AllSizedAt(es: seq<Entry>, i: nat)
    requires WellPlaced(es) && i < |es|
    ensures Sized(es[i])
  {
  }
}
