/** What every run delivers, of main/dns_server.cpp: whichever way a reply comes about, from
    the cache, from the verdict, or from upstream, it answers the very question its client
    asked. */
module Answers {
  import opened Bytes
  import opened Domain
  import opened Wire
  import opened CaseScrub
  import opened ReplyScrub
  import opened Ttl
  import opened Replies
  import opened Cache
  import opened CacheMap
  import opened Upstream
  import opened Server
  import D = Delivery
  import Generations

  /** p is about the name and the type. */
  predicate About(p: seq<byte>, name: seq<byte>, qtype: nat) {
    |p| >= 12 && Question(p, 12).Some? &&
    Question(p, 12).value.0 == name && Get16(p, Question(p, 12).value.1 - 4) == qtype
  }

  /** r has the question section of p. */
  ghost predicate SameFront(p: seq<byte>, r: seq<byte>, end: nat) {
    end <= |p| && end <= |r| && forall i :: 12 <= i < end ==> r[i] == p[i]
  }

  lemma FrontKept(p: seq<byte>, r: seq<byte>, name: seq<byte>, qtype: nat)
    requires About(p, name, qtype) && SameFront(p, r, Question(p, 12).value.1)
    ensures About(r, name, qtype) && Question(r, 12) == Question(p, 12)
  {
    hide Question;
    QuestionStands(p, r, 12);
  }

  // ---------- What dns_task builds itself

  /** The query as it was read from its packet. */
  ghost predicate Asked(q: Query) {
    WellFormed(q) && Question(q.pkt, 12) == Some((q.name, q.qend)) && q.qtype == Get16(q.pkt, q.qend - 4)
  }

  lemma AskedIs(q: Query)
    requires Asked(q)
    ensures About(q.pkt, q.name, q.qtype) && Question(q.pkt, 12).value.1 == q.qend && 17 <= q.qend <= |q.pkt| &&
      q.rw <= NO_TTL
  {
    hide Question;
  }

  lemma HeadedFront(q: seq<byte>, flags: nat, answers: nat, rr: seq<byte>)
    requires |q| >= 12 && flags < 0x1_0000 && answers < 0x1_0000
    ensures SameFront(q, WithHeader(q, flags, answers), |q|) && SameFront(q, WithHeader(q, flags, answers) + rr, |q|)
  {
    forall i | 12 <= i < |q| ensures WithHeader(q, flags, answers)[i] == q[i] {
      WithHeaderAt(q, flags, answers, i);
    }
    hide WithHeader;
  }

  lemma BuiltFront(q: seq<byte>, qtype: nat, ip: nat)
    requires |q| >= 12 && ip <= NO_TTL
    ensures SameFront(q, Blocked(q, qtype), |q|) && SameFront(q, Answered(q, 1, REWRITE_TTL, Address(ip)), |q|)
  {
    hide WithHeader, RespFlags, AnswerRr, SameFront;
    HeadedFront(q, NXDOMAIN_FLAGS, 0, []);
    if qtype == 1 || qtype == 28 {
      HeadedFront(q, RespFlags(Get16(q, 2), 0), 1, AnswerRr(qtype, BLOCKED_TTL, Zeros(Nowhere(qtype))));
    }
    HeadedFront(q, RespFlags(Get16(q, 2), 0), 1, AnswerRr(1, REWRITE_TTL, Address(ip)));
  }

  lemma CutFront(p: seq<byte>, r: seq<byte>, end: nat)
    requires 12 <= end <= |p| && SameFront(p[..end], r, end)
    ensures SameFront(p, r, end)
  {
    forall i | 12 <= i < end ensures r[i] == p[i] {
      assert p[..end][i] == p[i];
    }
  }

  /** A payload, if there is one, about the query. */
  ghost predicate Fits(q: Query, payload: Option<seq<byte>>) {
    payload.Some? ==> About(payload.value, q.name, q.qtype)
  }

  lemma BuiltFits(q: Query)
    requires Asked(q)
    ensures 12 <= q.qend <= |q.pkt| && q.rw <= NO_TTL && WellFormed(q)
    ensures Fits(q, BlockedAnswer(q)) && Fits(q, RewrittenWithin(q.pkt[..q.qend], q.rw, TX_CAP)) &&
            Fits(q, Some(ServFail(q)))
  {
    AskedIs(q);
    var front := q.pkt[..q.qend];
    BuiltFront(front, q.qtype, q.rw);
    HeadedFront(front, RespFlags(Get16(q.pkt, 2), 2), 0, []);
    hide Question, About, SameFront, Blocked, Answered, WithHeader, RespFlags;
    CutFront(q.pkt, Blocked(front, q.qtype), q.qend);
    CutFront(q.pkt, Answered(front, 1, REWRITE_TTL, Address(q.rw)), q.qend);
    CutFront(q.pkt, ServFail(q), q.qend);
    FrontKept(q.pkt, Blocked(front, q.qtype), q.name, q.qtype);
    FrontKept(q.pkt, Answered(front, 1, REWRITE_TTL, Address(q.rw)), q.name, q.qtype);
    FrontKept(q.pkt, ServFail(q), q.name, q.qtype);
  }

  // ---------- What the cache holds

  /** The reply an entry holds is of the entry's type. */
  ghost predicate Typed(e: Entry) {
    Sized(e) &&
    (e.valid && !e.blocked ==>
       12 < e.respLen && Question(Generations.Reply(e), 12).Some? &&
       Get16(Generations.Reply(e), Question(Generations.Reply(e), 12).value.1 - 4) == e.qtype)
  }

  ghost predicate AllTyped(es: seq<Entry>) {
    forall i :: 0 <= i < |es| ==> Typed(es[i])
  }

  lemma TypedUpdate(es: seq<Entry>, i: nat, e: Entry)
    requires AllTyped(es) && i < |es| && Typed(e)
    ensures AllTyped(es[i := e])
  {
    hide Typed;
  }

  lemma BlockedTyped(es: seq<Entry>, k: Key, ttl: nat, now: nat, g: nat, v: nat)
    requires AllTyped(es) && AllSized(es)
    ensures AllTyped(StoreBlocked(es, k, ttl, now, g, v))
  {
    if |k.name| != 0 && |k.name| <= WIRE_MAX {
      var i := Victim(es, k);
      assert Typed(BlockedEntry(es[i], k, ttl, now, g, v));
      TypedUpdate(es, i, BlockedEntry(es[i], k, ttl, now, g, v));
      hide Victim, Overlay, Typed;
    }
  }

  lemma EntryTyped(e: Entry, name: seq<byte>)
    requires Sized(e) && 12 < e.respLen && About(Generations.Reply(e), name, e.qtype)
    ensures Typed(e)
  {
    hide Question;
  }

  lemma ReplyHolds(was: Entry, h: nat, t: nat, resp: seq<byte>, ttl: nat, now: nat, g: nat, v: nat)
    requires Sized(was) && Storable(resp)
    ensures var e := ReplyEntry(was, ReplyKey(h, t, resp), resp, ttl, now, g, v);
            Sized(e) && e.qtype == t && Generations.Reply(e) == resp && 12 < e.respLen
  {
    hide WireLen;
    var e := ReplyEntry(was, ReplyKey(h, t, resp), resp, ttl, now, g, v);
    assert Overlay(was.resp, 0, resp)[..|resp|] == resp;
  }

  lemma ReplyTyped(es: seq<Entry>, h: nat, t: nat, resp: seq<byte>, ttl: nat, now: nat, g: nat, v: nat, name: seq<byte>)
    requires AllTyped(es) && AllSized(es) && About(resp, name, t)
    ensures AllTyped(StoreReply(es, h, t, resp, ttl, now, g, v))
  {
    hide About, AllTyped, Victim, ReplyEntry, ReplyKey, Storable, WireLen, Typed;
    if Storable(resp) {
      var k := StorableKey(h, t, resp);
      var i := Victim(es, k);
      assert Sized(es[i]);
      ReplyHolds(es[i], h, t, resp, ttl, now, g, v);
      var e := ReplyEntry(es[i], k, resp, ttl, now, g, v);
      EntryTyped(e, name);
      TypedUpdate(es, i, e);
    }
  }

  lemma StorableKey(h: nat, t: nat, resp: seq<byte>) returns (k: Key)
    requires Storable(resp)
    ensures WireLen(resp, 12) >= 0 && |resp| <= RESP_MAX && k == ReplyKey(h, t, resp)
  {
    k := ReplyKey(h, t, resp);
    hide WireLen;
  }

  lemma TouchTyped(es: seq<Entry>, i: nat, after: nat)
    requires AllTyped(es) && i < |es|
    ensures AllTyped(es[i := es[i].(refreshAfter := after)])
  {
    hide Question;
    assert Typed(es[i]);
    assert Generations.Reply(es[i].(refreshAfter := after)) == Generations.Reply(es[i]);
    assert Typed(es[i].(refreshAfter := after));
    TypedUpdate(es, i, es[i].(refreshAfter := after));
  }

  /** An entry found for a query is replayed as an answer to it, fresh or with short TTLs. */
  lemma ReplayFits(env: Env, c: Config, q: Query, e: Entry)
    requires Asked(q) && Generations.QueryOk(c, q) && Generations.EntryOk(env, c, e, true) && Typed(e)
    requires e.valid && !e.blocked && Owns(e, CacheKey(env, q)) && STALE_TTL <= NO_TTL
    ensures Sized(e) && Fits(q, Some(Replay(e, q))) && Fits(q, Some(RewriteAnswerTtls(Replay(e, q), STALE_TTL)))
  {
    Generations.FoundEntryNames(env, c, q, e);
    var r := Generations.Reply(e);
    assert e.qtype == q.qtype;
    hide Question, Generations.EntryOk, Generations.QueryOk, Owns, CacheKey, RewriteAnswerTtls;
    assert About(r, q.name, q.qtype);
    StampFront(r, Get16(q.pkt, 0));
    FrontKept(r, Replay(e, q), q.name, q.qtype);
    TtlsFront(Replay(e, q), STALE_TTL);
    FrontKept(Replay(e, q), RewriteAnswerTtls(Replay(e, q), STALE_TTL), q.name, q.qtype);
  }

  lemma StampFront(p: seq<byte>, id: nat)
    requires id < 0x1_0000
    ensures SameFront(p, Stamp(p, id), |p|)
  {
  }

  lemma TtlsFront(p: seq<byte>, ttl: nat)
    requires ttl <= NO_TTL && |p| >= 12 && Question(p, 12).Some?
    ensures SameFront(p, RewriteAnswerTtls(p, ttl), Question(p, 12).value.1)
  {
    QuestionByLabel(p);
    hide Question, RewriteTtls, SkipName, LowerIn, LowerLabels;
    RewriteKeepsFront(p, Question(p, 12).value.1, RecordCount(p), ttl);
  }

  // ---------- What flights ask

  /** The requester asked for the flight's type, and for its name as far as the hashes tell. */
  ghost predicate Rides(env: Env, s: Slot, r: Requester) {
    r.qtype == s.qtype && env.hash(r.asked) == s.qhash && env.qkey(r.asked) == s.qkey
  }

  ghost predicate AllRide(env: Env, s: Slot) {
    s.inUse ==> forall i :: 0 <= i < |Deliverees(s)| ==> Rides(env, s, Deliverees(s)[i])
  }

  ghost predicate SlotsAsk(env: Env, ss: seq<Slot>) {
    forall i :: 0 <= i < |ss| ==> AllRide(env, ss[i])
  }

  lemma SlotsUpdate(env: Env, ss: seq<Slot>, i: nat, s: Slot)
    requires SlotsAsk(env, ss) && i < |ss| && AllRide(env, s)
    ensures SlotsAsk(env, ss[i := s])
  {
    hide AllRide;
  }

  // ---------- The invariant

  ghost predicate SentFits(asks: seq<Requester>, d: Delivery) {
    d.rid < |asks| && About(d.payload, asks[d.rid].asked, asks[d.rid].qtype)
  }

  ghost predicate AllSentFit(asks: seq<Requester>, sent: seq<Delivery>) {
    forall i :: 0 <= i < |sent| ==> SentFits(asks, sent[i])
  }

  lemma SentMore(asks: seq<Requester>, sent: seq<Delivery>, d: Delivery)
    requires AllSentFit(asks, sent) && SentFits(asks, d)
    ensures AllSentFit(asks, sent + [d])
  {
    hide SentFits;
  }

  lemma AsksMore(asks: seq<Requester>, sent: seq<Delivery>, r: Requester)
    requires AllSentFit(asks, sent)
    ensures AllSentFit(asks + [r], sent)
  {
    hide About;
    forall i | 0 <= i < |sent| ensures SentFits(asks + [r], sent[i]) {
      assert SentFits(asks, sent[i]);
      assert (asks + [r])[sent[i].rid] == asks[sent[i].rid];
    }
  }

  ghost predicate Inv(env: Env, s: State) {
    AllTyped(s.cache) && SlotsAsk(env, s.slots) && (!s.task.Waiting? ==> Asked(s.task.q)) && AllSentFit(s.asks, s.sent)
  }

  /** Everything the steps below need to know. */
  ghost predicate All(env: Env, s: State) {
    Inv(env, s) && D.Inv(s) && Generations.Inv(env, s, true) && Sound(s)
  }

  lemma AllIs(env: Env, s: State)
    requires All(env, s)
    ensures AllTyped(s.cache) && SlotsAsk(env, s.slots) && AllSentFit(s.asks, s.sent) && AllSized(s.cache) &&
      |s.cache| == ENTRIES
    ensures !s.task.Waiting? ==>
              Asked(s.task.q) && WellFormed(s.task.q) && |s.task.q.pkt| >= 2 && Generations.QueryOk(s.cfg, s.task.q) &&
              D.Known(s.asks, RequesterOf(s.task.q))
    ensures forall i :: 0 <= i < |s.cache| ==> Sized(s.cache[i]) && Generations.EntryOk(env, s.cfg, s.cache[i], true)
  {
    hide AllTyped, SlotsAsk, AllSentFit, Question, Generations.EntryOk, Generations.StampOk, WellPlaced, Asked,
      D.SlotsKnown, D.AsksOk, D.AllSentOk, D.TcpOrdered, D.TxidsDistinct, D.AtMostOnce, D.Rids;
  }

  /** The query's own answer keeps what was sent in order. */
  lemma AnswerFits(s: State, q: Query, payload: Option<seq<byte>>)
    requires |q.pkt| >= 2 && AllSentFit(s.asks, s.sent) && D.Known(s.asks, RequesterOf(q)) && Fits(q, payload)
    ensures AllSentFit(s.asks, Answer(s, q, payload).sent)
  {
    hide About;
    if payload.Some? {
      SentMore(s.asks, s.sent, DeliveryOf(RequesterOf(q), payload.value));
    }
  }

  lemma InvIs(env: Env, s: State)
    ensures Inv(env, s) <==>
            AllTyped(s.cache) && SlotsAsk(env, s.slots) && (!s.task.Waiting? ==> Asked(s.task.q)) &&
            AllSentFit(s.asks, s.sent)
  {
  }

  // ---------- The steps

  lemma TakeKeeps(env: Env, s: State, pkt: seq<byte>, tcp: bool, addr: nat, off: bool, rw: nat)
    requires All(env, s) && rw <= NO_TTL
    ensures Inv(env, TakeUdp(s, pkt, addr, off, rw)) && Inv(env, TakeTcp(s, pkt, off, rw))
  {
    hide AllTyped, SlotsAsk, AllSentFit, Question, D.Inv, Generations.Inv, Sound;
    if Parsed(pkt).Some? {
      var u := QueryOf(pkt, false, addr, 0, off, rw, s.cfg.gen, |s.asks|);
      var t := QueryOf(pkt, true, 0, s.tcp.gen, off, rw, s.cfg.gen, |s.asks|);
      assert Asked(u) && Asked(t);
      AsksMore(s.asks, s.sent, RequesterOf(u));
      AsksMore(s.asks, s.sent, RequesterOf(t));
    }
  }

  lemma FreshKeeps(env: Env, s: State, now: nat)
    requires All(env, s) && s.task.Looking?
    ensures Inv(env, LookFresh(env, s, now))
  {
    AllIs(env, s);
    hide *;
    var q, s' := s.task.q, LookFresh(env, s, now);
    FreshCases(env, s, now);
    BuiltFits(q);
    InvIs(env, s');
    AnswerFits(s, q, BlockedAnswer(q));
    var hit := FindFresh(s.cache, CacheKey(env, q), now, s.cfg.gen);
    if hit.Some? {
      Generations.FreshIsFresh(s.cache, CacheKey(env, q), now, s.cfg.gen);
      if !s.cache[hit.value].blocked {
        TypedAt(s.cache, hit.value);
        StaleTtlFits();
        ReplayFits(env, s.cfg, q, s.cache[hit.value]);
        AnswerFits(s, q, Some(Replay(s.cache[hit.value], q)));
      }
    }
  }

  lemma StaleTtlFits()
    ensures STALE_TTL <= NO_TTL
  {
  }

  lemma TypedAt(es: seq<Entry>, i: nat)
    requires AllTyped(es) && i < |es|
    ensures Typed(es[i])
  {
  }

  /** What the fresh lookup can do. */
  lemma FreshCases(env: Env, s: State, now: nat)
    requires s.task.Looking? && WellFormed(s.task.q) && AllSized(s.cache)
    ensures var q, s' := s.task.q, LookFresh(env, s, now);
            var hit := FindFresh(s.cache, CacheKey(env, q), now, s.cfg.gen);
            s'.cache == s.cache && s'.slots == s.slots && s'.asks == s.asks && (!s'.task.Waiting? ==> s'.task.q == q) &&
            (s'.sent == s.sent || s'.sent == Answer(s, q, BlockedAnswer(q)).sent ||
             (hit.Some? && hit.value < |s.cache| && !s.cache[hit.value].blocked &&
              s'.sent == Answer(s, q, Some(Replay(s.cache[hit.value], q))).sent))
  {
    hide FindFresh, CacheKey, BlockedAnswer, Replay;
    if FindFresh(s.cache, CacheKey(env, s.task.q), now, s.cfg.gen).Some? {
      Generations.FreshIsFresh(s.cache, CacheKey(env, s.task.q), now, s.cfg.gen);
    }
  }

  lemma StaleKeeps(env: Env, s: State, now: nat, t: nat)
    requires All(env, s) && s.task.Staling?
    ensures Inv(env, LookStale(env, s, now, t))
  {
    AllIs(env, s);
    hide *;
    var q, s' := s.task.q, LookStale(env, s, now, t);
    StaleCases(env, s, now, t);
    InvIs(env, s');
    var hit := FindStale(s.cache, CacheKey(env, q), now, s.cfg.gen);
    if hit.Some? {
      Generations.StaleIsStale(s.cache, CacheKey(env, q), now, s.cfg.gen);
      var i := hit.value;
      TypedAt(s.cache, i);
      StaleTtlFits();
      ReplayFits(env, s.cfg, q, s.cache[i]);
      AnswerFits(s, q, Some(RewriteAnswerTtls(Replay(s.cache[i], q), STALE_TTL)));
      TouchTyped(s.cache, i, now + TIMEOUT);
      TouchTyped(s.cache, i, 0);
      var k := FirstFree(s.slots);
      if k < |s.slots| {
        RefreshRides(env, s.slots[k], q, s.cache[i], now, t);
        SlotsUpdate(env, s.slots, k, RefreshSlot(env, s.slots[k], q, s.cache[i], now, t));
      }
    }
  }

  lemma RefreshRides(env: Env, was: Slot, q: Query, e: Entry, now: nat, t: nat)
    requires WellFormed(q)
    ensures AllRide(env, RefreshSlot(env, was, q, e, now, t))
  {
  }

  lemma StaleCases(env: Env, s: State, now: nat, t: nat)
    requires s.task.Staling? && WellFormed(s.task.q) && AllSized(s.cache) && STALE_TTL <= NO_TTL
    ensures var q, s' := s.task.q, LookStale(env, s, now, t);
            var hit := FindStale(s.cache, CacheKey(env, q), now, s.cfg.gen);
            s'.asks == s.asks && (!s'.task.Waiting? ==> s'.task.q == q) &&
            ((s'.cache == s.cache && s'.slots == s.slots && s'.sent == s.sent) ||
             (hit.Some? && hit.value < |s.cache| &&
              var (i, k) := (hit.value, FirstFree(s.slots));
              var e := s.cache[i];
              s'.sent == Answer(s, q, Some(RewriteAnswerTtls(Replay(e, q), STALE_TTL))).sent &&
              (s'.cache == s.cache || s'.cache == s.cache[i := e.(refreshAfter := now + TIMEOUT)] ||
               s'.cache == s.cache[i := e.(refreshAfter := 0)]) &&
              (s'.slots == s.slots ||
               (k < |s.slots| && s'.slots == s.slots[k := RefreshSlot(env, s.slots[k], q, e, now, t)]))))
  {
    if FindStale(s.cache, CacheKey(env, s.task.q), now, s.cfg.gen).Some? {
      Generations.StaleIsStale(s.cache, CacheKey(env, s.task.q), now, s.cfg.gen);
    }
    hide FindStale, RewriteAnswerTtls, Replay, FindAsking, FirstFree, RefreshSlot, CacheKey;
  }

  lemma JudgeKeeps(env: Env, s: State, now: nat, busy: bool)
    requires All(env, s) && s.task.Judging?
    ensures Inv(env, Judge(env, s, now, busy))
  {
    AllIs(env, s);
    hide *;
    var q, s' := s.task.q, Judge(env, s, now, busy);
    JudgeCases(env, s, now, busy);
    BuiltFits(q);
    InvIs(env, s');
    AnswerFits(s, q, BlockedAnswer(q));
    AnswerFits(s, q, RewrittenWithin(q.pkt[..q.qend], q.rw, TX_CAP));
    BlockedTyped(s.cache, CacheKey(env, q), BLOCKED_TTL, now, q.gen, s.cfg.version);
  }

  lemma JudgeCases(env: Env, s: State, now: nat, busy: bool)
    requires s.task.Judging? && WellFormed(s.task.q) && AllSized(s.cache)
    ensures var q, s' := s.task.q, Judge(env, s, now, busy);
            s'.slots == s.slots && s'.asks == s.asks && (!s'.task.Waiting? ==> s'.task.q == q) &&
            (s'.cache == s.cache ||
             s'.cache == StoreBlocked(s.cache, CacheKey(env, q), BLOCKED_TTL, now, q.gen, s.cfg.version)) &&
            (s'.sent == s.sent || s'.sent == Answer(s, q, BlockedAnswer(q)).sent ||
             s'.sent == Answer(s, q, RewrittenWithin(q.pkt[..q.qend], q.rw, TX_CAP)).sent)
  {
    hide StoreBlocked, BlockedAnswer, RewrittenWithin, CacheKey, Socket;
  }

  lemma ForwardKeeps(env: Env, s: State, now: nat, t: nat)
    requires All(env, s) && s.task.Forwarding?
    ensures Inv(env, Forward(env, s, now, t))
  {
    AllIs(env, s);
    var Forwarding(q, noCache, exempt, auth) := s.task;
    var s' := Forward(env, s, now, t);
    D.ForwardOutcome(env, s, now, t);
    BuiltFits(q);
    AnswerFits(s, q, Some(ServFail(q)));
    hide Forward, AllTyped, SlotsAsk, AllSentFit, ServFail, Answer, Join, ForwardSlot, All, Asked, Fits, RequesterOf,
      About, Question, D.AsksAlike;
    AnswerElsewhere(s, q, Some(ServFail(q)));
    if j: nat :| j < |s.slots| && D.AsksAlike(env, q, s.slots[j]) &&
                 s'.slots == s.slots[j := Join(s.slots[j], RequesterOf(q))] {
      RideAt(env, s.slots, j);
      JoinRides(env, s.slots[j], q);
      SlotsUpdate(env, s.slots, j, Join(s.slots[j], RequesterOf(q)));
    } else if k: nat :| k < |s.slots| &&
                        s'.slots == s.slots[k := ForwardSlot(env, s.slots[k], q, noCache, exempt, auth, now, t)] {
      ForwardRides(env, s.slots[k], q, noCache, exempt, auth, now, t);
      SlotsUpdate(env, s.slots, k, ForwardSlot(env, s.slots[k], q, noCache, exempt, auth, now, t));
    }
  }

  lemma AnswerElsewhere(s: State, q: Query, payload: Option<seq<byte>>)
    requires |q.pkt| >= 2
    ensures var s' := Answer(s, q, payload);
            s'.cache == s.cache && s'.slots == s.slots && s'.asks == s.asks && s'.task == Waiting
  {
  }

  lemma RideAt(env: Env, ss: seq<Slot>, i: nat)
    requires SlotsAsk(env, ss) && i < |ss|
    ensures AllRide(env, ss[i])
  {
  }

  lemma JoinRides(env: Env, s: Slot, q: Query)
    requires AllRide(env, s) && D.AsksAlike(env, q, s) && |q.pkt| >= 2
    ensures AllRide(env, Join(s, RequesterOf(q)))
  {
    var r := RequesterOf(q);
    var rs, more := Deliverees(s), Deliverees(Join(s, r));
    assert more == rs + [r];
    forall i | 0 <= i < |more| ensures Rides(env, Join(s, r), more[i]) {
      if i < |rs| {
        assert Rides(env, s, rs[i]);
      }
    }
  }

  lemma ForwardRides(env: Env, was: Slot, q: Query, noCache: bool, exempt: bool, auth: nat, now: nat, t: nat)
    requires WellFormed(q)
    ensures AllRide(env, ForwardSlot(env, was, q, noCache, exempt, auth, now, t))
  {
  }

  // ---------- An upstream reply

  /** Some client of the flight asked a name other than the one the reply is about, that
      collides with it in both hashes. */
  ghost predicate Mixes(env: Env, s: State, pkt: seq<byte>) {
    |pkt| >= 12 &&
    var i := FindLive(s.slots, Get16(pkt, 0));
    i < |s.slots| && Matches(env, s.slots[i], pkt) &&
    exists r :: r in Deliverees(s.slots[i]) && CollideTwice(env, r.asked, Question(pkt, 12).value.0)
  }

  predicate CollideTwice(env: Env, x: seq<byte>, y: seq<byte>) {
    x != y && env.hash(x) == env.hash(y) && env.qkey(x) == env.qkey(y)
  }

  /** Every client of the flight asked what the reply is about. */
  ghost predicate AllAsked(rs: seq<Requester>, name: seq<byte>, qtype: nat) {
    forall i :: 0 <= i < |rs| ==> rs[i].asked == name && rs[i].qtype == qtype
  }

  lemma ClientsAsked(env: Env, s: State, pkt: seq<byte>, i: nat)
    requires !Mixes(env, s, pkt) && |pkt| >= 12 && i == FindLive(s.slots, Get16(pkt, 0)) && i < |s.slots|
    requires Matches(env, s.slots[i], pkt) && SlotsAsk(env, s.slots)
    ensures Question(pkt, 12).Some? && About(pkt, Question(pkt, 12).value.0, s.slots[i].qtype)
    ensures AllAsked(Deliverees(s.slots[i]), Question(pkt, 12).value.0, s.slots[i].qtype)
  {
    hide Question;
    var ue, name := s.slots[i], Question(pkt, 12).value.0;
    var rs := Deliverees(ue);
    assert AllRide(env, ue);
    forall k | 0 <= k < |rs| ensures rs[k].asked == name && rs[k].qtype == ue.qtype {
      assert Rides(env, ue, rs[k]) && rs[k] in rs;
      assert !CollideTwice(env, rs[k].asked, name);
    }
  }

  lemma {:induction false} FanOutFits(asks: seq<Requester>, tcp: Tcp, sent: seq<Delivery>, rs: seq<Requester>,
                                      p: seq<byte>, name: seq<byte>, qtype: nat)
    requires AllSentFit(asks, sent) && AllAsked(rs, name, qtype) && About(p, name, qtype)
    requires forall i :: 0 <= i < |rs| ==> rs[i].txid < 0x1_0000 && D.Known(asks, rs[i])
    ensures AllSentFit(asks, FanOut(tcp, sent, rs, p).1)
    decreases |rs|
  {
    if rs != [] {
      var w := rs[0];
      var d := DeliveryOf(w, Stamp(p, w.txid));
      StampedAbout(p, w.txid, name, qtype);
      hide About, AllSentFit, Stamp;
      assert SentFits(asks, d);
      SentMore(asks, sent, d);
      FanOutFits(asks, tcp, sent + [d], rs[1..], p, name, qtype);
      FanOutFits(asks, Close(tcp), sent + [d], rs[1..], p, name, qtype);
      FanOutFits(asks, tcp, sent, rs[1..], p, name, qtype);
    }
  }

  lemma StampedAbout(p: seq<byte>, id: nat, name: seq<byte>, qtype: nat)
    requires About(p, name, qtype) && id < 0x1_0000
    ensures About(Stamp(p, id), name, qtype) && Question(Stamp(p, id), 12) == Question(p, 12)
  {
    hide Question;
    StampFront(p, id);
    FrontKept(p, Stamp(p, id), name, qtype);
  }

  /** Scrubbed, cloaked or marked as truncated, a reply stays about its question. */
  lemma OutgoingAbout(ue: Slot, pkt: seq<byte>, listed: seq<byte> -> bool, name: seq<byte>)
    requires Question(pkt, 12).Some? && About(pkt, name, ue.qtype)
    ensures About(Outgoing(ue, pkt, listed).0, name, ue.qtype)
    ensures Question(Outgoing(ue, pkt, listed).0, 12) == Question(pkt, 12)
  {
    hide Question, Scrubbed, Cloaked, Blocked, SetTc, About, SameFront;
    AboutIsLong(pkt, name, ue.qtype);
    var qend := Question(pkt, 12).value.1;
    var p := Scrubbed(pkt);
    ScrubbedAbout(pkt, name, ue.qtype);
    BuiltFront(p[..qend], ue.qtype, 0);
    CutFront(p, Blocked(p[..qend], ue.qtype), qend);
    FrontKept(p, Blocked(p[..qend], ue.qtype), name, ue.qtype);
    TcFront(p);
    ShorterFront(p, SetTc(p), |p|, qend);
    FrontKept(p, SetTc(p), name, ue.qtype);
  }

  lemma ShorterFront(p: seq<byte>, r: seq<byte>, far: nat, end: nat)
    requires SameFront(p, r, far) && end <= far
    ensures SameFront(p, r, end)
  {
  }

  lemma TcFront(p: seq<byte>)
    requires |p| >= 3
    ensures SameFront(p, SetTc(p), |p|)
  {
  }

  lemma ScrubbedAbout(pkt: seq<byte>, name: seq<byte>, qtype: nat)
    requires About(pkt, name, qtype)
    ensures About(Scrubbed(pkt), name, qtype) && Question(Scrubbed(pkt), 12) == Question(pkt, 12)
  {
    hide Question, Scrubbed, NameText;
    ScrubStaysInNames(pkt);
    TypeUntouched(pkt);
  }

  lemma TypeUntouched(pkt: seq<byte>)
    requires Question(pkt, 12).Some?
    ensures var end := Question(pkt, 12).value.1;
            16 < end <= |pkt| && Get16(Scrubbed(pkt), end - 4) == Get16(pkt, end - 4)
  {
    var end, n := Question(pkt, 12).value.1, RecordCount(pkt);
    hide Question, Scrubbed, LabelText, LabelStarts, LowerIn, LowerLabels, OwnerText, OwnerStarts, SkipName, StepsApart;
    QuestionByLabel(pkt);
    ScrubStaysInNames(pkt);
    StartsAreApart(pkt, 12, end - 4);
    OwnersAreApart(pkt, end, n);
    assert end - 4 !in NameText(pkt) && end - 3 !in NameText(pkt);
  }

  /** What the cache learns is of the type it is stored under. */
  lemma LearnTyped(es: seq<Entry>, ue: Slot, p: seq<byte>, qend: nat, cloaked: bool, now: nat, name: seq<byte>)
    requires AllTyped(es) && AllSized(es) && About(p, name, ue.qtype) && 16 <= qend <= |p|
    ensures AllTyped(Learn(es, ue, p, qend, cloaked, now))
  {
    hide About, AllTyped, AllSized, StoreBlocked, StoreReply, RespMinTtl, HasTc;
    AboutIsLong(p, name, ue.qtype);
    BlockedTyped(es, Key(ue.qhash, ue.qtype, p[12..qend - 4]), BLOCKED_TTL, now, ue.gen, ue.auth);
    ReplyTyped(es, ue.qhash, ue.qtype, p, RespMinTtl(p, DEFAULT_TTL, TTL_MIN, TTL_MAX), now, ue.gen, ue.auth, name);
  }

  lemma AboutIsLong(p: seq<byte>, name: seq<byte>, qtype: nat)
    requires About(p, name, qtype)
    ensures |p| >= 12
  {
  }

  lemma ReplyKeeps(env: Env, s: State, pkt: seq<byte>, now: nat, busy: seq<byte> -> bool)
    requires All(env, s) && s.task.Waiting? && !Mixes(env, s, pkt)
    ensures Inv(env, OnReply(env, s, pkt, now, busy))
  {
    AllIs(env, s);
    var s' := OnReply(env, s, pkt, now, busy);
    InvIs(env, s');
    hide Inv, D.Inv, Generations.Inv, Question, Outgoing, Learn, FanOut, AllTyped, AllSized, SlotsAsk, AllSentFit,
      Matches, FindLive, Mixes, AllAsked, About, Sound;
    if |pkt| >= 12 {
      var i := FindLive(s.slots, Get16(pkt, 0));
      if i < |s.slots| && Matches(env, s.slots[i], pkt) {
        var ue := s.slots[i];
        ClientsAsked(env, s, pkt, i);
        var (name, qend) := Question(pkt, 12).value;
        var listed := Listed(env, s.cfg.version, busy);
        OutgoingLength(ue, pkt, listed);
        OutgoingAbout(ue, pkt, listed, name);
        var p, cloaked := Outgoing(ue, pkt, listed).0, Outgoing(ue, pkt, listed).1;
        Clients(env, s, i);
        FanOutFits(s.asks, s.tcp, s.sent, Deliverees(ue), p, name, ue.qtype);
        StampedAbout(p, LastId(ue), name, ue.qtype);
        LearnTyped(s.cache, ue, Stamp(p, LastId(ue)), qend, cloaked, now, name);
        SlotsUpdate(env, s.slots, i, ue.(inUse := false));
      }
    }
  }

  /** The clients of a flight are recorded, and their ids fit. */
  lemma Clients(env: Env, s: State, i: nat)
    requires All(env, s) && i < |s.slots| && s.slots[i].inUse
    ensures LastId(s.slots[i]) < 0x1_0000
    ensures var rs := Deliverees(s.slots[i]);
            forall k :: 0 <= k < |rs| ==> rs[k].txid < 0x1_0000 && D.Known(s.asks, rs[k])
  {
    hide Inv, Generations.Inv, D.AsksOk, D.AllSentOk, D.TcpOrdered, D.TxidsDistinct, D.AtMostOnce, D.Rids,
      D.TaskKnown, AllSized;
    assert IdsFit(s.slots[i]);
    assert D.OwedKnown(s.asks, s.slots[i]);
    D.SlotGone(s.slots[i], s.asks);
  }

  // ---------- Whole runs

  lemma EvictKeeps(env: Env, s: State, now: nat)
    requires Inv(env, s)
    ensures Inv(env, s.(slots := Evict(s.slots, now)))
  {
    var es := Evict(s.slots, now);
    hide Typed, SentFits, Asked;
    forall i | 0 <= i < |es| ensures AllRide(env, es[i]) {
      assert AllRide(env, s.slots[i]);
    }
  }

  lemma StepKeeps(env: Env, s: State, step: Step)
    requires All(env, s) && Possible(s, step) && (step.Reply? ==> !Mixes(env, s, step.pkt))
    ensures Inv(env, Next(env, s, step))
  {
    hide Inv, D.Inv, Generations.Inv, LookFresh, LookStale, Judge, Forward, OnReply, TakeUdp, TakeTcp, Evict, Mixes,
      Sound, Bumped, Close;
    match step
    case UdpQuery(pkt, addr, off, rw) => TakeKeeps(env, s, pkt, false, addr, off, rw);
    case TcpQuery(pkt, off, rw) => TakeKeeps(env, s, pkt, true, 0, off, rw);
    case FreshStep(now) => FreshKeeps(env, s, now);
    case StaleStep(now, t) => StaleKeeps(env, s, now, t);
    case JudgeStep(now, busy) => JudgeKeeps(env, s, now, busy);
    case ForwardStep(now, t) => ForwardKeeps(env, s, now, t);
    case Reply(pkt, now, busyFor) => ReplyKeeps(env, s, pkt, now, busyFor);
    case EvictStep(now) => EvictKeeps(env, s, now);
    case Accept => ElsewhereKeeps(env, s, Tcp(true, s.tcp.gen, false), s.cfg);
    case Hangup => ElsewhereKeeps(env, s, Close(s.tcp), s.cfg);
    case Mutate => ElsewhereKeeps(env, s, s.tcp, Next(env, s, step).cfg);
    case Bump(done) => ElsewhereKeeps(env, s, s.tcp, Bumped(s.cfg, done));
  }

  lemma ElsewhereKeeps(env: Env, s: State, t: Tcp, c: Config)
    requires Inv(env, s)
    ensures Inv(env, s.(tcp := t)) && Inv(env, s.(cfg := c))
  {
    hide AllTyped, SlotsAsk, AllSentFit, Asked;
  }

  /** No upstream reply in the run is about a name that collides in both hashes with one that
      a client of its flight asked. */
  ghost predicate NoMixup(env: Env, s: State, steps: seq<Step>)
    requires Generations.Steps(env, s, steps)
    decreases |steps|
  {
    steps == [] ||
    ((steps[0].Reply? ==> !Mixes(env, s, steps[0].pkt)) && NoMixup(env, Next(env, s, steps[0]), steps[1..]))
  }

  lemma {:induction false} RunKeeps(env: Env, s: State, steps: seq<Step>)
    requires Inv(env, s) && D.Inv(s) && Generations.Inv(env, s, true) && Generations.Steps(env, s, steps)
    requires Generations.NoCollision(env, s, steps) && NoMixup(env, s, steps)
    ensures Inv(env, Generations.After(env, s, steps))
    decreases |steps|
  {
    if steps != [] {
      hide Inv, D.Inv, Generations.Inv, Next, Possible, Sound, Mixes, Generations.Collides;
      D.LongReplies(env, s);
      D.StepKeeps(env, s, steps[0]);
      Generations.StepKeeps(env, s, steps[0], true);
      StepKeeps(env, s, steps[0]);
      RunKeeps(env, Next(env, s, steps[0]), steps[1..]);
    }
  }

  /** In every run from a start with any restored cache of well-typed replies: every answer
      sent, to any client, by any way, is about the name and the type its client asked for. */
  lemma EveryAnswerIsToItsQuestion(env: Env, es: seq<Entry>, cfg: Config, steps: seq<Step>)
    requires Generations.Unstamped(es) && Generations.ConfigOk(cfg) && Generations.RestoredAllowed(env, es) &&
             AllTyped(es)
    requires Generations.Steps(env, Generations.Start(es, cfg), steps)
    requires Generations.NoCollision(env, Generations.Start(es, cfg), steps)
    requires NoMixup(env, Generations.Start(es, cfg), steps)
    ensures var s := Generations.After(env, Generations.Start(es, cfg), steps);
            forall i :: 0 <= i < |s.sent| ==>
              s.sent[i].rid < |s.asks| &&
              About(s.sent[i].payload, s.asks[s.sent[i].rid].asked, s.asks[s.sent[i].rid].qtype)
  {
    hide D.Inv, Generations.Inv, Generations.Steps, Generations.After, About, Typed, Generations.NoCollision, NoMixup,
      Generations.Unstamped, Generations.RestoredAllowed, Generations.ConfigOk;
    var s0 := Generations.Start(es, cfg);
    Generations.StartHolds(env, es, cfg, true);
    D.StartHolds(es, cfg);
    assert Inv(env, s0);
    RunKeeps(env, s0, steps);
  }
}
