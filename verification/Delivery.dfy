/** Single-flight delivery over whole runs: every query taken is answered at most once, as
    the client asked it and under its own transaction id, whatever flights it rode. */
module Delivery {
  import opened Bytes
  import opened Domain
  import CaseScrub
  import Wire
  import opened Ttl
  import opened Replies
  import opened Cache
  import opened Upstream
  import opened Server
  import Generations

  // ---------- Where the queries are

  function RidsOf(rs: seq<Requester>): multiset<nat> {
    if rs == [] then multiset{} else RidsOf(rs[..|rs| - 1]) + multiset{rs[|rs| - 1].rid}
  }

  /** The requesters a slot owes an answer. */
  function Owed(s: Slot): seq<Requester> {
    if s.inUse then Deliverees(s) else []
  }

  function SlotRids(ss: seq<Slot>): multiset<nat> {
    if ss == [] then multiset{} else SlotRids(ss[..|ss| - 1]) + RidsOf(Owed(ss[|ss| - 1]))
  }

  function SentRids(sent: seq<Delivery>): multiset<nat> {
    if sent == [] then multiset{} else SentRids(sent[..|sent| - 1]) + multiset{sent[|sent| - 1].rid}
  }

  function TaskRids(t: Task): multiset<nat> {
    if t.Waiting? then multiset{} else multiset{t.q.rid}
  }

  /** Every query number, once for each place it is found: delivered, owed, or in hand. */
  function Rids(s: State): multiset<nat> {
    SentRids(s.sent) + SlotRids(s.slots) + TaskRids(s.task)
  }

  lemma {:induction false} SlotRidsUpdate(ss: seq<Slot>, i: nat, x: Slot)
    requires i < |ss|
    ensures SlotRids(ss[i := x]) + RidsOf(Owed(ss[i])) == SlotRids(ss) + RidsOf(Owed(x))
  {
    var n := |ss| - 1;
    hide Owed, RidsOf;
    if i == n {
      assert ss[i := x][..n] == ss[..n];
    } else {
      assert ss[i := x][..n] == ss[..n][i := x];
      SlotRidsUpdate(ss[..n], i, x);
      Regrouped(SlotRids(ss[..n][i := x]), SlotRids(ss[..n]), RidsOf(Owed(ss[n])), RidsOf(Owed(ss[i])),
                RidsOf(Owed(x)));
    }
  }

  lemma Regrouped(a': multiset<nat>, a: multiset<nat>, last: multiset<nat>, x: multiset<nat>, x': multiset<nat>)
    requires a' + x == a + x'
    ensures (a' + last) + x == (a + last) + x'
  {
    forall r ensures ((a' + last) + x)[r] == ((a + last) + x')[r] {
      assert (a' + x)[r] == (a + x')[r];
    }
  }

  lemma {:induction false} SlotRidsShrink(a: seq<Slot>, b: seq<Slot>)
    requires |a| == |b| && forall i :: 0 <= i < |a| ==> RidsOf(Owed(b[i])) <= RidsOf(Owed(a[i]))
    ensures SlotRids(b) <= SlotRids(a)
  {
    hide Owed, RidsOf;
    if a == [] {
      assert b == [];
    } else {
      var n := |a| - 1;
      var sa, sb := RidsOf(Owed(a[n])), RidsOf(Owed(b[n]));
      assert sb <= sa;
      SlotRidsShrink(a[..n], b[..n]);
      var ra, rb := SlotRids(a[..n]), SlotRids(b[..n]);
      forall r ensures (rb + sb)[r] <= (ra + sa)[r] {
        assert sb[r] <= sa[r] && rb[r] <= ra[r];
      }
      assert SlotRids(b) == rb + sb && SlotRids(a) == ra + sa;
    }
  }

  lemma RidsOfMore(rs: seq<Requester>, r: Requester)
    ensures RidsOf(rs + [r]) == RidsOf(rs) + multiset{r.rid}
  {
    assert (rs + [r])[..|rs|] == rs;
  }

  lemma {:induction false} RidsOfFirst(r: Requester, rs: seq<Requester>)
    ensures RidsOf([r] + rs) == multiset{r.rid} + RidsOf(rs)
  {
    if rs == [] {
      assert [r] + rs == [] + [r];
      RidsOfMore([], r);
    } else {
      var n := |rs| - 1;
      assert [r] + rs == ([r] + rs[..n]) + [rs[n]];
      RidsOfMore([r] + rs[..n], rs[n]);
      RidsOfFirst(r, rs[..n]);
    }
  }

  lemma SentMore(sent: seq<Delivery>, d: Delivery)
    ensures SentRids(sent + [d]) == SentRids(sent) + multiset{d.rid}
  {
    assert (sent + [d])[..|sent|] == sent;
  }

  // ---------- The invariant

  ghost predicate AsksOk(asks: seq<Requester>) {
    forall i :: 0 <= i < |asks| ==> asks[i].rid == i && asks[i].txid < 0x1_0000
  }

  /** A requester recorded as it asked. */
  ghost predicate Known(asks: seq<Requester>, r: Requester) {
    r.rid < |asks| && asks[r.rid] == r
  }

  ghost predicate OwedKnown(asks: seq<Requester>, s: Slot) {
    forall i :: 0 <= i < |Owed(s)| ==> Known(asks, Owed(s)[i])
  }

  /** A delivery to the query that asked, under the transaction id it asked with. */
  ghost predicate SentOk(asks: seq<Requester>, d: Delivery) {
    d.rid < |asks| && d.tcp == asks[d.rid].tcp && d.addr == asks[d.rid].addr && d.conn == asks[d.rid].conn &&
    |d.payload| >= 2 && Get16(d.payload, 0) == asks[d.rid].txid
  }

  ghost predicate AllSentOk(asks: seq<Requester>, sent: seq<Delivery>) {
    forall i :: 0 <= i < |sent| ==> SentOk(asks, sent[i])
  }

  /** TCP deliveries went to ever later connections, all of them closed since. */
  ghost predicate TcpOrdered(sent: seq<Delivery>, gen: nat) {
    (forall i :: 0 <= i < |sent| && sent[i].tcp ==> sent[i].conn < gen) &&
    (forall i, j :: 0 <= i < j < |sent| && sent[i].tcp && sent[j].tcp ==> sent[i].conn < sent[j].conn)
  }

  /** Ids in flight are nonzero, sixteen bits wide, and no two are the same. */
  ghost predicate TxidsDistinct(ss: seq<Slot>) {
    (forall i :: 0 <= i < |ss| && ss[i].inUse ==> 0 < ss[i].txid < 0x1_0000) &&
    (forall i, j :: 0 <= i < j < |ss| && ss[i].inUse && ss[j].inUse ==> ss[i].txid != ss[j].txid)
  }

  ghost predicate TaskKnown(s: State) {
    !s.task.Waiting? ==>
      var q := s.task.q;
      |q.pkt| >= 2 && Known(s.asks, RequesterOf(q)) && (q.tcp ==> q.conn == s.tcp.gen && s.tcp.open)
  }

  ghost predicate AtMostOnce(m: multiset<nat>) {
    forall r :: m[r] <= 1
  }

  ghost predicate SlotsKnown(asks: seq<Requester>, ss: seq<Slot>) {
    forall i :: 0 <= i < |ss| ==> OwedKnown(asks, ss[i])
  }

  ghost predicate Inv(s: State) {
    AsksOk(s.asks) && SlotsKnown(s.asks, s.slots) && AllSentOk(s.asks, s.sent) && TcpOrdered(s.sent, s.tcp.gen) &&
    TxidsDistinct(s.slots) && TaskKnown(s) && AtMostOnce(Rids(s))
  }

  lemma LessIsOnce(a: multiset<nat>, b: multiset<nat>)
    requires AtMostOnce(b) && a <= b
    ensures AtMostOnce(a)
  {
    forall r ensures a[r] <= 1 {
      assert a[r] <= b[r];
    }
  }

  // ---------- Answering the query in hand

  /** The payload carries the query's own id. */
  ghost predicate OwnId(q: Query, payload: Option<seq<byte>>) {
    |q.pkt| >= 2 && (payload.Some? ==> |payload.value| >= 2 && Get16(payload.value, 0) == Get16(q.pkt, 0))
  }

  lemma SentOkMore(asks: seq<Requester>, sent: seq<Delivery>, d: Delivery)
    requires AllSentOk(asks, sent) && SentOk(asks, d)
    ensures AllSentOk(asks, sent + [d])
  {
    hide SentOk;
  }

  lemma OrderedMore(sent: seq<Delivery>, gen: nat, d: Delivery, gen': nat)
    requires TcpOrdered(sent, gen) && gen <= gen' && (d.tcp ==> d.conn == gen && gen < gen')
    ensures TcpOrdered(sent + [d], gen')
  {
  }

  lemma OrderedLater(sent: seq<Delivery>, gen: nat, gen': nat)
    requires TcpOrdered(sent, gen) && gen <= gen'
    ensures TcpOrdered(sent, gen')
  {
  }

  lemma AnswerIs(s: State, q: Query, payload: Option<seq<byte>>)
    requires |q.pkt| >= 2
    ensures var s' := Answer(s, q, payload);
            s'.task == Waiting && s'.cache == s.cache && s'.slots == s.slots && s'.cfg == s.cfg && s'.asks == s.asks &&
            s'.tcp == (if q.tcp then Close(s.tcp) else s.tcp) &&
            s'.sent == (if payload.Some? then s.sent + [DeliveryOf(RequesterOf(q), payload.value)] else s.sent)
  {
  }

  lemma AnswerSent(asks: seq<Requester>, q: Query, payload: Option<seq<byte>>)
    requires OwnId(q, payload) && payload.Some? && Known(asks, RequesterOf(q))
    ensures var d := DeliveryOf(RequesterOf(q), payload.value);
            SentOk(asks, d) && d.rid == q.rid && d.tcp == q.tcp && d.conn == q.conn
  {
  }

  lemma RidsIs(s: State)
    ensures Rids(s) == SentRids(s.sent) + SlotRids(s.slots) + TaskRids(s.task)
  {
  }

  lemma TaskRidsIs(t: Task)
    ensures TaskRids(t) == if t.Waiting? then multiset{} else multiset{t.q.rid}
  {
  }

  lemma ClosedGen(t: Tcp)
    ensures Close(t) == Tcp(false, t.gen + 1, false)
  {
  }

  lemma AnswerKeeps(s: State, q: Query, payload: Option<seq<byte>>)
    requires Inv(s) && !s.task.Waiting? && s.task.q == q && OwnId(q, payload)
    ensures Inv(Answer(s, q, payload))
  {
    var s' := Answer(s, q, payload);
    assert |q.pkt| >= 2 && Known(s.asks, RequesterOf(q)) && (q.tcp ==> q.conn == s.tcp.gen);
    assert AllSentOk(s.asks, s.sent) && TcpOrdered(s.sent, s.tcp.gen) && AtMostOnce(Rids(s));
    AnswerIs(s, q, payload);
    ClosedGen(s.tcp);
    hide Answer, SlotRids, SentRids, Owed, SlotsKnown, TxidsDistinct, AllSentOk, TcpOrdered, AtMostOnce, SentOk,
      AsksOk, Known, DeliveryOf, RequesterOf, Rids, TaskRids, OwnId, Close;
    if payload.Some? {
      var d := DeliveryOf(RequesterOf(q), payload.value);
      AnswerSent(s.asks, q, payload);
      SentMore(s.sent, d);
      SentOkMore(s.asks, s.sent, d);
      OrderedMore(s.sent, s.tcp.gen, d, s'.tcp.gen);
    }
    OrderedLater(s.sent, s.tcp.gen, s'.tcp.gen);
    RidsIs(s);
    RidsIs(s');
    TaskRidsIs(s.task);
    TaskRidsIs(s'.task);
    assert Rids(s') <= Rids(s);
    LessIsOnce(Rids(s'), Rids(s));
  }

  lemma BuiltKeepsId(q: Query)
    requires WellFormed(q)
    ensures OwnId(q, BlockedAnswer(q)) && OwnId(q, RewrittenWithin(q.pkt[..q.qend], q.rw, TX_CAP))
    ensures OwnId(q, Some(ServFail(q)))
  {
    assert q.pkt[..q.qend][0] == q.pkt[0] && q.pkt[..q.qend][1] == q.pkt[1];
    hide RespFlags, AnswerRr;
  }

  lemma StampedId(p: seq<byte>, id: nat)
    requires |p| >= 2 && id < 0x1_0000
    ensures |Stamp(p, id)| >= 2 && Get16(Stamp(p, id), 0) == id
  {
  }

  lemma ReplayKeepsId(e: Entry, q: Query)
    requires Sized(e) && WellFormed(q) && e.respLen >= 12
    ensures OwnId(q, Some(Replay(e, q))) && OwnId(q, Some(RewriteAnswerTtls(Replay(e, q), STALE_TTL)))
  {
    var p := Replay(e, q);
    StampedId(e.resp[..e.respLen], Get16(q.pkt, 0));
    hide Stamp, RewriteTtls, Wire.SkipName;
    if Wire.SkipName(p, 12).Some? {
      var start := Wire.SkipName(p, 12).value + 4;
      RewriteKeepsFront(p, start, CaseScrub.RecordCount(p), STALE_TTL);
      SkipIsPast(p, 12);
      assert RewriteAnswerTtls(p, STALE_TTL)[0] == p[0] && RewriteAnswerTtls(p, STALE_TTL)[1] == p[1];
    }
  }

  lemma SkipIsPast(p: seq<byte>, off: nat)
    ensures Wire.SkipName(p, off).Some? ==> Wire.SkipName(p, off).value > off
  {
  }

  // ---------- Moving a query

  lemma MoveKeeps(s: State, t: Task)
    requires Inv(s) && !s.task.Waiting? && !t.Waiting? && t.q == s.task.q
    ensures Inv(s.(task := t))
  {
    hide SlotRids, SentRids, AtMostOnce, TxidsDistinct, TcpOrdered, AllSentOk, SlotsKnown, AsksOk;
  }

  lemma CacheKeeps(s: State, es: seq<Entry>, c: Config)
    requires Inv(s)
    ensures Inv(s.(cache := es)) && Inv(s.(cfg := c))
  {
    hide SlotRids, SentRids, AtMostOnce, TxidsDistinct, TcpOrdered, AllSentOk, SlotsKnown, AsksOk;
  }

  /** A slot's id after an update: gone, the same flight's, or fresh. */
  ghost predicate IdFits(ss: seq<Slot>, i: nat, x: Slot)
    requires i < |ss|
  {
    !x.inUse || (ss[i].inUse && x.txid == ss[i].txid) || Acceptable(ss, x.txid)
  }

  lemma TxidsKept(ss: seq<Slot>, i: nat, x: Slot)
    requires i < |ss| && TxidsDistinct(ss) && IdFits(ss, i, x)
    ensures TxidsDistinct(ss[i := x])
  {
    if Acceptable(ss, x.txid) {
      forall j | 0 <= j < |ss| && ss[j].inUse ensures ss[j].txid != x.txid {
        assert !Live(ss[j], x.txid);
      }
    }
  }

  lemma KnownKept(asks: seq<Requester>, ss: seq<Slot>, i: nat, x: Slot)
    requires i < |ss| && SlotsKnown(asks, ss) && OwedKnown(asks, x)
    ensures SlotsKnown(asks, ss[i := x])
  {
    hide OwedKnown;
  }

  /** A slot that owes no more than before. */
  lemma SwapKeeps(s: State, i: nat, x: Slot)
    requires Inv(s) && i < |s.slots| && IdFits(s.slots, i, x)
    requires OwedKnown(s.asks, x) && RidsOf(Owed(x)) <= RidsOf(Owed(s.slots[i]))
    ensures Inv(s.(slots := s.slots[i := x]))
  {
    var s' := s.(slots := s.slots[i := x]);
    TxidsKept(s.slots, i, x);
    KnownKept(s.asks, s.slots, i, x);
    SlotRidsUpdate(s.slots, i, x);
    RidsIs(s);
    RidsIs(s');
    hide SlotRids, SentRids, RidsOf, Owed, Rids, TxidsDistinct, TcpOrdered, AllSentOk, SlotsKnown, AsksOk, OwedKnown,
      IdFits;
    Shrinks(SlotRids(s.slots), SlotRids(s'.slots), RidsOf(Owed(s.slots[i])), RidsOf(Owed(x)));
    SumShrinks(SentRids(s.sent), SlotRids(s.slots), SlotRids(s'.slots), TaskRids(s.task));
    LessIsOnce(Rids(s'), Rids(s));
  }

  lemma Shrinks(a: multiset<nat>, a': multiset<nat>, x: multiset<nat>, x': multiset<nat>)
    requires a' + x == a + x' && x' <= x
    ensures a' <= a
  {
    forall r ensures a'[r] <= a[r] {
      assert (a' + x)[r] == (a + x')[r] && x'[r] <= x[r];
    }
  }

  lemma SumShrinks(p: multiset<nat>, a: multiset<nat>, a': multiset<nat>, q: multiset<nat>)
    requires a' <= a
    ensures p + a' + q <= p + a + q
  {
    forall r ensures (p + a' + q)[r] <= (p + a + q)[r] {
      assert a'[r] <= a[r];
    }
  }

  /** The query in hand handed over to a slot. */
  lemma HandOverKeeps(s: State, i: nat, x: Slot, held: Tcp)
    requires Inv(s) && !s.task.Waiting? && i < |s.slots| && IdFits(s.slots, i, x) && held.gen == s.tcp.gen
    requires OwedKnown(s.asks, x) && RidsOf(Owed(x)) == RidsOf(Owed(s.slots[i])) + multiset{s.task.q.rid}
    ensures Inv(s.(slots := s.slots[i := x], tcp := held, task := Waiting))
  {
    var s' := s.(slots := s.slots[i := x], tcp := held, task := Waiting);
    TxidsKept(s.slots, i, x);
    KnownKept(s.asks, s.slots, i, x);
    SlotRidsUpdate(s.slots, i, x);
    RidsIs(s);
    RidsIs(s');
    hide SlotRids, SentRids, RidsOf, Owed, Rids, TxidsDistinct, TcpOrdered, AllSentOk, SlotsKnown, AsksOk, OwedKnown,
      IdFits;
    HandedOver(SlotRids(s.slots), SlotRids(s'.slots), RidsOf(Owed(s.slots[i])), RidsOf(Owed(x)), TaskRids(s.task),
               SentRids(s.sent));
  }

  lemma HandedOver(a: multiset<nat>, a': multiset<nat>, x: multiset<nat>, x': multiset<nat>, q: multiset<nat>,
    p: multiset<nat>)
    requires a' + x == a + x' && x' == x + q
    ensures p + a' + multiset{} == p + a + q
  {
    forall r ensures (p + a' + multiset{})[r] == (p + a + q)[r] {
      assert (a' + x)[r] == (a + x')[r] && x'[r] == x[r] + q[r];
    }
  }

  // ---------- The steps of a query

  lemma MoreAsks(asks: seq<Requester>, ss: seq<Slot>, sent: seq<Delivery>, r: Requester)
    requires AsksOk(asks) && SlotsKnown(asks, ss) && AllSentOk(asks, sent) && r.rid == |asks| && r.txid < 0x1_0000
    ensures var more := asks + [r];
            AsksOk(more) && SlotsKnown(more, ss) && AllSentOk(more, sent) && Known(more, r)
  {
    var more := asks + [r];
    forall i | 0 <= i < |ss| ensures OwedKnown(more, ss[i]) {
      assert OwedKnown(asks, ss[i]);
    }
    forall i | 0 <= i < |sent| ensures SentOk(more, sent[i]) {
      assert SentOk(asks, sent[i]);
    }
  }

  lemma OneMore(m: multiset<nat>, r: nat)
    requires AtMostOnce(m) && m[r] == 0
    ensures AtMostOnce(m + multiset{r})
  {
    forall x ensures (m + multiset{r})[x] <= 1 {
      assert m[x] <= 1;
    }
  }

  lemma InvParts(s: State)
    ensures Inv(s) <==>
            AsksOk(s.asks) && SlotsKnown(s.asks, s.slots) && AllSentOk(s.asks, s.sent) &&
            TcpOrdered(s.sent, s.tcp.gen) &&
            TxidsDistinct(s.slots) && TaskKnown(s) && AtMostOnce(Rids(s))
  {
  }

  lemma TakenKnown(s: State, q: Query)
    requires |q.pkt| >= 2 && q.rid == |s.asks| && (q.tcp ==> q.conn == s.tcp.gen && s.tcp.open)
    requires Known(s.asks + [RequesterOf(q)], RequesterOf(q))
    ensures TaskKnown(s.(task := Looking(q), asks := s.asks + [RequesterOf(q)]))
    ensures RequesterOf(q).rid == |s.asks| && RequesterOf(q).txid < 0x1_0000
  {
  }

  lemma RequesterFits(q: Query)
    requires |q.pkt| >= 2
    ensures RequesterOf(q).rid == q.rid && RequesterOf(q).txid < 0x1_0000
  {
  }

  lemma TakeKeeps(s: State, q: Query)
    requires Inv(s) && s.task.Waiting? && |q.pkt| >= 2 && q.rid == |s.asks| &&
             (q.tcp ==> q.conn == s.tcp.gen && s.tcp.open)
    ensures Inv(s.(task := Looking(q), asks := s.asks + [RequesterOf(q)]))
  {
    hide *;
    var s' := s.(task := Looking(q), asks := s.asks + [RequesterOf(q)]);
    InvParts(s);
    InvParts(s');
    RequesterFits(q);
    MoreAsks(s.asks, s.slots, s.sent, RequesterOf(q));
    TakenKnown(s, q);
    RidsBelow(s);
    RidsIs(s);
    RidsIs(s');
    TaskRidsIs(s.task);
    TaskRidsIs(s'.task);
    assert Rids(s') == Rids(s) + multiset{q.rid};
    OneMore(Rids(s), q.rid);
  }

  lemma {:induction false} SentBelow(asks: seq<Requester>, sent: seq<Delivery>)
    requires AllSentOk(asks, sent)
    ensures forall r :: r in SentRids(sent) ==> r < |asks|
  {
    hide SentOk;
    if sent != [] {
      SentBelow(asks, sent[..|sent| - 1]);
      KnownRid(asks, sent[|sent| - 1]);
    }
  }

  lemma KnownRid(asks: seq<Requester>, d: Delivery)
    requires SentOk(asks, d)
    ensures d.rid < |asks|
  {
  }

  lemma {:induction false} RequestersBelow(asks: seq<Requester>, rs: seq<Requester>)
    requires forall i :: 0 <= i < |rs| ==> Known(asks, rs[i])
    ensures forall r :: r in RidsOf(rs) ==> r < |asks|
  {
    if rs != [] {
      RequestersBelow(asks, rs[..|rs| - 1]);
    }
  }

  lemma {:induction false} SlotsBelow(asks: seq<Requester>, ss: seq<Slot>)
    requires SlotsKnown(asks, ss)
    ensures forall r :: r in SlotRids(ss) ==> r < |asks|
  {
    if ss != [] {
      SlotsBelow(asks, ss[..|ss| - 1]);
      assert OwedKnown(asks, ss[|ss| - 1]);
      RequestersBelow(asks, Owed(ss[|ss| - 1]));
    }
  }

  lemma RidsBelow(s: State)
    requires SlotsKnown(s.asks, s.slots) && AllSentOk(s.asks, s.sent) && s.task.Waiting?
    ensures Rids(s)[|s.asks|] == 0
  {
    SentBelow(s.asks, s.sent);
    SlotsBelow(s.asks, s.slots);
    hide SlotRids, SentRids, SlotsKnown, AllSentOk;
    assert |s.asks| !in SentRids(s.sent) && |s.asks| !in SlotRids(s.slots);
  }

  /** Replies in the cache are longer than a header. */
  ghost predicate RepliesLong(es: seq<Entry>) {
    forall i :: 0 <= i < |es| && es[i].valid && !es[i].blocked ==> es[i].respLen >= 12
  }

  lemma FreshOutcome(env: Env, s: State, now: nat)
    requires s.task.Looking? && WellFormed(s.task.q) && AllSized(s.cache)
    ensures var q, s' := s.task.q, LookFresh(env, s, now);
            var hit := FindFresh(s.cache, CacheKey(env, q), now, s.cfg.gen);
            s' == s.(task := Judging(q)) || s' == s.(task := Staling(q)) ||
            s' == s.(task := Forwarding(q, q.off, false, s.cfg.version)) ||
            s' == Answer(s, q, BlockedAnswer(q)) ||
            (hit.Some? && !s.cache[hit.value].blocked && s' == Answer(s, q, Some(Replay(s.cache[hit.value], q))))
  {
    hide FindFresh, BlockedAnswer, Replay, Answer, CacheKey;
  }

  lemma SoundFacts(s: State)
    requires Sound(s)
    ensures AllSized(s.cache) && |s.cache| == ENTRIES && |s.slots| == SLOTS &&
            (!s.task.Waiting? ==> WellFormed(s.task.q))
    ensures forall i :: 0 <= i < |s.cache| ==> Sized(s.cache[i])
  {
  }

  lemma FreshKeeps(env: Env, s: State, now: nat)
    requires Inv(s) && Sound(s) && RepliesLong(s.cache) && s.task.Looking?
    ensures Inv(LookFresh(env, s, now))
  {
    hide *;
    SoundFacts(s);
    var q := s.task.q;
    FreshOutcome(env, s, now);
    BuiltKeepsId(q);
    MoveKeeps(s, Judging(q));
    MoveKeeps(s, Staling(q));
    MoveKeeps(s, Forwarding(q, q.off, false, s.cfg.version));
    AnswerKeeps(s, q, BlockedAnswer(q));
    var hit := FindFresh(s.cache, CacheKey(env, q), now, s.cfg.gen);
    FoundIsLong(s.cache, CacheKey(env, q), now, s.cfg.gen);
    if hit.Some? && !s.cache[hit.value].blocked {
      ReplayKeepsId(s.cache[hit.value], q);
      AnswerKeeps(s, q, Some(Replay(s.cache[hit.value], q)));
    }
  }

  lemma FoundIsLong(es: seq<Entry>, k: Key, now: nat, gen: nat)
    requires |es| == ENTRIES && RepliesLong(es)
    ensures var f := FindFresh(es, k, now, gen);
            f.Some? ==> f.value < |es| && (es[f.value].blocked || es[f.value].respLen >= 12)
    ensures var f := FindStale(es, k, now, gen);
            f.Some? ==> f.value < |es| && es[f.value].respLen >= 12
  {
  }

  lemma StaleOutcome(env: Env, s: State, now: nat, t: nat)
    requires s.task.Staling? && WellFormed(s.task.q) && AllSized(s.cache)
    ensures var q, s' := s.task.q, LookStale(env, s, now, t);
            var hit := FindStale(s.cache, CacheKey(env, q), now, s.cfg.gen);
            s' == s.(task := Judging(q)) ||
            (hit.Some? &&
             var (e, spare) := (s.cache[hit.value], FirstFree(s.slots));
             var a := Answer(s, q, Some(RewriteAnswerTtls(Replay(e, q), STALE_TTL)));
             s' == a.(cache := s'.cache) ||
             (spare < |s.slots| &&
              s' == a.(cache := s'.cache, slots := s.slots[spare := RefreshSlot(env, s.slots[spare], q, e, now, t)])))
  {
    hide FindStale, RewriteAnswerTtls, Replay, FindAsking, FirstFree, RefreshSlot, CacheKey;
  }

  lemma StaleKeeps(env: Env, s: State, now: nat, t: nat)
    requires Inv(s) && Sound(s) && RepliesLong(s.cache) && s.task.Staling? && Acceptable(s.slots, t)
    ensures Inv(LookStale(env, s, now, t))
  {
    assert ENTRIES == 2048 && STALE_TTL <= NO_TTL;
    hide *;
    SoundFacts(s);
    var q, s' := s.task.q, LookStale(env, s, now, t);
    StaleOutcome(env, s, now, t);
    MoveKeeps(s, Judging(q));
    var hit := FindStale(s.cache, CacheKey(env, q), now, s.cfg.gen);
    FoundIsLong(s.cache, CacheKey(env, q), now, s.cfg.gen);
    FormedIsLong(q);
    if hit.Some? {
      var e := s.cache[hit.value];
      ReplayKeepsId(e, q);
      var payload := Some(RewriteAnswerTtls(Replay(e, q), STALE_TTL));
      AnswerKeeps(s, q, payload);
      var a := Answer(s, q, payload);
      AnswerIs(s, q, payload);
      CacheKeeps(a, s'.cache, s.cfg);
      var spare := FirstFree(s.slots);
      if spare < |s.slots| {
        var x := RefreshSlot(env, s.slots[spare], q, e, now, t);
        RefreshOwesNobody(env, s.slots, spare, q, e, now, t, s.asks);
        SwapKeeps(a.(cache := s'.cache), spare, x);
      }
    }
  }

  lemma FormedIsLong(q: Query)
    ensures WellFormed(q) ==> |q.pkt| >= 2
  {
  }

  lemma RefreshOwesNobody(env: Env, ss: seq<Slot>, i: nat, q: Query, e: Entry, now: nat, t: nat, asks: seq<Requester>)
    requires i < |ss| && WellFormed(q) && Acceptable(ss, t)
    ensures var x := RefreshSlot(env, ss[i], q, e, now, t);
            IdFits(ss, i, x) && OwedKnown(asks, x) && RidsOf(Owed(x)) <= RidsOf(Owed(ss[i]))
  {
    hide Acceptable;
  }

  lemma JudgeOutcome(env: Env, s: State, now: nat, busy: bool)
    requires s.task.Judging? && WellFormed(s.task.q) && AllSized(s.cache)
    ensures var q, s' := s.task.q, Judge(env, s, now, busy);
            s' == Answer(s, q, RewrittenWithin(q.pkt[..q.qend], q.rw, TX_CAP)) ||
            s' == Answer(s.(cache := s'.cache), q, BlockedAnswer(q)) ||
            (s'.task.Forwarding? && s'.task.q == q && s' == s.(cache := s'.cache, task := s'.task))
  {
    hide StoreBlocked, BlockedAnswer, RewrittenWithin, CacheKey, Socket;
  }

  lemma FormedFits(q: Query)
    requires WellFormed(q)
    ensures 12 <= q.qend <= |q.pkt| && q.rw <= NO_TTL
  {
  }

  lemma JudgeKeeps(env: Env, s: State, now: nat, busy: bool)
    requires Inv(s) && Sound(s) && s.task.Judging?
    ensures Inv(Judge(env, s, now, busy))
  {
    hide *;
    SoundFacts(s);
    var q, s' := s.task.q, Judge(env, s, now, busy);
    FormedFits(q);
    BuiltKeepsId(q);
    JudgeOutcome(env, s, now, busy);
    AnswerKeeps(s, q, RewrittenWithin(q.pkt[..q.qend], q.rw, TX_CAP));
    CacheKeeps(s, s'.cache, s.cfg);
    AnswerKeeps(s.(cache := s'.cache), q, BlockedAnswer(q));
    if s'.task.Forwarding? && s'.task.q == q {
      MoveKeeps(s.(cache := s'.cache), s'.task);
    }
  }

  lemma JoinOwes(s: Slot, r: Requester, asks: seq<Requester>)
    requires s.inUse && !s.refreshOnly && OwedKnown(asks, s) && Known(asks, r)
    ensures RidsOf(Owed(Join(s, r))) == RidsOf(Owed(s)) + multiset{r.rid} && OwedKnown(asks, Join(s, r))
  {
    assert Owed(Join(s, r)) == Owed(s) + [r];
    RidsOfMore(Owed(s), r);
  }

  lemma ForwardOwes(env: Env, was: Slot, q: Query, noCache: bool, exempt: bool, auth: nat, now: nat, t: nat,
    asks: seq<Requester>)
    requires WellFormed(q) && !was.inUse && Known(asks, RequesterOf(q))
    ensures var x := ForwardSlot(env, was, q, noCache, exempt, auth, now, t);
            RidsOf(Owed(x)) == RidsOf(Owed(was)) + multiset{q.rid} && OwedKnown(asks, x) && x.inUse && x.txid == t
  {
    var x := ForwardSlot(env, was, q, noCache, exempt, auth, now, t);
    assert Owed(x) == [] + [RequesterOf(q)];
    RidsOfMore([], RequesterOf(q));
  }

  lemma DropKeeps(s: State)
    requires Inv(s) && !s.task.Waiting?
    ensures Inv(s.(task := Waiting))
  {
    var s' := s.(task := Waiting);
    RidsIs(s);
    RidsIs(s');
    hide SlotRids, SentRids, TxidsDistinct, TcpOrdered, AllSentOk, SlotsKnown, AsksOk, Rids;
    assert Rids(s') <= Rids(s);
    LessIsOnce(Rids(s'), Rids(s));
  }

  /** A flight that delivers, and asks what q asks as far as the hashes tell. */
  ghost predicate AsksAlike(env: Env, q: Query, s: Slot) {
    s.inUse && !s.refreshOnly && s.qhash == env.hash(q.name) && s.qkey == env.qkey(q.name) && s.qtype == q.qtype
  }

  /** Where a forwarded query ends up: on a flight, in a new one, refused, or dropped. */
  ghost predicate ForwardedTo(env: Env, s: State, s': State, now: nat, t: nat)
    requires s.task.Forwarding? && WellFormed(s.task.q)
  {
    var Forwarding(q, noCache, exempt, auth) := s.task;
    var held := if q.tcp then s.tcp.(awaiting := true) else s.tcp;
    (exists j: nat :: j < |s.slots| && AsksAlike(env, q, s.slots[j]) &&
                      s' == s.(slots := s.slots[j := Join(s.slots[j], RequesterOf(q))],
                               tcp := held, task := Waiting)) ||
    s' == Answer(s, q, Some(ServFail(q))) || s' == s.(task := Waiting) ||
    (exists k: nat :: k < |s.slots| && !s.slots[k].inUse &&
                      s' == s.(slots := s.slots[k := ForwardSlot(env, s.slots[k], q, noCache, exempt, auth, now, t)],
                               tcp := held, task := Waiting))
  }

  lemma ForwardOutcome(env: Env, s: State, now: nat, t: nat)
    requires s.task.Forwarding? && WellFormed(s.task.q)
    ensures ForwardedTo(env, s, Forward(env, s, now, t), now, t)
  {
    var Forwarding(q, noCache, exempt, auth) := s.task;
    var j := FindJoinable(s.slots, env.hash(q.name), env.qkey(q.name), q.qtype, env.envelope(q.pkt, q.qend), now);
    var k := FirstFree(s.slots);
    assert j < |s.slots| ==> AsksAlike(env, q, s.slots[j]);
    assert k < |s.slots| ==> !s.slots[k].inUse;
    hide FindJoinable, FirstFree, Join, ForwardSlot, ServFail, Answer;
  }

  lemma JoinKeeps(s: State, j: nat, held: Tcp)
    requires Inv(s) && !s.task.Waiting? && WellFormed(s.task.q) && j < |s.slots| && held.gen == s.tcp.gen
    requires s.slots[j].inUse && !s.slots[j].refreshOnly
    ensures Inv(s.(slots := s.slots[j := Join(s.slots[j], RequesterOf(s.task.q))], tcp := held, task := Waiting))
  {
    hide *;
    FormedFits(s.task.q);
    var r := RequesterOf(s.task.q);
    InHand(s);
    SlotKnown(s, j);
    JoinOwes(s.slots[j], r, s.asks);
    JoinKeepsId(s.slots, j, r);
    HandOverKeeps(s, j, Join(s.slots[j], r), held);
  }

  lemma LaunchKeeps(env: Env, s: State, k: nat, now: nat, t: nat, held: Tcp)
    requires Inv(s) && s.task.Forwarding? && WellFormed(s.task.q) && k < |s.slots| && held.gen == s.tcp.gen
    requires !s.slots[k].inUse && Acceptable(s.slots, t)
    ensures var Forwarding(q, noCache, exempt, auth) := s.task;
            Inv(s.(slots := s.slots[k := ForwardSlot(env, s.slots[k], q, noCache, exempt, auth, now, t)],
                   tcp := held, task := Waiting))
  {
    hide *;
    var Forwarding(q, noCache, exempt, auth) := s.task;
    var x := ForwardSlot(env, s.slots[k], q, noCache, exempt, auth, now, t);
    InHand(s);
    SlotKnown(s, k);
    ForwardOwes(env, s.slots[k], q, noCache, exempt, auth, now, t, s.asks);
    FreshIdFits(s.slots, k, x);
    HandOverKeeps(s, k, x, held);
  }

  /** The query in hand is one that was taken. */
  lemma InHand(s: State)
    requires Inv(s) && !s.task.Waiting? && WellFormed(s.task.q)
    ensures Known(s.asks, RequesterOf(s.task.q)) && RequesterOf(s.task.q).rid == s.task.q.rid
  {
    hide Known, AsksOk, SlotsKnown, AllSentOk, TcpOrdered, TxidsDistinct, AtMostOnce;
  }

  lemma SlotKnown(s: State, i: nat)
    requires Inv(s) && i < |s.slots|
    ensures OwedKnown(s.asks, s.slots[i])
  {
    hide AsksOk, OwedKnown, AllSentOk, TcpOrdered, TxidsDistinct, AtMostOnce, TaskKnown;
  }

  lemma ForwardKeeps(env: Env, s: State, now: nat, t: nat)
    requires Inv(s) && Sound(s) && s.task.Forwarding? && Acceptable(s.slots, t)
    ensures Inv(Forward(env, s, now, t))
  {
    hide Inv, Sound, Forward, Join, ForwardSlot, Answer, ServFail, BlockedAnswer, RewrittenWithin, OwnId, Acceptable,
      RequesterOf, WellFormed, AllSized, Sized;
    SoundFacts(s);
    var Forwarding(q, noCache, exempt, auth) := s.task;
    var s', held := Forward(env, s, now, t), if q.tcp then s.tcp.(awaiting := true) else s.tcp;
    FormedFits(q);
    BuiltKeepsId(q);
    AnswerKeeps(s, q, Some(ServFail(q)));
    DropKeeps(s);
    ForwardOutcome(env, s, now, t);
    if j: nat :| j < |s.slots| && AsksAlike(env, q, s.slots[j]) &&
                 s' == s.(slots := s.slots[j := Join(s.slots[j], RequesterOf(q))], tcp := held, task := Waiting) {
      JoinKeeps(s, j, held);
    } else if s' == Answer(s, q, Some(ServFail(q))) || s' == s.(task := Waiting) {
    } else {
      var k: nat :| k < |s.slots| && !s.slots[k].inUse &&
                    s' == s.(slots := s.slots[k := ForwardSlot(env, s.slots[k], q, noCache, exempt, auth, now, t)],
                             tcp := held, task := Waiting);
      LaunchKeeps(env, s, k, now, t, held);
    }
  }

  lemma JoinKeepsId(ss: seq<Slot>, i: nat, r: Requester)
    requires i < |ss| && ss[i].inUse
    ensures IdFits(ss, i, Join(ss[i], r))
  {
  }

  lemma FreshIdFits(ss: seq<Slot>, i: nat, x: Slot)
    requires i < |ss| && Acceptable(ss, x.txid)
    ensures IdFits(ss, i, x)
  {
  }

  // ---------- An upstream reply

  lemma StampedOk(asks: seq<Requester>, w: Requester, p: seq<byte>)
    requires Known(asks, w) && |p| >= 2 && w.txid < 0x1_0000
    ensures SentOk(asks, DeliveryOf(w, Stamp(p, w.txid)))
  {
    hide Stamp;
    StampedId(p, w.txid);
  }

  /** What the fan-out keeps: what is delivered was owed, to the query that asked, and TCP
      only on the connection that is open and asked. */
  lemma {:induction false} FanOutKeeps(asks: seq<Requester>, tcp: Tcp, sent: seq<Delivery>, rs: seq<Requester>,
                                       p: seq<byte>)
    requires AllSentOk(asks, sent) && TcpOrdered(sent, tcp.gen) && |p| >= 2
    requires forall i :: 0 <= i < |rs| ==> rs[i].txid < 0x1_0000 && Known(asks, rs[i])
    ensures var (tcp', sent') := FanOut(tcp, sent, rs, p);
            AllSentOk(asks, sent') && TcpOrdered(sent', tcp'.gen) && tcp.gen <= tcp'.gen &&
            SentRids(sent') <= SentRids(sent) + RidsOf(rs)
    decreases |rs|
  {
    if rs != [] {
      hide AllSentOk, TcpOrdered, SentOk, Known, SentRids, RidsOf, Stamp;
      var w := rs[0];
      var d := DeliveryOf(w, Stamp(p, w.txid));
      assert rs == [w] + rs[1..];
      RidsOfFirst(w, rs[1..]);
      SentMore(sent, d);
      StampedOk(asks, w, p);
      SentOkMore(asks, sent, d);
      ClosedGen(tcp);
      if !w.tcp {
        OrderedMore(sent, tcp.gen, d, tcp.gen);
        FanOutKeeps(asks, tcp, sent + [d], rs[1..], p);
      } else if tcp.open && tcp.awaiting && w.conn == tcp.gen {
        OrderedMore(sent, tcp.gen, d, Close(tcp).gen);
        FanOutKeeps(asks, Close(tcp), sent + [d], rs[1..], p);
      } else {
        FanOutKeeps(asks, tcp, sent, rs[1..], p);
      }
    }
  }

  /** What a reply can do: nothing, or one fan-out, after which its slot owes nobody. */
  lemma ReplyOutcome(env: Env, s: State, pkt: seq<byte>, now: nat, busy: seq<byte> -> bool)
    requires AllSized(s.cache) && forall i :: 0 <= i < |s.slots| ==> IdsFit(s.slots[i])
    ensures var s' := OnReply(env, s, pkt, now, busy);
            s' == s ||
            exists i: nat, p: seq<byte> ::
              i < |s.slots| && s.slots[i].inUse && |p| >= 2 && Fanned(s, s', i, p)
  {
    hide FindLive, Matches, Outgoing, FanOut, Learn, Socket, Question;
    if |pkt| >= 12 {
      var i := FindLive(s.slots, Get16(pkt, 0));
      if i < |s.slots| && Matches(env, s.slots[i], pkt) {
        MatchingParses(env, s.slots[i], pkt);
        var listed := Listed(env, s.cfg.version, busy);
        OutgoingLength(s.slots[i], pkt, listed);
        assert IdsFit(s.slots[i]);
        assert Fanned(s, OnReply(env, s, pkt, now, busy), i, Outgoing(s.slots[i], pkt, listed).0);
      }
    }
  }

  lemma MatchingParses(env: Env, ue: Slot, pkt: seq<byte>)
    requires Matches(env, ue, pkt)
    ensures Question(pkt, 12).Some?
  {
  }

  ghost predicate Fanned(s: State, s': State, i: nat, p: seq<byte>) {
    i < |s.slots| && IdsFit(s.slots[i]) &&
    var (tcp, sent) := FanOut(s.tcp, s.sent, Deliverees(s.slots[i]), p);
    s' == s.(cache := s'.cache, tcp := tcp, sent := sent, slots := s.slots[i := s.slots[i].(inUse := false)])
  }

  lemma SlotGone(s: Slot, asks: seq<Requester>)
    requires s.inUse && OwedKnown(asks, s)
    ensures Owed(s) == Deliverees(s) && Owed(s.(inUse := false)) == [] && OwedKnown(asks, s.(inUse := false))
    ensures RidsOf([]) == multiset{} && forall i :: 0 <= i < |Deliverees(s)| ==> Known(asks, Deliverees(s)[i])
  {
    forall i | 0 <= i < |Deliverees(s)| ensures Known(asks, Deliverees(s)[i]) {
      assert Known(asks, Owed(s)[i]);
    }
  }

  lemma Released(sent: multiset<nat>, sent': multiset<nat>, slots: multiset<nat>, slots': multiset<nat>,
                 x: multiset<nat>)
    requires slots' + x == slots + multiset{} && sent' <= sent + x
    ensures sent' + slots' + multiset{} <= sent + slots + multiset{}
  {
    forall r ensures (sent' + slots' + multiset{})[r] <= (sent + slots + multiset{})[r] {
      assert (slots' + x)[r] == (slots + multiset{})[r];
      assert sent'[r] <= (sent + x)[r];
    }
  }

  lemma FannedKeeps(s: State, s': State, i: nat, p: seq<byte>)
    requires Inv(s) && s.task.Waiting? && i < |s.slots| && s.slots[i].inUse && |p| >= 2 && Fanned(s, s', i, p)
    ensures Inv(s')
  {
    var ue := s.slots[i];
    var rs := Deliverees(ue);
    assert OwedKnown(s.asks, ue);
    SlotGone(ue, s.asks);
    FanOutKeeps(s.asks, s.tcp, s.sent, rs, p);
    var x := ue.(inUse := false);
    TxidsKept(s.slots, i, x);
    KnownKept(s.asks, s.slots, i, x);
    SlotRidsUpdate(s.slots, i, x);
    RidsIs(s);
    RidsIs(s');
    hide SlotRids, SentRids, RidsOf, Owed, Rids, TxidsDistinct, TcpOrdered, AllSentOk, SlotsKnown, AsksOk, OwedKnown,
      IdFits, FanOut;
    Released(SentRids(s.sent), SentRids(s'.sent), SlotRids(s.slots), SlotRids(s'.slots), RidsOf(rs));
    LessIsOnce(Rids(s'), Rids(s));
  }

  lemma ReplyKeeps(env: Env, s: State, pkt: seq<byte>, now: nat, busy: seq<byte> -> bool)
    requires Inv(s) && Sound(s) && s.task.Waiting?
    ensures Inv(OnReply(env, s, pkt, now, busy))
  {
    ReplyOutcome(env, s, pkt, now, busy);
    var s' := OnReply(env, s, pkt, now, busy);
    hide Inv, OnReply, Fanned;
    if s' != s {
      var i: nat, p: seq<byte> :| i < |s.slots| && s.slots[i].inUse && |p| >= 2 && Fanned(s, s', i, p);
      FannedKeeps(s, s', i, p);
    }
  }

  // ---------- Evictions and connections

  lemma EvictOwesLess(s: Slot, now: nat, asks: seq<Requester>)
    requires OwedKnown(asks, s)
    ensures RidsOf(Owed(EvictOne(s, now))) <= RidsOf(Owed(s)) && OwedKnown(asks, EvictOne(s, now))
  {
  }

  lemma EvictedTxids(ss: seq<Slot>, now: nat)
    requires TxidsDistinct(ss)
    ensures TxidsDistinct(Evict(ss, now))
  {
    var es := Evict(ss, now);
    assert forall i :: 0 <= i < |ss| ==> es[i] == EvictOne(ss[i], now);
    hide Evict;
  }

  /** Slot for slot, es owes no more than ss, and only what is known. */
  ghost predicate OwesLess(asks: seq<Requester>, ss: seq<Slot>, es: seq<Slot>) {
    |es| == |ss| && forall i :: 0 <= i < |ss| ==> RidsOf(Owed(es[i])) <= RidsOf(Owed(ss[i])) && OwedKnown(asks, es[i])
  }

  lemma EvictedOweLess(asks: seq<Requester>, ss: seq<Slot>, now: nat)
    requires SlotsKnown(asks, ss)
    ensures OwesLess(asks, ss, Evict(ss, now))
  {
    hide OwedKnown, RidsOf, Owed, EvictOne;
    var es := Evict(ss, now);
    forall i | 0 <= i < |ss| ensures RidsOf(Owed(es[i])) <= RidsOf(Owed(ss[i])) && OwedKnown(asks, es[i]) {
      EvictOwesLess(ss[i], now, asks);
    }
  }

  lemma OwingLess(asks: seq<Requester>, ss: seq<Slot>, es: seq<Slot>)
    requires OwesLess(asks, ss, es)
    ensures SlotsKnown(asks, es) && SlotRids(es) <= SlotRids(ss)
  {
    hide OwedKnown, RidsOf, Owed, SlotRids;
    SlotRidsShrink(ss, es);
  }

  lemma EvictedSlots(asks: seq<Requester>, ss: seq<Slot>, now: nat)
    requires SlotsKnown(asks, ss) && TxidsDistinct(ss)
    ensures SlotsKnown(asks, Evict(ss, now)) && TxidsDistinct(Evict(ss, now))
    ensures SlotRids(Evict(ss, now)) <= SlotRids(ss)
  {
    hide *;
    EvictedTxids(ss, now);
    EvictedOweLess(asks, ss, now);
    OwingLess(asks, ss, Evict(ss, now));
  }

  lemma EvictKeeps(s: State, now: nat)
    requires Inv(s) && s.task.Waiting?
    ensures Inv(s.(slots := Evict(s.slots, now)))
  {
    hide *;
    var s' := s.(slots := Evict(s.slots, now));
    InvParts(s);
    InvParts(s');
    EvictedSlots(s.asks, s.slots, now);
    WaitingKnown(s');
    RidsIs(s);
    RidsIs(s');
    SumShrinks(SentRids(s.sent), SlotRids(s.slots), SlotRids(s'.slots), TaskRids(s.task));
    LessIsOnce(Rids(s'), Rids(s));
  }

  lemma WaitingKnown(s: State)
    requires s.task.Waiting?
    ensures TaskKnown(s)
  {
  }

  lemma TcpKeeps(s: State, t: Tcp)
    requires Inv(s) && s.task.Waiting? && s.tcp.gen <= t.gen
    ensures Inv(s.(tcp := t))
  {
    OrderedLater(s.sent, s.tcp.gen, t.gen);
    hide TcpOrdered, SentRids, SlotRids, AllSentOk, SlotsKnown, AsksOk, TxidsDistinct, AtMostOnce;
  }

  lemma StepKeeps(env: Env, s: State, step: Step)
    requires Inv(s) && Sound(s) && Possible(s, step) && RepliesLong(s.cache)
    ensures Inv(Next(env, s, step))
  {
    hide Inv, LookFresh, LookStale, Judge, Forward, OnReply, Evict, Question, Sound, RepliesLong;
    match step
    case UdpQuery(pkt, addr, off, rw) =>
      if Parsed(pkt).Some? {
        TakeKeeps(s, QueryOf(pkt, false, addr, 0, off, rw, s.cfg.gen, |s.asks|));
      }
    case TcpQuery(pkt, off, rw) =>
      TcpKeeps(s, Close(s.tcp));
      if Parsed(pkt).Some? {
        TakeKeeps(s, QueryOf(pkt, true, 0, s.tcp.gen, off, rw, s.cfg.gen, |s.asks|));
      }
    case FreshStep(now) => FreshKeeps(env, s, now);
    case StaleStep(now, t) => StaleKeeps(env, s, now, t);
    case JudgeStep(now, busy) => JudgeKeeps(env, s, now, busy);
    case ForwardStep(now, t) => ForwardKeeps(env, s, now, t);
    case Reply(pkt, now, busyFor) => ReplyKeeps(env, s, pkt, now, busyFor);
    case EvictStep(now) => EvictKeeps(s, now);
    case Accept => TcpKeeps(s, Tcp(true, s.tcp.gen, false));
    case Hangup => TcpKeeps(s, Close(s.tcp));
    case Mutate => CacheKeeps(s, s.cache, Next(env, s, step).cfg);
    case Bump(done) => CacheKeeps(s, s.cache, Bumped(s.cfg, done));
  }

  // ---------- Whole runs

  lemma LongReplies(env: Env, s: State)
    requires Generations.Inv(env, s, false)
    ensures RepliesLong(s.cache)
  {
    hide WellPlaced, Generations.StampOk;
    forall i | 0 <= i < |s.cache| && s.cache[i].valid && !s.cache[i].blocked ensures s.cache[i].respLen >= 12 {
      assert Generations.EntryOk(env, s.cfg, s.cache[i], false);
    }
  }

  lemma {:induction false} RunKeeps(env: Env, s: State, steps: seq<Step>)
    requires Inv(s) && Generations.Inv(env, s, false) && Generations.Steps(env, s, steps)
    ensures Inv(Generations.After(env, s, steps))
    decreases |steps|
  {
    if steps != [] {
      hide Inv, Next, Possible, Sound, Generations.Inv;
      LongReplies(env, s);
      StepKeeps(env, s, steps[0]);
      Generations.StepKeeps(env, s, steps[0], false);
      RunKeeps(env, Next(env, s, steps[0]), steps[1..]);
    }
  }

  lemma StartHolds(es: seq<Entry>, cfg: Config)
    ensures Inv(Generations.Start(es, cfg))
  {
    var s := Generations.Start(es, cfg);
    NothingOwed(s.slots);
    RidsIs(s);
  }

  lemma {:induction false} NothingOwed(ss: seq<Slot>)
    requires forall i :: 0 <= i < |ss| ==> !ss[i].inUse
    ensures SlotRids(ss) == multiset{}
  {
    if ss != [] {
      NothingOwed(ss[..|ss| - 1]);
    }
  }

  lemma {:induction false} SentOccurs(sent: seq<Delivery>, i: nat)
    requires i < |sent|
    ensures SentRids(sent)[sent[i].rid] >= 1
  {
    if i < |sent| - 1 {
      SentOccurs(sent[..|sent| - 1], i);
    }
  }

  lemma {:induction false} SentTwice(sent: seq<Delivery>, i: nat, j: nat)
    requires i < j < |sent| && sent[i].rid == sent[j].rid
    ensures SentRids(sent)[sent[i].rid] >= 2
  {
    if j < |sent| - 1 {
      SentTwice(sent[..|sent| - 1], i, j);
    } else {
      SentOccurs(sent[..|sent| - 1], i);
    }
  }

  /** What holds of the deliveries in every reachable state. */
  ghost predicate Delivered(s: State) {
    // each query at most once, and while it is owed an answer it has had none
    (forall i, j :: 0 <= i < j < |s.sent| ==> s.sent[i].rid != s.sent[j].rid) &&
    (forall i, a :: 0 <= i < |s.sent| && 0 <= a < |s.slots| ==> s.sent[i].rid !in RidsOf(Owed(s.slots[a]))) &&
    // to the client that asked, on the connection that asked, under the id it asked with
    (forall i :: 0 <= i < |s.sent| ==> SentOk(s.asks, s.sent[i])) &&
    // at most one delivery per TCP connection, and none to the one open now
    (forall i, j :: 0 <= i < j < |s.sent| && s.sent[i].tcp && s.sent[j].tcp ==> s.sent[i].conn != s.sent[j].conn) &&
    (forall i :: 0 <= i < |s.sent| && s.sent[i].tcp ==> s.sent[i].conn != s.tcp.gen)
  }

  lemma {:induction false} OwedOccurs(ss: seq<Slot>, a: nat, r: nat)
    requires a < |ss| && r in RidsOf(Owed(ss[a]))
    ensures SlotRids(ss)[r] >= 1
  {
    hide Owed, RidsOf;
    if a < |ss| - 1 {
      OwedOccurs(ss[..|ss| - 1], a, r);
    }
  }

  lemma InvDelivers(s: State)
    requires Inv(s)
    ensures Delivered(s)
  {
    RidsIs(s);
    forall i, j | 0 <= i < j < |s.sent| ensures s.sent[i].rid != s.sent[j].rid {
      var r := s.sent[i].rid;
      assert Rids(s)[r] <= 1 && SentRids(s.sent)[r] <= Rids(s)[r];
      if s.sent[j].rid == r {
        SentTwice(s.sent, i, j);
      }
    }
    forall i, a | 0 <= i < |s.sent| && 0 <= a < |s.slots| ensures s.sent[i].rid !in RidsOf(Owed(s.slots[a])) {
      var r := s.sent[i].rid;
      assert Rids(s)[r] <= 1 && SentRids(s.sent)[r] + SlotRids(s.slots)[r] <= Rids(s)[r];
      SentOccurs(s.sent, i);
      if r in RidsOf(Owed(s.slots[a])) {
        OwedOccurs(s.slots, a, r);
      }
    }
    hide SentOk, RidsOf, Owed, SentRids, SlotRids, AtMostOnce, SlotsKnown, TxidsDistinct;
  }

  /** In every run: each query is answered at most once, as its client asked it; each TCP
      connection gets at most one answer; and ids in flight are nonzero and distinct. */
  lemma EveryRunDelivers(env: Env, s0: State, steps: seq<Step>)
    requires Inv(s0) && Generations.Inv(env, s0, false) && Generations.Steps(env, s0, steps)
    ensures var s := Generations.After(env, s0, steps);
            Delivered(s) && TxidsDistinct(s.slots)
  {
    RunKeeps(env, s0, steps);
    InvDelivers(Generations.After(env, s0, steps));
    hide Delivered;
  }

  /** No step of the run gives the id to a new flight. */
  ghost predicate NotReissued(steps: seq<Step>, id: nat) {
    forall i {:trigger steps[i]} :: 0 <= i < |steps| ==> !Issues(steps[i], id)
  }

  predicate Issues(step: Step, id: nat) {
    (step.StaleStep? || step.ForwardStep?) && step.t == id
  }

  lemma SlotSwapped(ss: seq<Slot>, i: nat, x: Slot, id: nat)
    requires i < |ss| && !Taken(ss, id) && !Live(x, id)
    ensures !Taken(ss[i := x], id)
  {
    var r := ss[i := x];
    forall j | 0 <= j < |r| ensures !Live(r[j], id) {
      assert !Live(ss[j], id);
    }
  }

  lemma ForwardFreesId(env: Env, s: State, now: nat, t: nat, id: nat)
    requires Sound(s) && s.task.Forwarding? && !Taken(s.slots, id) && t != id
    ensures !Taken(Forward(env, s, now, t).slots, id)
  {
    SoundFacts(s);
    ForwardOutcome(env, s, now, t);
    var Forwarding(q, noCache, exempt, auth) := s.task;
    var s' := Forward(env, s, now, t);
    hide Forward, ServFail, Taken, AsksAlike, Sound, RequesterOf;
    if j: nat :| j < |s.slots| && s'.slots == s.slots[j := Join(s.slots[j], RequesterOf(q))] {
      NotLive(s.slots, j, id);
      SlotSwapped(s.slots, j, Join(s.slots[j], RequesterOf(q)), id);
    } else if k: nat :| k < |s.slots| &&
                        s'.slots == s.slots[k := ForwardSlot(env, s.slots[k], q, noCache, exempt, auth, now, t)] {
      SlotSwapped(s.slots, k, ForwardSlot(env, s.slots[k], q, noCache, exempt, auth, now, t), id);
    }
  }

  lemma NotLive(ss: seq<Slot>, i: nat, id: nat)
    requires i < |ss| && !Taken(ss, id)
    ensures !Live(ss[i], id)
  {
  }

  lemma StaleFreesId(env: Env, s: State, now: nat, t: nat, id: nat)
    requires Sound(s) && s.task.Staling? && !Taken(s.slots, id) && t != id
    ensures !Taken(LookStale(env, s, now, t).slots, id)
  {
    SoundFacts(s);
    Generations.StaleOutcome(env, s, now, t);
    hide LookStale, Taken, Sound, FindStale, CacheKey, FirstFree;
    var k, s' := FirstFree(s.slots), LookStale(env, s, now, t);
    if s'.slots != s.slots {
      var q := s.task.q;
      var e := s.cache[FindStale(s.cache, CacheKey(env, q), now, s.cfg.gen).value];
      SlotSwapped(s.slots, k, RefreshSlot(env, s.slots[k], q, e, now, t), id);
    }
  }

  lemma ReplyFreesId(env: Env, s: State, pkt: seq<byte>, now: nat, busy: seq<byte> -> bool, id: nat)
    requires Sound(s) && !Taken(s.slots, id)
    ensures !Taken(OnReply(env, s, pkt, now, busy).slots, id)
  {
    ReplyOutcome(env, s, pkt, now, busy);
    var s' := OnReply(env, s, pkt, now, busy);
    hide OnReply, Taken, Sound, FanOut;
    if s' != s {
      var i: nat, p: seq<byte> :| i < |s.slots| && s.slots[i].inUse && |p| >= 2 && Fanned(s, s', i, p);
      SlotSwapped(s.slots, i, s.slots[i].(inUse := false), id);
    }
  }

  lemma EvictFreesId(ss: seq<Slot>, now: nat, id: nat)
    requires !Taken(ss, id)
    ensures !Taken(Evict(ss, now), id)
  {
    var es := Evict(ss, now);
    forall i | 0 <= i < |es| ensures !Live(es[i], id) {
      assert !Live(ss[i], id);
    }
  }

  lemma FreshSlots(env: Env, s: State, now: nat)
    requires Sound(s) && s.task.Looking?
    ensures LookFresh(env, s, now).slots == s.slots
  {
    SoundFacts(s);
    hide FindFresh, CacheKey, BlockedAnswer, Replay, Sound, WellFormed;
  }

  lemma JudgeSlots(env: Env, s: State, now: nat, busy: bool)
    requires Sound(s) && s.task.Judging?
    ensures Judge(env, s, now, busy).slots == s.slots
  {
    SoundFacts(s);
    hide CacheKey, BlockedAnswer, RewrittenWithin, StoreBlocked, Socket, Sound;
  }

  /** An id that is free stays free while no flight is given it. */
  lemma StepFreesId(env: Env, s: State, step: Step, id: nat)
    requires Sound(s) && Possible(s, step) && !Taken(s.slots, id) && !Issues(step, id)
    ensures !Taken(Next(env, s, step).slots, id)
  {
    hide Taken, LookStale, Forward, OnReply, Evict, Question, Acceptable, RequesterOf, Answer, BlockedAnswer,
      FindFresh, StoreBlocked, Socket, QueryOf, Parsed;
    match step
    case FreshStep(now) => FreshSlots(env, s, now);
    case StaleStep(now, t) => StaleFreesId(env, s, now, t, id);
    case JudgeStep(now, busy) => JudgeSlots(env, s, now, busy);
    case ForwardStep(now, t) => ForwardFreesId(env, s, now, t, id);
    case Reply(pkt, now, busyFor) => ReplyFreesId(env, s, pkt, now, busyFor, id);
    case EvictStep(now) => EvictFreesId(s.slots, now, id);
    case _ =>
  }

  lemma {:induction false} IdStaysFree(env: Env, s: State, steps: seq<Step>, id: nat)
    requires Generations.Steps(env, s, steps) && !Taken(s.slots, id) && NotReissued(steps, id)
    ensures !Taken(Generations.After(env, s, steps).slots, id)
    decreases |steps|
  {
    if steps != [] {
      hide Next, Possible, Sound, Taken;
      StepFreesId(env, s, steps[0], id);
      IdStaysFree(env, Next(env, s, steps[0]), steps[1..], id);
    }
  }

  /** However late it arrives, and whatever happened in between: a second copy of an accepted
      reply changes nothing unless its id was given to a new flight. */
  lemma LateDuplicateReachesNobody(env: Env, s: State, pkt: seq<byte>, now: nat, busy: seq<byte> -> bool,
                                   steps: seq<Step>, later: nat, busyLater: seq<byte> -> bool)
    requires Inv(s) && Sound(s) && OnReply(env, s, pkt, now, busy) != s
    requires Generations.Steps(env, OnReply(env, s, pkt, now, busy), steps) && NotReissued(steps, Get16(pkt, 0))
    requires Sound(Generations.After(env, OnReply(env, s, pkt, now, busy), steps))
    ensures var s' := Generations.After(env, OnReply(env, s, pkt, now, busy), steps);
            OnReply(env, s', pkt, later, busyLater) == s'
  {
    var t := Get16(pkt, 0);
    var i := FindLive(s.slots, t);
    var s1 := OnReply(env, s, pkt, now, busy);
    AcceptedFreesId(env, s, pkt, now, busy);
    IdStaysFree(env, s1, steps, t);
    var s' := Generations.After(env, s1, steps);
    hide Matches, Outgoing, FanOut, Learn, Socket, Question, Inv, Generations.Steps, Generations.After, Next,
      Possible, NotReissued;
    assert FindLive(s'.slots, t) == |s'.slots|;
  }

  lemma AcceptedFreesId(env: Env, s: State, pkt: seq<byte>, now: nat, busy: seq<byte> -> bool)
    requires Inv(s) && Sound(s) && OnReply(env, s, pkt, now, busy) != s
    ensures |pkt| >= 12 && !Taken(OnReply(env, s, pkt, now, busy).slots, Get16(pkt, 0))
  {
    hide Matches, Outgoing, FanOut, Learn, Socket, Question, Inv;
    IdGone(s, FindLive(s.slots, Get16(pkt, 0)), Get16(pkt, 0));
  }

  lemma IdGone(s: State, i: nat, t: nat)
    requires Inv(s) && i < |s.slots| && Live(s.slots[i], t)
    ensures !Taken(s.slots[i := s.slots[i].(inUse := false)], t)
  {
    var ss := s.slots[i := s.slots[i].(inUse := false)];
    forall j | 0 <= j < |ss| ensures !Live(ss[j], t) {
      if j != i {
        assert s.slots[j].inUse ==> s.slots[j].txid != s.slots[i].txid;
      }
    }
  }
}
