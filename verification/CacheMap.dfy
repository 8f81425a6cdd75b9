/** The forward cache refines a map: over every run of stores, a lookup of one set
    returns the last value stored under exactly that key, or nothing. */
module CacheMap {
  import opened Bytes
  import opened Domain
  import opened Cache

  /** What is stored under a key, apart from the refresh gate. */
  datatype Value = Value(blocked: bool, name: seq<byte>, reply: seq<byte>, deadline: nat, gen: nat, auth: nat)

  function ValueOf(e: Entry): Value
    requires Sized(e)
  {
    Value(e.blocked, Name(e), e.resp[..e.respLen], e.deadline, e.gen, e.auth)
  }

  datatype Op =
    | PutBlocked(key: Key, ttl: nat, now: nat, gen: nat, auth: nat)
    | PutReply(hash: nat, qtype: nat, resp: seq<byte>, ttl: nat, now: nat, gen: nat, auth: nat)
    | Touch(at: nat, refreshAfter: nat)

  function Apply(es: seq<Entry>, op: Op): (r: seq<Entry>)
    requires AllSized(es)
    ensures |r| == |es|
  {
    match op
    case PutBlocked(k, ttl, now, gen, auth) => StoreBlocked(es, k, ttl, now, gen, auth)
    case PutReply(h, t, resp, ttl, now, gen, auth) => StoreReply(es, h, t, resp, ttl, now, gen, auth)
    case Touch(at, after) => if at < |es| then es[at := es[at].(refreshAfter := after)] else es
  }

  /** The key and value an operation is meant to write, if it is accepted. */
  function Meant(op: Op): Option<(Key, Value)> {
    match op
    case PutBlocked(k, ttl, now, gen, auth) =>
      if 0 < |k.name| <= WIRE_MAX then Some((Folded(k), Value(true, k.name, [], now + 1000 * ttl, gen, auth))) else None
    case PutReply(h, t, resp, ttl, now, gen, auth) =>
      if Storable(resp)
      then
        var k := ReplyKey(h, t, resp);
        Some((Folded(k), Value(false, k.name, resp, now + 1000 * ttl, gen, auth)))
      else None
    case Touch(_, _) => None
  }

  /** The abstract map after the operations. */
  function LastStored(m: map<Key, Value>, ops: seq<Op>): map<Key, Value> {
    if ops == [] then m
    else
      var before := LastStored(m, ops[..|ops| - 1]);
      match Meant(ops[|ops| - 1])
      case None => before
      case Some((k, v)) => before[k := v]
  }

  ghost function Run(es: seq<Entry>, ops: seq<Op>): (r: seq<Entry>)
    requires WellPlaced(es)
    ensures WellPlaced(r)
  {
    if ops == [] then es
    else
      var before := Run(es, ops[..|ops| - 1]);
      ApplyKeepsPlaces(before, ops[|ops| - 1]);
      Apply(before, ops[|ops| - 1])
  }

  /** Every valid way holds exactly what the map has for its key. */
  ghost predicate Refines(es: seq<Entry>, m: map<Key, Value>)
    requires AllSized(es)
  {
    forall i :: 0 <= i < |es| && es[i].valid ==> KeyOf(es[i]) in m && m[KeyOf(es[i])] == ValueOf(es[i])
  }

  // ---------- A write to the victim

  /** e is what a store of value v under key k makes of a way. */
  ghost predicate Carries(e: Entry, k: Key, v: Value) {
    Sized(e) && e.valid && KeyOf(e) == k && ValueOf(e) == v
  }

  lemma OwnWayIsOwn(es: seq<Entry>, k: Key)
    requires WellPlaced(es)
    ensures OwnFrom(es, k, 0) < WAYS ==> Owns(es[Victim(es, k)], k)
    ensures OwnFrom(es, k, 0) == WAYS ==> forall i :: 0 <= i < |es| ==> !Owns(es[i], k)
  {
    if OwnFrom(es, k, 0) == WAYS {
      forall i | 0 <= i < |es| ensures !Owns(es[i], k) {
        PlacedSized(es, i);
        KeyEqIsEqualKeys(es[i], k);
      }
    }
  }

  /** No other way holds the key once the victim is chosen. */
  lemma VictimLeavesNoTwin(es: seq<Entry>, k: Key, i: nat)
    requires WellPlaced(es) && i < |es| && i != Victim(es, k) && es[i].valid
    ensures KeyOf(es[i]) != Folded(k)
  {
    var v := Victim(es, k);
    hide Victim, OwnFrom;
    OwnWayIsOwn(es, k);
    PlacedSized(es, i);
    PlacedSized(es, v);
    KeyEqIsEqualKeys(es[i], k);
    KeyEqIsEqualKeys(es[v], k);
    hide KeyOf, KeyEq;
  }

  lemma WriteVictim(es: seq<Entry>, k: Key, e: Entry, v: Value)
    requires WellPlaced(es) && Carries(e, Folded(k), v)
    ensures WellPlaced(es[Victim(es, k) := e])
  {
    var i := Victim(es, k);
    var es' := es[i := e];
    assert Base(k) == WAYS * SetOf(k.hash, k.qtype);
    hide Victim, SetOf;
    forall j | 0 <= j < |es| && j != i && es[j].valid ensures KeyOf(es[j]) != KeyOf(e) {
      VictimLeavesNoTwin(es, k, j);
    }
    hide KeyOf;
    forall j | 0 <= j < |es'| ensures Sized(es'[j]) {
      PlacedSized(es, j);
    }
    assert i / WAYS == SetOf(k.hash, k.qtype);
    assert InOwnSets(es') by {
      KeyFields(e, Folded(k));
    }
    assert KeysUnique(es');
  }

  lemma KeyFields(e: Entry, k: Key)
    requires Sized(e) && KeyOf(e) == k
    ensures e.hash == k.hash && e.qtype == k.qtype
  {
  }

  lemma WriteRefines(es: seq<Entry>, m: map<Key, Value>, k: Key, e: Entry, v: Value)
    requires WellPlaced(es) && Refines(es, m) && Carries(e, Folded(k), v)
    requires WellPlaced(es[Victim(es, k) := e])
    ensures Refines(es[Victim(es, k) := e], m[Folded(k) := v])
  {
    var i := Victim(es, k);
    forall j | 0 <= j < |es| && j != i && es[j].valid ensures KeyOf(es[j]) != Folded(k) {
      VictimLeavesNoTwin(es, k, j);
    }
    hide Victim, KeyOf, ValueOf, Folded, InOwnSets, KeysUnique;
  }

  lemma BlockedCarries(e: Entry, k: Key, ttl: nat, now: nat, gen: nat, auth: nat)
    requires Sized(e) && |k.name| <= WIRE_MAX
    ensures Carries(BlockedEntry(e, k, ttl, now, gen, auth), Folded(k),
                    Value(true, k.name, [], now + 1000 * ttl, gen, auth))
  {
    var r := BlockedEntry(e, k, ttl, now, gen, auth);
    assert Name(r) == k.name;
  }

  lemma ReplyCarries(e: Entry, hash: nat, qtype: nat, resp: seq<byte>, ttl: nat, now: nat, gen: nat, auth: nat)
    requires Sized(e) && Storable(resp)
    ensures var k := ReplyKey(hash, qtype, resp);
            Carries(ReplyEntry(e, k, resp, ttl, now, gen, auth), Folded(k),
                    Value(false, k.name, resp, now + 1000 * ttl, gen, auth))
  {
    var k := ReplyKey(hash, qtype, resp);
    var r := ReplyEntry(e, k, resp, ttl, now, gen, auth);
    assert r.resp[..|resp|] == r.resp[0..0 + |resp|] == resp;
    SliceOfSlice(r.resp, 0, |resp|, 12, 12 + |k.name|);
    assert Name(r) == resp[12..12 + |k.name|];
  }

  /** What an accepted store does to the array. */
  lemma StoreWritesVictim(es: seq<Entry>, op: Op)
    requires WellPlaced(es)
    ensures Meant(op).None? && !op.Touch? ==> Apply(es, op) == es
    ensures Meant(op).Some? ==>
              var (key, v) := Meant(op).value;
              exists k: Key, e: Entry ::
                Folded(k) == key && Carries(e, key, v) && Apply(es, op) == es[Victim(es, k) := e]
  {
    hide Victim, Overlay, WireLen;
    match op
    case PutBlocked(k, ttl, now, gen, auth) =>
      if 0 < |k.name| <= WIRE_MAX {
        PlacedSized(es, Victim(es, k));
        BlockedCarries(es[Victim(es, k)], k, ttl, now, gen, auth);
      }
    case PutReply(h, t, resp, ttl, now, gen, auth) =>
      if Storable(resp) {
        var k := ReplyKey(h, t, resp);
        PlacedSized(es, Victim(es, k));
        ReplyCarries(es[Victim(es, k)], h, t, resp, ttl, now, gen, auth);
      }
    case Touch(_, _) =>
  }

  lemma TouchKeeps(es: seq<Entry>, at: nat, after: nat, m: map<Key, Value>)
    requires WellPlaced(es)
    ensures WellPlaced(Apply(es, Touch(at, after)))
    ensures Refines(es, m) ==> Refines(Apply(es, Touch(at, after)), m)
  {
    var es' := Apply(es, Touch(at, after));
    if at < |es| {
      TouchOne(es[at], after);
      hide KeyOf, ValueOf, SetOf;
      assert AllSized(es');
      assert InOwnSets(es') && KeysUnique(es');
    }
  }

  lemma TouchOne(e: Entry, after: nat)
    requires Sized(e)
    ensures Sized(e.(refreshAfter := after))
    ensures KeyOf(e.(refreshAfter := after)) == KeyOf(e) && ValueOf(e.(refreshAfter := after)) == ValueOf(e)
  {
  }

  lemma ApplyKeepsPlaces(es: seq<Entry>, op: Op)
    requires WellPlaced(es)
    ensures WellPlaced(Apply(es, op))
  {
    hide *;
    StoreWritesVictim(es, op);
    if op.Touch? {
      TouchKeeps(es, op.at, op.refreshAfter, map[]);
    } else if Meant(op).Some? {
      var (key, v) := Meant(op).value;
      PlacedSized(es, 0);
      var k, e :| Folded(k) == key && Carries(e, key, v) && Apply(es, op) == es[Victim(es, k) := e];
      WriteVictim(es, k, e, v);
    }
  }

  /** One operation keeps the array and the abstract map together. */
  lemma ApplyRefines(es: seq<Entry>, m: map<Key, Value>, op: Op)
    requires WellPlaced(es) && Refines(es, m)
    ensures WellPlaced(Apply(es, op))
    ensures Refines(Apply(es, op), match Meant(op) case None => m case Some((k, v)) => m[k := v])
  {
    hide *;
    ApplyKeepsPlaces(es, op);
    StoreWritesVictim(es, op);
    if op.Touch? {
      TouchMeansNothing(op);
      TouchKeeps(es, op.at, op.refreshAfter, m);
    } else if Meant(op).Some? {
      var (key, v) := Meant(op).value;
      PlacedSized(es, 0);
      var k, e :| Folded(k) == key && Carries(e, key, v) && Apply(es, op) == es[Victim(es, k) := e];
      WriteRefines(es, m, k, e, v);
    }
  }

  lemma TouchMeansNothing(op: Op)
    requires op.Touch?
    ensures Meant(op) == None
  {
  }

  /** After every run from an empty cache, each valid way sits in its own set, no key has
      two ways, and each holds the last value stored under its key. */
  lemma {:induction false} RunRefines(es: seq<Entry>, m: map<Key, Value>, ops: seq<Op>)
    requires WellPlaced(es) && Refines(es, m)
    ensures WellPlaced(Run(es, ops)) && Refines(Run(es, ops), LastStored(m, ops))
  {
    if ops != [] {
      RunRefines(es, m, ops[..|ops| - 1]);
      hide Refines, WellPlaced, Apply, Meant;
      ApplyRefines(Run(es, ops[..|ops| - 1]), LastStored(m, ops[..|ops| - 1]), ops[|ops| - 1]);
    }
  }

  // ---------- Lookups

  /** Scanning one set finds an entry exactly where scanning the whole cache would, for
      any test that demands the key; and there is at most one. */
  lemma FindIsGlobal(es: seq<Entry>, k: Key, p: Entry -> bool, i: nat)
    requires WellPlaced(es) && forall e :: p(e) ==> Owns(e, k)
    ensures Find(es, k, p) == Some(i) <==> i < |es| && p(es[i])
  {
    if i < |es| && p(es[i]) {
      PlacedSized(es, i);
      KeyEqIsEqualKeys(es[i], k);
      KeyFields(es[i], Folded(k));
      assert Base(k) <= i < Base(k) + WAYS;
      var r := Find(es, k, p);
      assert r.Some?;
      PlacedSized(es, r.value);
      KeyEqIsEqualKeys(es[r.value], k);
    }
  }

  /** A fresh hit is the last value stored for that exact key, under the generation asked
      for and not past its deadline; and it is found exactly when the cache holds it. */
  lemma HitIsLastStored(es: seq<Entry>, m: map<Key, Value>, ops: seq<Op>, k: Key, now: nat, gen: nat, i: nat)
    requires WellPlaced(es) && Refines(es, m)
    ensures var r := Run(es, ops);
            FindFresh(r, k, now, gen) == Some(i) <==> i < |r| && Fresh(r[i], k, now, gen)
    ensures var r := Run(es, ops);
            FindFresh(r, k, now, gen) == Some(i) ==>
              var last := LastStored(m, ops);
              Folded(k) in last && ValueOf(r[i]) == last[Folded(k)] && WireEq(Name(r[i]), k.name) &&
              last[Folded(k)].deadline > now && last[Folded(k)].gen == gen
  {
    RunRefines(es, m, ops);
    var r := Run(es, ops);
    FindIsGlobal(r, k, e => Fresh(e, k, now, gen), i);
    hide Run, LastStored, FirstWay;
    if FindFresh(r, k, now, gen) == Some(i) {
      PlacedSized(r, i);
      KeyEqIsEqualKeys(r[i], k);
    }
  }

  /** The same for the stale window, which never yields a blocked entry. */
  lemma StaleHitIsLastStored(es: seq<Entry>, m: map<Key, Value>, ops: seq<Op>, k: Key, now: nat, gen: nat, i: nat)
    requires WellPlaced(es) && Refines(es, m)
    ensures var r := Run(es, ops);
            FindStale(r, k, now, gen) == Some(i) <==> i < |r| && Stale(r[i], k, now, gen)
    ensures var r := Run(es, ops);
            FindStale(r, k, now, gen) == Some(i) ==>
              var last := LastStored(m, ops);
              Folded(k) in last && ValueOf(r[i]) == last[Folded(k)] && !last[Folded(k)].blocked &&
              last[Folded(k)].deadline <= now < last[Folded(k)].deadline + STALE_MS && last[Folded(k)].gen == gen
  {
    RunRefines(es, m, ops);
    var r := Run(es, ops);
    FindIsGlobal(r, k, e => Stale(e, k, now, gen), i);
    hide Run, LastStored, FirstWay;
    if FindStale(r, k, now, gen) == Some(i) {
      PlacedSized(r, i);
      KeyEqIsEqualKeys(r[i], k);
    }
  }

  /** A reply just stored is the next hit for its question, until it expires. */
  lemma StoredReplyIsHit(es: seq<Entry>, hash: nat, qtype: nat, resp: seq<byte>, ttl: nat, now: nat, gen: nat,
                         auth: nat, later: nat)
    requires WellPlaced(es) && Storable(resp) && later < now + 1000 * ttl
    ensures var k := ReplyKey(hash, qtype, resp);
            var r := StoreReply(es, hash, qtype, resp, ttl, now, gen, auth);
            FindFresh(r, k, later, gen) == Some(Victim(es, k)) &&
            r[Victim(es, k)].resp[..r[Victim(es, k)].respLen] == resp
  {
    var op := PutReply(hash, qtype, resp, ttl, now, gen, auth);
    ApplyKeepsPlaces(es, op);
    var k := ReplyKey(hash, qtype, resp);
    var v := Victim(es, k);
    var r := StoreReply(es, hash, qtype, resp, ttl, now, gen, auth);
    PlacedSized(es, v);
    ReplyCarries(es[v], hash, qtype, resp, ttl, now, gen, auth);
    assert r[v] == ReplyEntry(es[v], k, resp, ttl, now, gen, auth);
    KeyEqIsEqualKeys(r[v], k);
    FindIsGlobal(r, k, e => Fresh(e, k, later, gen), v);
    hide FirstWay, Victim, WellPlaced, WireLen;
  }

  /** A store changes one way at most, and where it takes the way of another key, the key
      stored was nowhere in the cache and no way of the set ends sooner. */
  lemma EvictionIsLeastUseful(es: seq<Entry>, k: Key, now: nat)
    requires WellPlaced(es)
    ensures var v := Victim(es, k);
            Evicts(es, k, now) ==>
              (forall i :: 0 <= i < |es| ==> !Owns(es[i], k)) &&
              (forall i :: Base(k) <= i < Base(k) + WAYS ==> Useful(es[v]) <= Useful(es[i]) && Useful(es[i]) > now)
  {
    OwnWayIsOwn(es, k);
    SoonestIsFirstLeast(es, Base(k), WAYS);
    VictimIs(es, k, now);
    hide Victim, Evicts, Useful, Owns, OwnFrom;
  }

  // ---------- The fast path's read

  /** The reply dns_cache_l2_get copies out of a settled cache. */
  function L2Get(es: seq<Entry>, k: Key, cap: nat, now: nat, gen: nat): Option<seq<byte>>
    requires |es| == ENTRIES
  {
    match FindReplayable(es, k, now, gen, cap)
    case None => None
    case Some(i) => Some(es[i].resp[..es[i].respLen])
  }

  /** The fast path answers exactly when the socket path has a fresh allowed hit that fits
      the buffer, and with the same bytes. */
  lemma L2GetIsFreshAllowedHit(es: seq<Entry>, k: Key, cap: nat, now: nat, gen: nat)
    requires WellPlaced(es)
    ensures L2Get(es, k, cap, now, gen) ==
            match FindFresh(es, k, now, gen)
            case None => None
            case Some(i) =>
              if !es[i].blocked && 0 < es[i].respLen <= cap then Some(es[i].resp[..es[i].respLen]) else None
  {
    var f, g := FindFresh(es, k, now, gen), FindReplayable(es, k, now, gen, cap);
    if f.Some? {
      FindIsGlobal(es, k, e => Fresh(e, k, now, gen), f.value);
      FindIsGlobal(es, k, e => Replayable(e, k, now, gen, cap), f.value);
    }
    if g.Some? {
      FindIsGlobal(es, k, e => Fresh(e, k, now, gen), g.value);
    }
    hide FirstWay, WellPlaced;
  }
}
