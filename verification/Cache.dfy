/** The 4-way set-associative forward cache of main/dns_server.cpp, against the map it
    stands for: at most one value per (hash, type, case-folded name), which is the last
    one stored under that exact key. */
module Cache {
  import opened Bytes
  import opened Domain

  const WAYS: nat := 4
  const SETS: nat := 512
  const ENTRIES: nat := 2048
  const RESP_MAX: nat := 512
  const STALE_MS: nat := 86_400_000

  /** One way. resp is the raw reply, or for a blocked entry only the question name at
      offset 12. auth does not exist in the program: it records the configuration under
      which the verdict behind this entry was taken, and nothing reads it. */
  datatype Entry = Entry(valid: bool, blocked: bool, hash: nat, qtype: nat, qnLen: nat, respLen: nat,
                         deadline: nat, refreshAfter: nat, gen: nat, auth: nat, resp: seq<byte>)

  predicate Sized(e: Entry) {
    |e.resp| == RESP_MAX && e.respLen <= RESP_MAX && 12 + e.qnLen <= RESP_MAX
  }

  function Blank(): (e: Entry)
    ensures Sized(e) && !e.valid
  {
    Entry(false, false, 0, 0, 0, 0, 0, 0, 0, 0, Zeros(RESP_MAX))
  }

  // ---------- Sets

  function Pow2(n: nat): (r: nat)
    ensures r > 0
  {
    if n == 0 then 1 else 2 * Pow2(n - 1)
  }

  /** The low bits of the exclusive or. */
  function Xor(a: nat, b: nat, bits: nat): (r: nat)
    ensures r < Pow2(bits)
  {
    if bits == 0 then 0 else (if a % 2 != b % 2 then 1 else 0) + 2 * Xor(a / 2, b / 2, bits - 1)
  }

  /** cache_set: the number of the set a key maps to. */
  function SetOf(hash: nat, qtype: nat): (i: nat)
    ensures i < SETS
  {
    Pow2Is512();
    Xor(hash, 2 * qtype, 9)
  }

  lemma {:induction false} XorCancels(a: nat, b: nat, c: nat, bits: nat)
    requires Xor(a, b, bits) == Xor(a, c, bits)
    ensures b % Pow2(bits) == c % Pow2(bits)
  {
    if bits > 0 {
      XorCancels(a / 2, b / 2, c / 2, bits - 1);
      HalfMod(b, Pow2(bits - 1));
      HalfMod(c, Pow2(bits - 1));
    }
  }

  lemma HalfMod(x: nat, m: nat)
    requires m > 0
    ensures x % (2 * m) == 2 * (x / 2 % m) + x % 2
  {
    var q, r := x / 2 / m, x / 2 % m;
    assert x / 2 == m * q + r;
    assert x == (2 * m) * q + (2 * r + x % 2);
    ModOf(2 * m, q, 2 * r + x % 2);
  }

  lemma ModOf(m: nat, q: nat, r: nat)
    requires r < m
    ensures (m * q + r) % m == r
  {
    var x: int := m * q + r;
    var d := q - x / m;
    assert m * d == m * q - m * (x / m);
    assert m * d == x % m - r;
    SmallMultiple(m, d);
  }

  lemma SmallMultiple(m: int, d: int)
    requires m > 0 && -m < m * d < m
    ensures d == 0
  {
    assert d >= 1 ==> m * d >= m * 1;
    assert d <= -1 ==> m * d <= m * -1;
  }

  lemma Pow2Is512()
    ensures Pow2(9) == 512
  {
    assert Pow2(3) == 8 && Pow2(6) == 64;
  }

  /** For one name, types share a set only when their low eight bits agree: A (1) and
      AAAA (28) never do. */
  lemma TypesLiveApart(hash: nat, s: nat, t: nat)
    ensures SetOf(hash, s) == SetOf(hash, t) ==> s % 256 == t % 256
    ensures SetOf(hash, 1) != SetOf(hash, 28)
  {
    SharedSet(hash, s, t);
    SharedSet(hash, 1, 28);
  }

  lemma SharedSet(hash: nat, s: nat, t: nat)
    ensures SetOf(hash, s) == SetOf(hash, t) ==> s % 256 == t % 256
  {
    Pow2Is512();
    if SetOf(hash, s) == SetOf(hash, t) {
      hide Xor, Pow2;
      XorCancels(hash, 2 * s, 2 * t, 9);
      HalfMod(2 * s, 256);
      HalfMod(2 * t, 256);
    }
  }

  // ---------- Keys

  datatype Key = Key(hash: nat, qtype: nat, name: seq<byte>)

  function Name(e: Entry): seq<byte>
    requires Sized(e)
  {
    e.resp[12..12 + e.qnLen]
  }

  function KeyOf(e: Entry): Key
    requires Sized(e)
  {
    Key(e.hash, e.qtype, LowerAll(Name(e)))
  }

  /** cache_key_eq. */
  predicate KeyEq(e: Entry, k: Key)
    requires Sized(e)
  {
    e.hash == k.hash && e.qtype == k.qtype && e.qnLen == |k.name| && WireEq(Name(e), k.name)
  }

  function Folded(k: Key): Key {
    k.(name := LowerAll(k.name))
  }

  lemma KeyEqIsEqualKeys(e: Entry, k: Key)
    requires Sized(e)
    ensures KeyEq(e, k) <==> KeyOf(e) == Folded(k)
  {
    assert |LowerAll(Name(e))| == e.qnLen;
    assert |LowerAll(k.name)| == |k.name|;
  }

  // ---------- The array of entries

  ghost predicate AllSized(es: seq<Entry>) {
    |es| == ENTRIES && forall i :: 0 <= i < |es| ==> Sized(es[i])
  }

  /** Every valid entry sits in the set of its own key. */
  ghost predicate InOwnSets(es: seq<Entry>)
    requires AllSized(es)
  {
    forall i :: 0 <= i < |es| && es[i].valid ==> i / WAYS == SetOf(es[i].hash, es[i].qtype)
  }

  ghost predicate KeysUnique(es: seq<Entry>)
    requires AllSized(es)
  {
    forall i, j :: 0 <= i < j < |es| && es[i].valid && es[j].valid ==> KeyOf(es[i]) != KeyOf(es[j])
  }

  ghost predicate WellPlaced(es: seq<Entry>) {
    AllSized(es) && InOwnSets(es) && KeysUnique(es)
  }

  lemma PlacedSized(es: seq<Entry>, i: nat)
    requires WellPlaced(es)
    ensures AllSized(es) && |es| == ENTRIES && (i < ENTRIES ==> Sized(es[i]))
  {
  }

  /** First way of the set of k. */
  function Base(k: Key): (b: nat)
    ensures b + WAYS <= ENTRIES
  {
    WAYS * SetOf(k.hash, k.qtype)
  }

  /** The first way w.. of a set that matches, counted within the set. */
  function FirstWay(es: seq<Entry>, b: nat, w: nat, p: Entry -> bool): (r: nat)
    requires b + WAYS <= |es| && w <= WAYS
    ensures w <= r <= WAYS
    ensures r < WAYS ==> p(es[b + r])
    ensures forall i :: b + w <= i < b + r ==> !p(es[i])
    decreases WAYS - w
  {
    if w == WAYS || p(es[b + w]) then w else FirstWay(es, b, w + 1, p)
  }

  predicate Owns(e: Entry, k: Key) {
    Sized(e) && e.valid && KeyEq(e, k)
  }

  predicate Fresh(e: Entry, k: Key, now: nat, gen: nat) {
    Owns(e, k) && e.deadline > now && e.gen == gen
  }

  predicate Stale(e: Entry, k: Key, now: nat, gen: nat) {
    Owns(e, k) && !e.blocked && e.respLen > 0 && e.deadline <= now < e.deadline + STALE_MS && e.gen == gen
  }

  /** What the fast path may copy out into a buffer of the given capacity. */
  predicate Replayable(e: Entry, k: Key, now: nat, gen: nat, cap: nat) {
    Fresh(e, k, now, gen) && !e.blocked && 0 < e.respLen <= cap
  }

  /** The entry a scan of the set finds, or None. */
  function Find(es: seq<Entry>, k: Key, p: Entry -> bool): (r: Option<nat>)
    requires |es| == ENTRIES
    ensures r.Some? ==> r.value < |es| && Base(k) <= r.value < Base(k) + WAYS && p(es[r.value])
  {
    var w := FirstWay(es, Base(k), 0, p);
    if w == WAYS then None else Some(Base(k) + w)
  }

  /** The first way w.. that holds the key itself. */
  function OwnFrom(es: seq<Entry>, k: Key, w: nat): (r: nat)
    requires |es| == ENTRIES && w <= WAYS
    ensures w <= r <= WAYS
  {
    FirstWay(es, Base(k), w, e => Owns(e, k))
  }

  lemma OwnFromStep(es: seq<Entry>, k: Key, w: nat)
    requires |es| == ENTRIES && w < WAYS
    ensures OwnFrom(es, k, w) == if Owns(es[Base(k) + w], k) then w else OwnFrom(es, k, w + 1)
  {
    hide Owns;
  }

  function FindFresh(es: seq<Entry>, k: Key, now: nat, gen: nat): Option<nat>
    requires |es| == ENTRIES
  {
    Find(es, k, e => Fresh(e, k, now, gen))
  }

  function FindStale(es: seq<Entry>, k: Key, now: nat, gen: nat): Option<nat>
    requires |es| == ENTRIES
  {
    Find(es, k, e => Stale(e, k, now, gen))
  }

  function FindReplayable(es: seq<Entry>, k: Key, now: nat, gen: nat, cap: nat): Option<nat>
    requires |es| == ENTRIES
  {
    Find(es, k, e => Replayable(e, k, now, gen, cap))
  }

  // ---------- The victim

  /** When an entry stops being of any use. */
  function Useful(e: Entry): nat {
    if !e.valid then 0 else e.deadline + if e.blocked then 0 else STALE_MS
  }

  /** The earliest way whose usefulness ends soonest, among the first n. */
  function Soonest(es: seq<Entry>, b: nat, n: nat): (r: nat)
    requires b + WAYS <= |es| && 0 < n <= WAYS
    ensures r < n
  {
    if n == 1 then 0
    else
      var m := Soonest(es, b, n - 1);
      if Useful(es[b + (n - 1)]) < Useful(es[b + m]) then n - 1 else m
  }

  /** Nothing in the set ends sooner, and nothing before it as soon. */
  lemma {:induction false} SoonestIsFirstLeast(es: seq<Entry>, b: nat, n: nat)
    requires b + WAYS <= |es| && 0 < n <= WAYS
    ensures forall i :: b <= i < b + n ==> Useful(es[b + Soonest(es, b, n)]) <= Useful(es[i])
    ensures forall i :: b <= i < b + Soonest(es, b, n) ==> Useful(es[b + Soonest(es, b, n)]) < Useful(es[i])
  {
    hide Useful;
    if n > 1 {
      SoonestIsFirstLeast(es, b, n - 1);
    }
  }

  lemma SoonestStep(es: seq<Entry>, b: nat, n: nat)
    requires b + WAYS <= |es| && n < WAYS
    ensures n == 0 ==> Soonest(es, b, 1) == 0
    ensures n > 0 ==>
              Soonest(es, b, n + 1) ==
              if Useful(es[b + n]) < Useful(es[b + Soonest(es, b, n)]) then n else Soonest(es, b, n)
  {
    hide Useful;
  }

  function Victim(es: seq<Entry>, k: Key): (i: nat)
    requires |es| == ENTRIES
    ensures Base(k) <= i < Base(k) + WAYS
  {
    var own := OwnFrom(es, k, 0);
    if own < WAYS then Base(k) + own else Base(k) + Soonest(es, Base(k), WAYS)
  }

  /** A store throws away an entry of another key that was still of use. */
  predicate Evicts(es: seq<Entry>, k: Key, now: nat)
    requires |es| == ENTRIES
  {
    OwnFrom(es, k, 0) == WAYS && es[Victim(es, k)].valid && Useful(es[Victim(es, k)]) > now
  }

  lemma VictimIs(es: seq<Entry>, k: Key, now: nat)
    requires |es| == ENTRIES
    ensures OwnFrom(es, k, WAYS) == WAYS
    ensures var own := OwnFrom(es, k, 0);
            var v := if own < WAYS then Base(k) + own else Base(k) + Soonest(es, Base(k), WAYS);
            Victim(es, k) == v && (Evicts(es, k, now) <==> own == WAYS && es[v].valid && Useful(es[v]) > now)
  {
    hide Soonest, Useful;
  }

  /** The first w ways do not hold the key, and v is the one of them that ends soonest. */
  ghost predicate ScannedTo(es: seq<Entry>, k: Key, w: nat, v: nat, end: nat) {
    AllSized(es) && w <= WAYS && OwnFrom(es, k, 0) == OwnFrom(es, k, w) &&
    (w > 0 ==> v == Base(k) + Soonest(es, Base(k), w) && end == Useful(es[v]))
  }

  lemma ScanStart(es: seq<Entry>, k: Key)
    requires WellPlaced(es)
    ensures |es| == ENTRIES && ScannedTo(es, k, 0, Base(k), 0)
  {
  }

  lemma ScanStep(es: seq<Entry>, k: Key, w: nat, v: nat, end: nat)
    requires ScannedTo(es, k, w, v, end) && w < WAYS
    ensures |es| == ENTRIES && Base(k) + w < |es| && Sized(es[Base(k) + w])
    ensures var e := es[Base(k) + w];
            if e.valid && KeyEq(e, k) then Victim(es, k) == Base(k) + w && OwnFrom(es, k, 0) < WAYS
            else if w == 0 || Useful(e) < end then ScannedTo(es, k, w + 1, Base(k) + w, Useful(e))
            else ScannedTo(es, k, w + 1, v, end)
  {
    hide Useful, KeyEq, OwnFrom, Soonest, Name, KeyOf;
    OwnFromStep(es, k, w);
    SoonestStep(es, Base(k), w);
  }

  lemma ScanEnd(es: seq<Entry>, k: Key, v: nat, end: nat)
    requires ScannedTo(es, k, WAYS, v, end)
    ensures |es| == ENTRIES && v < |es| && Victim(es, k) == v && OwnFrom(es, k, 0) == WAYS && end == Useful(es[v])
  {
    hide Useful, Soonest;
  }

  // ---------- Stores

  function Overlay(p: seq<byte>, at: nat, e: seq<byte>): (q: seq<byte>)
    requires at + |e| <= |p|
    ensures |q| == |p| && q[at..at + |e|] == e
  {
    p[..at] + e + p[at + |e|..]
  }

  function BlockedEntry(e: Entry, k: Key, ttl: nat, now: nat, gen: nat, auth: nat): (r: Entry)
    requires Sized(e) && |k.name| <= WIRE_MAX
    ensures Sized(r)
  {
    e.(hash := k.hash, qtype := k.qtype, blocked := true, valid := true, respLen := 0,
       resp := Overlay(e.resp, 12, k.name), qnLen := |k.name|, deadline := now + 1000 * ttl, gen := gen, auth := auth)
  }

  function ReplyEntry(e: Entry, k: Key, resp: seq<byte>, ttl: nat, now: nat, gen: nat, auth: nat): (r: Entry)
    requires Sized(e) && |resp| <= RESP_MAX && 12 + |k.name| <= RESP_MAX
    ensures Sized(r)
  {
    e.(hash := k.hash, qtype := k.qtype, blocked := false, valid := true, respLen := |resp|,
       resp := Overlay(e.resp, 0, resp), qnLen := |k.name|, deadline := now + 1000 * ttl, refreshAfter := 0,
       gen := gen, auth := auth)
  }

  /** cache_store_blocked. */
  function StoreBlocked(es: seq<Entry>, k: Key, ttl: nat, now: nat, gen: nat, auth: nat): (r: seq<Entry>)
    requires AllSized(es)
    ensures |r| == |es| && AllSized(r)
  {
    if |k.name| == 0 || |k.name| > WIRE_MAX then es
    else
      var v := Victim(es, k);
      es[v := BlockedEntry(es[v], k, ttl, now, gen, auth)]
  }

  /** The key a reply is stored under: its own question name. */
  function ReplyKey(hash: nat, qtype: nat, resp: seq<byte>): (k: Key)
    requires WireLen(resp, 12) >= 0
    ensures |k.name| > 0 && 12 + |k.name| <= |resp|
  {
    WireLenInside(resp, 12);
    Key(hash, qtype, resp[12..12 + WireLen(resp, 12)])
  }

  lemma WireLenInside(p: seq<byte>, off: nat)
    ensures WireLen(p, off) >= 0 ==> WireLen(p, off) > 0 && off + WireLen(p, off) <= |p|
  {
  }

  predicate Storable(resp: seq<byte>) {
    0 < |resp| <= RESP_MAX && WireLen(resp, 12) >= 0
  }

  /** cache_store_resp. */
  function StoreReply(es: seq<Entry>, hash: nat, qtype: nat, resp: seq<byte>, ttl: nat, now: nat, gen: nat, auth: nat)
    : (r: seq<Entry>)
    requires AllSized(es)
    ensures |r| == |es| && AllSized(r)
  {
    if !Storable(resp) then es
    else
      var k := ReplyKey(hash, qtype, resp);
      var v := Victim(es, k);
      es[v := ReplyEntry(es[v], k, resp, ttl, now, gen, auth)]
  }

  // ---------- The cache as the program keeps it

  class ForwardCache {
    const ways: array<Entry>
    var seqno: nat
    var evicted: nat
    var tooBig: nat

    /** cache_init. */
    constructor ()
      ensures WellPlaced(ways[..]) && fresh(ways) && seqno == 0 && evicted == 0 && tooBig == 0
      ensures forall i :: 0 <= i < ENTRIES ==> ways[i] == Blank()
    {
      ways := new Entry[ENTRIES](_ => Blank());
      seqno, evicted, tooBig := 0, 0, 0;
    }

    /** cache_lookup. */
    method Lookup(k: Key, now: nat, gen: nat) returns (r: Option<nat>)
      requires WellPlaced(ways[..])
      ensures r == FindFresh(ways[..], k, now, gen)
    {
      hide InOwnSets, KeysUnique;
      var b := Base(k);
      ghost var p := (e: Entry) => Fresh(e, k, now, gen);
      var w: nat := 0;
      while w < WAYS
        invariant w <= WAYS && FirstWay(ways[..], b, 0, p) == FirstWay(ways[..], b, w, p)
      {
        var e := ways[b + w];
        if e.valid && KeyEq(e, k) && e.deadline > now && e.gen == gen {
          return Some(b + w);
        }
        w := w + 1;
      }
      return None;
    }

    /** cache_lookup_stale. */
    method LookupStale(k: Key, now: nat, gen: nat) returns (r: Option<nat>)
      requires WellPlaced(ways[..])
      ensures r == FindStale(ways[..], k, now, gen)
    {
      hide InOwnSets, KeysUnique;
      var b := Base(k);
      ghost var p := (e: Entry) => Stale(e, k, now, gen);
      var w: nat := 0;
      while w < WAYS
        invariant w <= WAYS && FirstWay(ways[..], b, 0, p) == FirstWay(ways[..], b, w, p)
      {
        var e := ways[b + w];
        if e.valid && !e.blocked && e.respLen > 0 && KeyEq(e, k) && e.deadline <= now &&
           e.deadline + STALE_MS > now && e.gen == gen {
          return Some(b + w);
        }
        w := w + 1;
      }
      return None;
    }

    /** The scan of cache_victim: the key's own way, or else the way to give up and
        when its usefulness ends. */
    method ScanSet(k: Key) returns (own: bool, v: nat, end: nat)
      requires WellPlaced(ways[..])
      ensures v == Victim(ways[..], k) && own == (OwnFrom(ways[..], k, 0) < WAYS)
      ensures !own ==> end == Useful(ways[..][v])
    {
      ghost var es := ways[..];
      hide ScannedTo, WellPlaced, AllSized, Sized, Victim, OwnFrom, Useful, KeyEq, Base;
      ScanStart(es, k);
      var b := Base(k);
      v, end := b, 0;
      var w: nat := 0;
      while w < WAYS
        invariant w <= WAYS && ScannedTo(es, k, w, v, end)
        decreases 4 - w
      {
        ScanStep(es, k, w, v, end);
        var e := ways[b + w];
        assert e == es[b + w];
        if e.valid && KeyEq(e, k) {
          return true, b + w, 0;
        }
        var useful := Useful(e);
        if w == 0 || useful < end {
          v, end := b + w, useful;
        }
        w := w + 1;
      }
      ScanEnd(es, k, v, end);
      own := false;
    }

    /** cache_victim. */
    method CacheVictim(k: Key, now: nat) returns (v: nat)
      requires WellPlaced(ways[..])
      modifies this`evicted
      ensures v == Victim(ways[..], k)
      ensures evicted == old(evicted) + if Evicts(ways[..], k, now) then 1 else 0
    {
      assert |ways[..]| == ENTRIES;
      hide *;
      var own, way, end := ScanSet(k);
      VictimIs(ways[..], k, now);
      if !own && ways[way].valid && end > now {
        evicted := evicted + 1;
      }
      v := way;
    }

    /** cache_store_blocked. */
    method StoreBlockedName(k: Key, ttl: nat, now: nat, gen: nat, auth: nat)
      requires WellPlaced(ways[..])
      modifies this, ways
      ensures ways[..] == StoreBlocked(old(ways[..]), k, ttl, now, gen, auth)
      ensures evicted == old(evicted) +
                         if 0 < |k.name| <= WIRE_MAX && Evicts(old(ways[..]), k, now) then 1 else 0
      ensures seqno == old(seqno) + if 0 < |k.name| <= WIRE_MAX then 2 else 0
      ensures tooBig == old(tooBig)
    {
      ghost var es := ways[..];
      PlacedSized(es, 0);
      if |k.name| == 0 || |k.name| > WIRE_MAX {
        return;
      }
      var v := CacheVictim(k, now);
      PlacedSized(es, v);
      hide WellPlaced, Victim, Evicts, Overlay;
      seqno := seqno + 1;
      ways[v] := BlockedEntry(ways[v], k, ttl, now, gen, auth);
      seqno := seqno + 1;
      assert ways[..] == es[v := BlockedEntry(es[v], k, ttl, now, gen, auth)];
    }

    /** cache_store_resp. */
    method StoreResp(hash: nat, qtype: nat, resp: array<byte>, len: nat, ttl: nat, now: nat, gen: nat, auth: nat)
      requires WellPlaced(ways[..]) && len <= resp.Length
      modifies this, ways
      ensures ways[..] == StoreReply(old(ways[..]), hash, qtype, old(resp[..len]), ttl, now, gen, auth)
      ensures evicted == old(evicted) +
                         if Storable(old(resp[..len])) &&
                            Evicts(old(ways[..]), ReplyKey(hash, qtype, old(resp[..len])), now) then 1 else 0
      ensures seqno == old(seqno) + if Storable(old(resp[..len])) then 2 else 0
      ensures tooBig == old(tooBig) + if len > RESP_MAX then 1 else 0
    {
      hide WellPlaced, Victim, Evicts, Overlay, WireLen;
      ghost var es, p := ways[..], resp[..len];
      PlacedSized(es, 0);
      if len == 0 {
        return;
      }
      if len > RESP_MAX {
        tooBig := tooBig + 1;
        return;
      }
      var n := QnameWireLen(resp, len, 12);
      if n < 0 {
        return;
      }
      WireLenInside(p, 12);
      var k := Key(hash, qtype, resp[12..12 + n]);
      assert resp[12..12 + n] == p[12..12 + n];
      assert k == ReplyKey(hash, qtype, p);
      var v := CacheVictim(k, now);
      PlacedSized(es, v);
      seqno := seqno + 1;
      ways[v] := ReplyEntry(ways[v], k, resp[..len], ttl, now, gen, auth);
      seqno := seqno + 1;
      assert ways[..] == es[v := ReplyEntry(es[v], k, p, ttl, now, gen, auth)];
    }
  }
}
