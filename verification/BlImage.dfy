/** The live image of main/bl_table.c: a 65537-word bucket index followed by the
    24-bit remainders of the records, built from sorted records, searched on every
    query, checked when loaded, and decoded again by the reload diff. */
module BlImage {
  import opened Records

  const BUCKETS: nat := 65536

  function Bucket(h: Rec): nat {
    h / 0x100_0000
  }

  function Rem(h: Rec): nat {
    h % 0x100_0000
  }

  lemma BucketRem(h: Rec)
    ensures Bucket(h) < BUCKETS && Rem(h) < 0x100_0000 && h == Bucket(h) * 0x100_0000 + Rem(h)
  {
  }

  lemma BucketIsMonotone(g: Rec, h: Rec)
    requires g <= h
    ensures Bucket(g) <= Bucket(h)
    ensures g < h && Bucket(g) == Bucket(h) ==> Rem(g) < Rem(h)
  {
  }

  /** The records of buckets below b are exactly the first p. */
  ghost predicate IsBoundary(recs: seq<Rec>, b: nat, p: nat) {
    p <= |recs| &&
    (forall i :: 0 <= i < p ==> Bucket(recs[i]) < b) &&
    (forall i :: p <= i < |recs| ==> b <= Bucket(recs[i]))
  }

  ghost predicate IndexOf(idx: seq<nat>, recs: seq<Rec>) {
    |idx| == BUCKETS + 1 && forall b :: 0 <= b <= BUCKETS ==> IsBoundary(recs, b, idx[b])
  }

  ghost predicate EntriesOf(ent: seq<nat>, recs: seq<Rec>) {
    |recs| <= |ent| && forall i :: 0 <= i < |recs| ==> ent[i] == Rem(recs[i])
  }

  /** The image (idx, ent) is the encoding of recs. */
  ghost predicate Encodes(idx: seq<nat>, ent: seq<nat>, recs: seq<Rec>) {
    IndexOf(idx, recs) && EntriesOf(ent, recs)
  }

  ghost function CountBelow(recs: seq<Rec>, b: nat): nat {
    if recs == [] then 0
    else CountBelow(recs[..|recs| - 1], b) + if Bucket(recs[|recs| - 1]) < b then 1 else 0
  }

  lemma {:induction false} BoundaryCounts(recs: seq<Rec>, b: nat, p: nat)
    requires IsBoundary(recs, b, p)
    ensures CountBelow(recs, b) == p
  {
    if recs != [] {
      var n := |recs| - 1;
      BoundaryCounts(recs[..n], b, if p <= n then p else n);
    }
  }

  /** Every index word counts the records in lower buckets. */
  lemma IndexCountsLowerBuckets(idx: seq<nat>, recs: seq<Rec>, b: nat)
    requires IndexOf(idx, recs) && b <= BUCKETS
    ensures idx[b] == CountBelow(recs, b)
  {
    BoundaryCounts(recs, b, idx[b]);
  }

  // ---------- Build

  /** bl_build_image. */
  method BuildImage(sorted: array<Rec>, n: nat, idx: array<nat>, ent: array<nat>) returns (r: nat)
    requires n <= sorted.Length && Ascending(sorted[..n])
    requires idx.Length == BUCKETS + 1 && n <= ent.Length && idx != ent
    modifies idx, ent
    ensures r == n && Encodes(idx[..], ent[..], old(sorted[..n]))
    ensures sorted[..] == old(sorted[..])
  {
    ghost var recs := sorted[..n];
    var cursor := 0;
    for i := 0 to n
      invariant sorted[..] == old(sorted[..])
      invariant cursor <= BUCKETS
      invariant forall j :: 0 <= j < i ==> Bucket(recs[j]) < cursor && ent[j] == Rem(recs[j])
      invariant forall c :: 0 <= c < cursor ==> IsBoundary(recs, c, idx[c])
    {
      var h := sorted[i];
      assert h == recs[i];
      BucketRem(h);
      var b := Bucket(h);
      forall j | i <= j < n ensures b <= Bucket(recs[j]) {
        BucketIsMonotone(h, recs[j]);
      }
      while cursor <= b
        invariant sorted[..] == old(sorted[..])
        invariant cursor <= BUCKETS
        invariant forall j :: 0 <= j < i ==> Bucket(recs[j]) < cursor && ent[j] == Rem(recs[j])
        invariant forall c :: 0 <= c < cursor ==> IsBoundary(recs, c, idx[c])
      {
        assert IsBoundary(recs, cursor, i);
        idx[cursor] := i;
        cursor := cursor + 1;
      }
      ent[i] := Rem(h);
    }
    while cursor < BUCKETS + 1
      invariant sorted[..] == old(sorted[..])
      invariant cursor <= BUCKETS + 1
      invariant forall j :: 0 <= j < n ==> Bucket(recs[j]) < cursor && ent[j] == Rem(recs[j])
      invariant forall c :: 0 <= c < cursor ==> IsBoundary(recs, c, idx[c])
    {
      assert IsBoundary(recs, cursor, n);
      idx[cursor] := n;
      cursor := cursor + 1;
    }
    return n;
  }

  // ---------- The structural check

  ghost predicate BucketInside(idx: seq<nat>, b: nat, count: nat)
    requires b + 1 < |idx|
  {
    idx[b] <= idx[b + 1] <= count
  }

  /** The index a lookup may trust: every bucket range lies inside the entries. */
  ghost predicate ValidIndex(idx: seq<nat>, count: nat) {
    |idx| == BUCKETS + 1 && idx[0] == 0 && idx[BUCKETS] == count &&
    forall b :: 0 <= b < BUCKETS ==> BucketInside(idx, b, count)
  }

  /** bl_image_valid decides exactly that. */
  method ImageValid(idx: array<nat>, count: nat) returns (ok: bool)
    requires idx.Length == BUCKETS + 1
    ensures ok <==> ValidIndex(idx[..], count)
  {
    if idx[0] != 0 {
      return false;
    }
    for b := 0 to BUCKETS
      invariant forall c :: 0 <= c < b ==> BucketInside(idx[..], c, count)
    {
      if idx[b] > idx[b + 1] || idx[b + 1] > count {
        assert !BucketInside(idx[..], b, count);
        return false;
      }
    }
    ok := idx[BUCKETS] == count;
  }

  /** The index of a built image passes bl_image_valid. */
  lemma BuiltIndexIsValid(idx: seq<nat>, recs: seq<Rec>)
    requires IndexOf(idx, recs)
    ensures ValidIndex(idx, |recs|)
  {
    assert IsBoundary(recs, 0, idx[0]) && IsBoundary(recs, BUCKETS, idx[BUCKETS]);
    assert recs != [] ==> 0 <= Bucket(recs[0]);
    assert idx[BUCKETS] < |recs| ==> Bucket(recs[idx[BUCKETS]]) < BUCKETS;
    forall b | 0 <= b < BUCKETS ensures BucketInside(idx, b, |recs|) {
      assert IsBoundary(recs, b, idx[b]) && IsBoundary(recs, b + 1, idx[b + 1]);
      assert idx[b + 1] < |recs| ==> 0 <= Bucket(recs[idx[b + 1]]);
    }
  }

  // ---------- Lookup

  /** bl_image_contains. On any index that bl_image_valid accepts it reads only the
      count entries; on the image of recs it answers membership in recs. */
  method ImageContains(idx: array<nat>, ent: array<nat>, count: nat, h: Rec, ghost recs: seq<Rec>) returns (found: bool)
    requires ValidIndex(idx[..], count) && count <= ent.Length
    ensures Strict(recs) && Encodes(idx[..], ent[..], recs) ==> (found <==> h in recs)
  {
    BucketRem(h);
    var b, key := Bucket(h), Rem(h);
    assert BucketInside(idx[..], b, count);
    var lo, hi := idx[b], idx[b + 1];
    ghost var ours := Strict(recs) && Encodes(idx[..], ent[..], recs);
    if ours {
      BucketBounds(idx[..], recs, b);
    }
    while lo < hi
      invariant 0 <= lo <= hi <= count
      invariant ours ==> (h in recs <==> h in recs[lo..hi])
      invariant ours ==> forall i :: lo <= i < hi ==> Bucket(recs[i]) == b
      invariant ours ==> hi <= |recs|
    {
      var mid := lo + (hi - lo) / 2;
      if ours {
        assert ent[mid] == ent[..][mid] == Rem(recs[mid]);
        HalveBucket(recs, lo, hi, mid, h);
      }
      if ent[mid] < key {
        lo := mid + 1;
      } else if ent[mid] > key {
        hi := mid;
      } else {
        return true;
      }
    }
    return false;
  }

  lemma BucketBounds(idx: seq<nat>, recs: seq<Rec>, b: nat)
    requires IndexOf(idx, recs) && b < BUCKETS
    ensures idx[b] <= idx[b + 1] <= |recs|
    ensures forall i :: idx[b] <= i < idx[b + 1] ==> Bucket(recs[i]) == b
    ensures forall h: Rec :: Bucket(h) == b ==> (h in recs <==> h in recs[idx[b]..idx[b + 1]])
  {
    BuiltIndexIsValid(idx, recs);
    assert BucketInside(idx, b, |recs|);
    assert IsBoundary(recs, b, idx[b]) && IsBoundary(recs, b + 1, idx[b + 1]);
    forall h: Rec | Bucket(h) == b && h in recs ensures h in recs[idx[b]..idx[b + 1]] {
      var i :| 0 <= i < |recs| && recs[i] == h;
      assert idx[b] <= i < idx[b + 1];
      assert recs[idx[b]..idx[b + 1]][i - idx[b]] == h;
    }
  }

  lemma HalveBucket(recs: seq<Rec>, lo: nat, hi: nat, mid: nat, h: Rec)
    requires Strict(recs) && lo <= mid < hi <= |recs|
    requires forall i :: lo <= i < hi ==> Bucket(recs[i]) == Bucket(h)
    ensures Rem(recs[mid]) < Rem(h) ==> (h in recs[lo..hi] <==> h in recs[mid + 1..hi])
    ensures Rem(recs[mid]) > Rem(h) ==> (h in recs[lo..hi] <==> h in recs[lo..mid])
    ensures Rem(recs[mid]) == Rem(h) ==> h in recs
  {
    BucketRem(recs[mid]);
    BucketRem(h);
    assert recs[lo..hi] == recs[lo..mid] + [recs[mid]] + recs[mid + 1..hi];
  }

  // ---------- Decoding again

  /** While the walk's bucket b holds entry k, b and the remainder spell record k. */
  lemma WalkRecovers(idx: seq<nat>, ent: seq<nat>, recs: seq<Rec>, b: nat, k: nat)
    requires Encodes(idx, ent, recs) && k < |recs| && b < BUCKETS && idx[b] <= k < idx[b + 1]
    ensures b * 0x100_0000 + ent[k] == recs[k]
  {
    assert IsBoundary(recs, b, idx[b]) && IsBoundary(recs, b + 1, idx[b + 1]);
    BucketRem(recs[k]);
  }

  /** The state of the two-sided merge walk: old records below k and new records
      below i have been accounted for. */
  ghost predicate Walked(recs: seq<Rec>, k: nat, neu: seq<Rec>, i: nat) {
    k <= |recs| && i <= |neu| &&
    (forall j, m :: 0 <= j < i && k <= m < |recs| ==> neu[j] < recs[m]) &&
    (forall j, m :: i <= j < |neu| && 0 <= m < k ==> recs[m] < neu[j])
  }

  ghost function Common(recs: seq<Rec>, k: nat, neu: seq<Rec>): set<Rec>
    requires k <= |recs|
  {
    Elems(recs[..k]) * Elems(neu)
  }

  /** Everything new before i is below h. */
  ghost predicate Passed(neu: seq<Rec>, i: nat, h: Rec) {
    i <= |neu| && forall j :: 0 <= j < i ==> neu[j] < h
  }

  lemma WalkEnter(recs: seq<Rec>, k: nat, neu: seq<Rec>, i: nat)
    requires Walked(recs, k, neu, i) && k < |recs|
    ensures Passed(neu, i, recs[k])
  {
  }

  lemma OneMore(recs: seq<Rec>, k: nat)
    requires Strict(recs) && k < |recs|
    ensures Elems(recs[..k + 1]) == Elems(recs[..k]) + {recs[k]} && recs[k] !in Elems(recs[..k])
  {
    assert recs[..k + 1] == recs[..k] + [recs[k]];
    ElemsConcat(recs[..k], [recs[k]]);
  }

  lemma InElems(s: seq<Rec>, h: Rec)
    ensures h in Elems(s) <==> h in s
  {
  }

  lemma CommonStep(recs: seq<Rec>, k: nat, neu: seq<Rec>)
    requires Strict(recs) && k < |recs|
    ensures |Common(recs, k + 1, neu)| == |Common(recs, k, neu)| + if recs[k] in neu then 1 else 0
  {
    var h := recs[k];
    hide Elems, Strict;
    OneMore(recs, k);
    InElems(neu, h);
    if h in neu {
      assert Common(recs, k + 1, neu) == Common(recs, k, neu) + {h};
    } else {
      assert Common(recs, k + 1, neu) == Common(recs, k, neu);
    }
  }

  lemma MeetsAtFront(neu: seq<Rec>, i: nat, h: Rec)
    requires Strict(neu) && Passed(neu, i, h) && (i < |neu| ==> h <= neu[i])
    ensures h in neu <==> i < |neu| && neu[i] == h
    ensures forall j :: i < j < |neu| ==> h < neu[j]
  {
  }

  lemma WalkStep(recs: seq<Rec>, k: nat, neu: seq<Rec>, i: nat)
    requires Strict(recs) && Strict(neu) && k < |recs|
    requires Passed(neu, i, recs[k]) && (i < |neu| ==> recs[k] <= neu[i])
    ensures var hit := i < |neu| && neu[i] == recs[k];
            Walked(recs, k + 1, neu, if hit then i + 1 else i) &&
            |Common(recs, k + 1, neu)| == |Common(recs, k, neu)| + if hit then 1 else 0
  {
    MeetsAtFront(neu, i, recs[k]);
    CommonStep(recs, k, neu);
    hide Common, Elems;
  }

  /** reload_diff_vs_sd's walk over a snapshot of recs: it decodes every stored
      record and counts the ones the new list still has. */
  method DiffAgainstSnapshot(idx: array<nat>, ent: array<nat>, neu: array<Rec>, nNew: nat, ghost recs: seq<Rec>)
    returns (common: nat, decoded: seq<Rec>)
    requires idx.Length == BUCKETS + 1 && Strict(recs) && Encodes(idx[..], ent[..], recs)
    requires nNew <= neu.Length && Strict(neu[..nNew])
    ensures decoded == recs
    ensures common == |Elems(recs) * Elems(neu[..nNew])|
  {
    hide Walked, Common, Passed, Elems, Strict;
    ghost var s := neu[..nNew];
    BuiltIndexIsValid(idx[..], recs);
    WalkNone(recs, s);
    var count := idx[BUCKETS];
    var b, i := 0, 0;
    common, decoded := 0, [];
    for k := 0 to count
      invariant b <= BUCKETS && idx[b] <= k
      invariant decoded == recs[..k]
      invariant i <= nNew && Walked(recs, k, s, i)
      invariant common == |Common(recs, k, s)|
    {
      while b < BUCKETS && idx[b + 1] <= k
        invariant b <= BUCKETS && idx[b] <= k
      {
        b := b + 1;
      }
      assert b < BUCKETS && idx[..][b] <= k < idx[..][b + 1];
      hide Encodes, IndexOf, IsBoundary;
      WalkEnter(recs, k, s, i);
      WalkRecovers(idx[..], ent[..], recs, b, k);
      var h: Rec := b * 0x100_0000 + ent[k];
      decoded := decoded + [h];
      while i < nNew && neu[i] < h
        invariant i <= nNew && Passed(s, i, h)
      {
        PassedStep(s, i, h);
        i := i + 1;
      }
      WalkStep(recs, k, s, i);
      if i < nNew && neu[i] == h {
        common := common + 1;
        i := i + 1;
      }
    }
    assert recs[..count] == recs;
    WalkDone(recs, s);
  }

  lemma WalkNone(recs: seq<Rec>, neu: seq<Rec>)
    ensures Walked(recs, 0, neu, 0) && Common(recs, 0, neu) == {}
  {
  }

  lemma WalkDone(recs: seq<Rec>, neu: seq<Rec>)
    ensures Common(recs, |recs|, neu) == Elems(recs) * Elems(neu)
  {
    assert recs[..|recs|] == recs;
  }

  lemma PassedStep(neu: seq<Rec>, i: nat, h: Rec)
    requires Passed(neu, i, h) && i < |neu| && neu[i] < h
    ensures Passed(neu, i + 1, h)
  {
  }

  /** Two snapshots of the same set decode to the same records. */
  lemma ImageDeterminesRecords(idx: seq<nat>, ent: seq<nat>, r: seq<Rec>, t: seq<Rec>)
    requires Encodes(idx, ent, r) && Encodes(idx, ent, t)
    ensures r == t
  {
    BuiltIndexIsValid(idx, r);
    BuiltIndexIsValid(idx, t);
    assert |r| == |t| == idx[BUCKETS];
    forall k | 0 <= k < |r| ensures r[k] == t[k] {
      BucketRem(r[k]);
      BucketRem(t[k]);
      var b, c := Bucket(r[k]), Bucket(t[k]);
      assert IsBoundary(r, b, idx[b]) && IsBoundary(t, b, idx[b]);
      assert IsBoundary(r, c, idx[c]) && IsBoundary(t, c, idx[c]);
    }
  }
}
