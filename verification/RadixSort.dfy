/** The LSD radix sort of main/bl_table.c: five stable counting passes over the
    big-endian bytes of a record, from byte 4 up to byte 0, ping-ponging between
    two equal stretches of one buffer. */
module RadixSort {
  import opened Records

  // ---------- What one pass computes

  /** The records of s whose byte k is v, in their order in s. */
  ghost function Filter(s: seq<Rec>, k: nat, v: nat): seq<Rec>
    requires k < 5
  {
    if s == [] then []
    else
      var rest := Filter(s[..|s| - 1], k, v);
      if Digit(s[|s| - 1], k) == v then rest + [s[|s| - 1]] else rest
  }

  /** The records of s whose byte k is below v: bucket 0, then bucket 1, ... */
  ghost function Buckets(s: seq<Rec>, k: nat, v: nat): seq<Rec>
    requires k < 5
  {
    if v == 0 then [] else Buckets(s, k, v - 1) + Filter(s, k, v - 1)
  }

  lemma FilterSnoc(s: seq<Rec>, i: nat, k: nat, v: nat)
    requires i < |s| && k < 5
    ensures Filter(s[..i + 1], k, v) ==
            if Digit(s[i], k) == v then Filter(s[..i], k, v) + [s[i]] else Filter(s[..i], k, v)
  {
    assert s[..i + 1][..i] == s[..i];
  }

  lemma {:induction false} FilterMembers(s: seq<Rec>, k: nat, v: nat)
    requires k < 5
    ensures forall r :: r in Filter(s, k, v) ==> r in s && Digit(r, k) == v
  {
    if s != [] {
      FilterMembers(s[..|s| - 1], k, v);
    }
  }

  lemma {:induction false} FilterGrows(s: seq<Rec>, i: nat, k: nat, v: nat)
    requires i <= |s| && k < 5
    ensures |Filter(s[..i], k, v)| <= |Filter(s, k, v)|
    decreases |s| - i
  {
    if i < |s| {
      FilterSnoc(s, i, k, v);
      FilterGrows(s, i + 1, k, v);
    } else {
      assert s[..i] == s;
    }
  }

  lemma {:induction false} BucketsGrow(s: seq<Rec>, k: nat, v: nat, w: nat)
    requires k < 5 && v <= w
    ensures |Buckets(s, k, v)| <= |Buckets(s, k, w)|
  {
    if v < w {
      BucketsGrow(s, k, v, w - 1);
    }
  }

  /** Appending one record appends it to exactly one bucket. */
  lemma {:induction false} BucketsSnocMultiset(s: seq<Rec>, k: nat, v: nat)
    requires k < 5 && s != []
    ensures var r := s[|s| - 1];
            multiset(Buckets(s, k, v)) == multiset(Buckets(s[..|s| - 1], k, v)) +
                                          if Digit(r, k) < v then multiset{r} else multiset{}
  {
    if v > 0 {
      BucketsSnocMultiset(s, k, v - 1);
    }
  }

  /** A pass is a permutation: all 256 buckets together hold exactly s. */
  lemma {:induction false} PassPermutes(s: seq<Rec>, k: nat)
    requires k < 5
    ensures multiset(Buckets(s, k, 256)) == multiset(s) && |Buckets(s, k, 256)| == |s|
  {
    if s == [] {
      EmptyBuckets(k, 256);
    } else {
      PassPermutes(s[..|s| - 1], k);
      BucketsSnocMultiset(s, k, 256);
      assert s == s[..|s| - 1] + [s[|s| - 1]];
    }
    PermutationFacts(Buckets(s, k, 256), s);
  }

  lemma {:induction false} EmptyBuckets(k: nat, v: nat)
    requires k < 5
    ensures Buckets([], k, v) == []
  {
    if v > 0 {
      EmptyBuckets(k, v - 1);
    }
  }

  // ---------- Why five passes sort

  /** s ascends by the number its records' bytes k.. spell. */
  ghost predicate AscendsFrom(s: seq<Rec>, k: nat)
    requires k <= 5
  {
    forall i, j :: 0 <= i < j < |s| ==> Low(RecPut(s[i]), k) <= Low(RecPut(s[j]), k)
  }

  lemma {:induction false} FilterKeepsOrder(s: seq<Rec>, k: nat, v: nat)
    requires k < 5 && AscendsFrom(s, k + 1)
    ensures AscendsFrom(Filter(s, k, v), k + 1)
  {
    if s != [] {
      var t := s[..|s| - 1];
      FilterKeepsOrder(t, k, v);
      FilterMembers(t, k, v);
      var f := Filter(t, k, v);
      forall i | 0 <= i < |f|
        ensures Low(RecPut(f[i]), k + 1) <= Low(RecPut(s[|s| - 1]), k + 1)
      {
        assert f[i] in t;
        var m :| 0 <= m < |t| && t[m] == f[i];
        assert s[m] == f[i];
      }
    }
  }

  lemma {:induction false} BucketDigits(s: seq<Rec>, k: nat, v: nat)
    requires k < 5
    ensures forall r :: r in Buckets(s, k, v) ==> Digit(r, k) < v
  {
    if v > 0 {
      BucketDigits(s, k, v - 1);
      FilterMembers(s, k, v - 1);
    }
  }

  lemma OrderFromDigit(x: Rec, y: Rec, k: nat)
    requires k < 5
    requires Digit(x, k) < Digit(y, k) ||
             (Digit(x, k) == Digit(y, k) && Low(RecPut(x), k + 1) <= Low(RecPut(y), k + 1))
    ensures Low(RecPut(x), k) <= Low(RecPut(y), k)
  {
    var a, b := RecPut(x), RecPut(y);
    PlaceValueOrder(a[k], Low(a, k + 1), b[k], Low(b, k + 1), Weight(k));
  }

  /** A stable pass over byte k turns order on bytes k+1.. into order on bytes k... */
  lemma {:induction false} PassOrders(s: seq<Rec>, k: nat, v: nat)
    requires k < 5 && AscendsFrom(s, k + 1)
    ensures AscendsFrom(Buckets(s, k, v), k)
  {
    if v > 0 {
      PassOrders(s, k, v - 1);
      FilterKeepsOrder(s, k, v - 1);
      BucketDigits(s, k, v - 1);
      FilterMembers(s, k, v - 1);
      var b, f := Buckets(s, k, v - 1), Filter(s, k, v - 1);
      forall i, j | 0 <= i < j < |b + f|
        ensures Low(RecPut((b + f)[i]), k) <= Low(RecPut((b + f)[j]), k)
      {
        if j >= |b| {
          assert f[j - |b|] in f;
          if i < |b| {
            assert b[i] in b;
          } else {
            assert f[i - |b|] in f;
          }
          OrderFromDigit((b + f)[i], (b + f)[j], k);
        }
      }
    }
  }

  /** Passes 4, 3, .., k applied in turn. */
  ghost function Passes(s: seq<Rec>, k: nat): seq<Rec>
    requires k <= 5
    decreases 5 - k
  {
    if k == 5 then s else Buckets(Passes(s, k + 1), k, 256)
  }

  lemma {:induction false} PassesSortLowBytes(s: seq<Rec>, k: nat)
    requires k <= 5
    ensures multiset(Passes(s, k)) == multiset(s) && |Passes(s, k)| == |s|
    ensures AscendsFrom(Passes(s, k), k)
    decreases 5 - k
  {
    if k < 5 {
      PassesSortLowBytes(s, k + 1);
      PassPermutes(Passes(s, k + 1), k);
      PassOrders(Passes(s, k + 1), k, 256);
    }
  }

  /** All five passes produce the ascending permutation of the input. */
  lemma FivePassesSort(s: seq<Rec>)
    ensures Passes(s, 0) == Sorted(s)
  {
    PassesSortLowBytes(s, 0);
    var t := Passes(s, 0);
    forall i, j | 0 <= i < j < |t| ensures t[i] <= t[j] {
      RecPutRoundTrip(t[i]);
      RecPutRoundTrip(t[j]);
    }
    SortedIsAscendingPermutation(s);
    AscendingIsUnique(t, Sorted(s));
  }

  // ---------- The pass as the source runs it

  ghost predicate Disjoint(src: nat, dst: nat, n: nat) {
    src + n <= dst || dst + n <= src
  }

  ghost predicate SameOutside(now: seq<Rec>, before: seq<Rec>, lo: nat, hi: nat) {
    |now| == |before| && forall i :: 0 <= i < |now| && !(lo <= i < hi) ==> now[i] == before[i]
  }

  ghost function Start(s: seq<Rec>, k: nat, v: nat): nat
    requires k < 5
  {
    |Buckets(s, k, v)|
  }

  /** Counts byte k of every record, then turns counts into start offsets. */
  method BucketOffsets(buf: array<Rec>, src: nat, n: nat, k: nat) returns (cnt: array<nat>)
    requires src + n <= buf.Length && k < 5
    ensures fresh(cnt) && cnt.Length == 256
    ensures forall v :: 0 <= v < 256 ==> cnt[v] == Start(buf[src..src + n], k, v)
  {
    cnt := new nat[256](_ => 0);
    ghost var s := buf[src..src + n];
    for i := 0 to n
      invariant forall v :: 0 <= v < 256 ==> cnt[v] == |Filter(s[..i], k, v)|
    {
      var d: nat := Digit(buf[src + i], k);
      forall v | 0 <= v < 256 ensures |Filter(s[..i + 1], k, v)| == cnt[v] + if v == d then 1 else 0 {
        FilterSnoc(s, i, k, v);
      }
      cnt[d] := cnt[d] + 1;
    }
    assert s[..n] == s;
    var prefix := 0;
    for j := 0 to 256
      invariant prefix == Start(s, k, j)
      invariant forall v :: 0 <= v < j ==> cnt[v] == Start(s, k, v)
      invariant forall v :: j <= v < 256 ==> cnt[v] == |Filter(s, k, v)|
    {
      var c := cnt[j];
      cnt[j] := prefix;
      prefix := prefix + c;
    }
  }

  /** Bucket v's stretch of t starts with f. */
  ghost predicate Filled(t: seq<Rec>, start: nat, f: seq<Rec>) {
    start + |f| <= |t| && t[start..start + |f|] == f
  }

  lemma BucketsUnfold(s: seq<Rec>, k: nat, v: nat)
    requires k < 5 && v > 0
    ensures Buckets(s, k, v) == Buckets(s, k, v - 1) + Filter(s, k, v - 1)
  {
  }

  lemma FilledNext(t: seq<Rec>, a: seq<Rec>, f: seq<Rec>)
    requires |a| <= |t| && t[..|a|] == a && Filled(t, |a|, f)
    ensures |a + f| <= |t| && t[..|a + f|] == a + f
  {
  }

  lemma {:induction false} FilledIsBuckets(t: seq<Rec>, s: seq<Rec>, k: nat, v: nat)
    requires k < 5 && |t| == |s| && v <= 256
    requires forall u :: 0 <= u < 256 ==> Filled(t, Start(s, k, u), Filter(s, k, u))
    ensures Start(s, k, v) <= |t| && t[..Start(s, k, v)] == Buckets(s, k, v)
  {
    if v > 0 {
      hide Filter, Filled, Buckets;
      FilledIsBuckets(t, s, k, v - 1);
      BucketsUnfold(s, k, v);
      FilledNext(t, Buckets(s, k, v - 1), Filter(s, k, v - 1));
    }
  }

  lemma PlaceInRange(s: seq<Rec>, i: nat, k: nat)
    requires i < |s| && k < 5
    ensures Start(s, k, Digit(s[i], k)) + |Filter(s[..i], k, Digit(s[i], k))| < |s|
  {
    var d: nat := Digit(s[i], k);
    FilterSnoc(s, i, k, d);
    FilterGrows(s, i + 1, k, d);
    BucketsGrow(s, k, d + 1, 256);
    PassPermutes(s, k);
  }

  /** Where a pass stands after i records: every bucket's write position and the
      records already in it. */
  ghost predicate Placed(cnt: seq<nat>, t: seq<Rec>, s: seq<Rec>, i: nat, k: nat)
    requires i <= |s| && k < 5
  {
    |cnt| == 256 && |t| == |s| &&
    forall v :: 0 <= v < 256 ==> PlacedIn(cnt[v], t, s, i, k, v)
  }

  ghost predicate PlacedIn(next: nat, t: seq<Rec>, s: seq<Rec>, i: nat, k: nat, v: nat)
    requires i <= |s| && k < 5
  {
    next == Start(s, k, v) + |Filter(s[..i], k, v)| && Filled(t, Start(s, k, v), Filter(s[..i], k, v))
  }

  /** Writing the next record of bucket d leaves the other buckets alone. */
  lemma PlaceElsewhere(next: nat, at: nat, t: seq<Rec>, s: seq<Rec>, i: nat, k: nat, v: nat)
    requires i < |s| && k < 5 && v < 256 && |t| == |s| && v != Digit(s[i], k)
    requires PlacedIn(next, t, s, i, k, v)
    requires at == Start(s, k, Digit(s[i], k)) + |Filter(s[..i], k, Digit(s[i], k))| < |t|
    ensures PlacedIn(next, t[at := s[i]], s, i + 1, k, v)
  {
    var d: nat := Digit(s[i], k);
    FilterSnoc(s, i, k, v);
    FilterSnoc(s, i, k, d);
    FilterGrows(s, i, k, v);
    FilterGrows(s, i + 1, k, d);
    if v < d {
      BucketsGrow(s, k, v + 1, d);
    } else {
      BucketsGrow(s, k, d + 1, v);
    }
    var f, a := Filter(s[..i], k, v), Start(s, k, v);
    assert !(a <= at < a + |f|);
    assert t[at := s[i]][a..a + |f|] == t[a..a + |f|];
  }

  lemma PlaceHere(next: nat, t: seq<Rec>, s: seq<Rec>, i: nat, k: nat)
    requires i < |s| && k < 5 && |t| == |s| && next < |t|
    requires PlacedIn(next, t, s, i, k, Digit(s[i], k))
    ensures PlacedIn(next + 1, t[next := s[i]], s, i + 1, k, Digit(s[i], k))
  {
    var d: nat := Digit(s[i], k);
    FilterSnoc(s, i, k, d);
    var f, a := Filter(s[..i], k, d), Start(s, k, d);
    assert t[next := s[i]][a..a + |f| + 1] == t[a..a + |f|] + [s[i]];
  }

  lemma PlaceStep(cnt: seq<nat>, t: seq<Rec>, s: seq<Rec>, i: nat, k: nat)
    requires i < |s| && k < 5 && Placed(cnt, t, s, i, k)
    ensures var d: nat := Digit(s[i], k);
            cnt[d] < |t| && Placed(cnt[d := cnt[d] + 1], t[cnt[d] := s[i]], s, i + 1, k)
  {
    var d: nat := Digit(s[i], k);
    PlaceInRange(s, i, k);
    assert PlacedIn(cnt[d], t, s, i, k, d);
    PlaceHere(cnt[d], t, s, i, k);
    var cnt', t' := cnt[d := cnt[d] + 1], t[cnt[d] := s[i]];
    forall v | 0 <= v < 256 ensures PlacedIn(cnt'[v], t', s, i + 1, k, v) {
      if v != d {
        PlaceElsewhere(cnt[v], cnt[d], t, s, i, k, v);
      }
    }
  }

  lemma PlacedNone(cnt: seq<nat>, t: seq<Rec>, s: seq<Rec>, k: nat)
    requires k < 5 && |cnt| == 256 && |t| == |s|
    requires forall v :: 0 <= v < 256 ==> cnt[v] == Start(s, k, v)
    ensures Placed(cnt, t, s, 0, k)
  {
    PassPermutes(s, k);
    forall v | 0 <= v < 256 ensures PlacedIn(cnt[v], t, s, 0, k, v) {
      BucketsGrow(s, k, v, 256);
    }
  }

  lemma PlacedAll(cnt: seq<nat>, t: seq<Rec>, s: seq<Rec>, k: nat)
    requires k < 5 && Placed(cnt, t, s, |s|, k)
    ensures t == Buckets(s, k, 256)
  {
    assert s[..|s|] == s;
    forall v | 0 <= v < 256 ensures Filled(t, Start(s, k, v), Filter(s, k, v)) {
      assert PlacedIn(cnt[v], t, s, |s|, k, v);
    }
    FilledIsBuckets(t, s, k, 256);
    PassPermutes(s, k);
    assert t[..|t|] == t;
  }

  /** The whole buffer b in the middle of a pass that started from b0. */
  ghost predicate MidPass(b: seq<Rec>, b0: seq<Rec>, cnt: seq<nat>, src: nat, dst: nat, n: nat, i: nat, k: nat) {
    k < 5 && i <= n && src + n <= |b| && dst + n <= |b| && SameOutside(b, b0, dst, dst + n) &&
    Placed(cnt, b[dst..dst + n], b0[src..src + n], i, k)
  }

  lemma SliceUpdate(b: seq<Rec>, lo: nat, n: nat, at: nat, r: Rec)
    requires lo + n <= |b| && at < n
    ensures b[lo + at := r][lo..lo + n] == b[lo..lo + n][at := r]
  {
  }

  lemma PlacedHasCounts(cnt: seq<nat>, t: seq<Rec>, s: seq<Rec>, i: nat, k: nat)
    requires i <= |s| && k < 5 && Placed(cnt, t, s, i, k)
    ensures |cnt| == 256
  {
  }

  lemma MidPassStep(b: seq<Rec>, b0: seq<Rec>, cnt: seq<nat>, src: nat, dst: nat, n: nat, i: nat, k: nat)
    requires MidPass(b, b0, cnt, src, dst, n, i, k) && i < n && Disjoint(src, dst, n)
    ensures b[src + i] == b0[src + i]
    ensures var d: nat := Digit(b[src + i], k);
            cnt[d] < n &&
            MidPass(b[dst + cnt[d] := b[src + i]], b0, cnt[d := cnt[d] + 1], src, dst, n, i + 1, k)
  {
    hide Placed, Digit;
    var s := b0[src..src + n];
    assert s[i] == b0[src + i] == b[src + i];
    PlaceStep(cnt, b[dst..dst + n], s, i, k);
    PlacedHasCounts(cnt, b[dst..dst + n], s, i, k);
    SliceUpdate(b, dst, n, cnt[Digit(s[i], k)], s[i]);
  }

  /** One counting pass over byte k, from buf[src..src+n) to buf[dst..dst+n). */
  method CountingPass(buf: array<Rec>, src: nat, dst: nat, n: nat, k: nat)
    requires src + n <= buf.Length && dst + n <= buf.Length && Disjoint(src, dst, n) && k < 5
    modifies buf
    ensures buf[dst..dst + n] == Buckets(old(buf[src..src + n]), k, 256)
    ensures SameOutside(buf[..], old(buf[..]), dst, dst + n)
  {
    hide Buckets, Placed;
    ghost var b0 := buf[..];
    assert buf[src..src + n] == b0[src..src + n];
    var cnt := BucketOffsets(buf, src, n, k);
    PlacedNone(cnt[..], b0[dst..dst + n], b0[src..src + n], k);
    for i := 0 to n
      invariant MidPass(buf[..], b0, cnt[..], src, dst, n, i, k)
    {
      ghost var b, c := buf[..], cnt[..];
      MidPassStep(b, b0, c, src, dst, n, i, k);
      var r := buf[src + i];
      var d: nat := Digit(r, k);
      buf[dst + cnt[d]] := r;
      cnt[d] := cnt[d] + 1;
      assert buf[..] == b[dst + c[d] := r];
      assert cnt[..] == c[d := c[d] + 1];
    }
    PlacedAll(cnt[..], buf[..][dst..dst + n], b0[src..src + n], k);
    assert buf[dst..dst + n] == buf[..][dst..dst + n];
  }

  ghost predicate SameOutsideBoth(now: seq<Rec>, before: seq<Rec>, a: nat, b: nat, n: nat) {
    |now| == |before| &&
    forall i :: 0 <= i < |now| && !(a <= i < a + n) && !(b <= i < b + n) ==> now[i] == before[i]
  }

  lemma SameOutsideStep(now: seq<Rec>, mid: seq<Rec>, before: seq<Rec>, a: nat, b: nat, dst: nat, n: nat)
    requires SameOutsideBoth(mid, before, a, b, n) && SameOutside(now, mid, dst, dst + n)
    requires dst == a || dst == b
    ensures SameOutsideBoth(now, before, a, b, n)
  {
  }

  lemma PassesNone(s: seq<Rec>)
    ensures Passes(s, 5) == s
  {
  }

  lemma PassesUnfold(s: seq<Rec>, k: nat)
    requires k < 5
    ensures Passes(s, k) == Buckets(Passes(s, k + 1), k, 256)
  {
  }

  lemma ShortIsSorted(s: seq<Rec>)
    requires |s| < 2
    ensures Sorted(s) == s
  {
    if s != [] {
      assert s == [s[0]] && s[1..] == [];
    }
  }

  /** The whole buffer b between passes, with passes k-1, .., 0 still to run. */
  ghost predicate BetweenPasses(b: seq<Rec>, b0: seq<Rec>, a: nat, scratch: nat, n: nat, k: nat) {
    k <= 5 && a + n <= |b| && scratch + n <= |b| && SameOutsideBoth(b, b0, a, scratch, n) &&
    var at := if k % 2 == 1 then a else scratch;
    b[at..at + n] == Passes(b0[a..a + n], k)
  }

  lemma BetweenPassesStep(b': seq<Rec>, b: seq<Rec>, b0: seq<Rec>, a: nat, scratch: nat, n: nat, k: nat)
    requires k < 5 && BetweenPasses(b, b0, a, scratch, n, k + 1)
    requires var (src, dst) := if k % 2 == 0 then (a, scratch) else (scratch, a);
             SameOutside(b', b, dst, dst + n) && b'[dst..dst + n] == Buckets(b[src..src + n], k, 256)
    ensures BetweenPasses(b', b0, a, scratch, n, k)
  {
    hide Buckets;
    PassesUnfold(b0[a..a + n], k);
    var dst := if k % 2 == 0 then scratch else a;
    SameOutsideStep(b', b, b0, a, scratch, dst, n);
  }

  /** The five passes, ping-ponging between the two stretches. */
  method RunPasses(buf: array<Rec>, a: nat, scratch: nat, n: nat) returns (landed: nat)
    requires a + n <= buf.Length && scratch + n <= buf.Length && Disjoint(a, scratch, n)
    modifies buf
    ensures landed == scratch
    ensures buf[scratch..scratch + n] == Passes(old(buf[a..a + n]), 0)
    ensures SameOutsideBoth(buf[..], old(buf[..]), a, scratch, n)
  {
    hide Passes, Buckets;
    ghost var b0 := buf[..];
    PassesNone(b0[a..a + n]);
    var src, dst := a, scratch;
    var k := 5;
    while k > 0
      invariant k <= 5
      invariant if k % 2 == 1 then src == a && dst == scratch else src == scratch && dst == a
      invariant BetweenPasses(buf[..], b0, a, scratch, n, k)
    {
      k := k - 1;
      ghost var b := buf[..];
      assert buf[src..src + n] == b[src..src + n];
      CountingPass(buf, src, dst, n, k);
      assert buf[dst..dst + n] == buf[..][dst..dst + n];
      BetweenPassesStep(buf[..], b, b0, a, scratch, n, k);
      src, dst := dst, src;
    }
    assert buf[scratch..scratch + n] == buf[..][scratch..scratch + n];
    return src;
  }

  /** Sorts the n records at a, using the n records at scratch. Five passes is odd,
      so the result is at scratch, unless there was nothing to sort. */
  method SortRecords(buf: array<Rec>, a: nat, scratch: nat, n: nat) returns (landed: nat)
    requires a + n <= buf.Length && scratch + n <= buf.Length && Disjoint(a, scratch, n)
    modifies buf
    ensures landed == if n < 2 then a else scratch
    ensures buf[landed..landed + n] == Sorted(old(buf[a..a + n]))
    ensures SameOutsideBoth(buf[..], old(buf[..]), a, scratch, n)
  {
    if n < 2 {
      ShortIsSorted(buf[a..a + n]);
      return a;
    }
    FivePassesSort(buf[a..a + n]);
    landed := RunPasses(buf, a, scratch, n);
  }
}
