/** 40-bit block records: what a sorted record array is, and the five-pass
    radix sort that produces one.

    A record is kept as the number it stores; Section "Byte layout" shows that
    the big-endian bytes compare with memcmp exactly as the numbers do. All the
    record arrays of a reload live in one buffer, addressed by offsets, because
    the sort and the fold use the buffer's own free tail as scratch. */
module Records {
  import opened Bytes

  type Rec = r: int | 0 <= r < 0x100_0000_0000

  // ---------- Ordered record sequences

  ghost predicate Ascending(s: seq<Rec>) {
    forall i, j :: 0 <= i < j < |s| ==> s[i] <= s[j]
  }

  ghost predicate Strict(s: seq<Rec>) {
    forall i, j :: 0 <= i < j < |s| ==> s[i] < s[j]
  }

  function Elems(s: seq<Rec>): set<Rec> {
    set r | r in s
  }

  lemma ElemsConcat(s: seq<Rec>, t: seq<Rec>)
    ensures Elems(s + t) == Elems(s) + Elems(t)
  {
  }

  lemma AscendingCons(x: Rec, s: seq<Rec>)
    requires Ascending(s) && forall r :: r in s ==> x <= r
    ensures Ascending([x] + s)
  {
    forall j | 0 <= j < |s| ensures x <= s[j] {
      assert s[j] in s;
    }
  }

  lemma StrictSnoc(s: seq<Rec>, x: Rec)
    requires Strict(s) && (s != [] ==> s[|s| - 1] < x)
    ensures Strict(s + [x])
  {
    forall i | 0 <= i < |s| ensures s[i] < x {
      assert s[i] <= s[|s| - 1];
    }
  }

  lemma AscendingConcat(s: seq<Rec>, t: seq<Rec>)
    requires Ascending(s) && Ascending(t)
    requires forall i, r :: 0 <= i < |s| && r in t ==> s[i] <= r
    ensures Ascending(s + t)
  {
    forall i, j | 0 <= i < j < |s + t| ensures (s + t)[i] <= (s + t)[j] {
      if i < |s| <= j {
        assert t[j - |s|] in t;
      }
    }
  }

  function Insert(x: Rec, s: seq<Rec>): seq<Rec> {
    if s == [] || x <= s[0] then [x] + s else [s[0]] + Insert(x, s[1..])
  }

  /** The ascending rearrangement of s. */
  function Sorted(s: seq<Rec>): seq<Rec> {
    if s == [] then [] else Insert(s[0], Sorted(s[1..]))
  }

  lemma {:induction false} InsertPermutes(x: Rec, s: seq<Rec>)
    ensures multiset(Insert(x, s)) == multiset{x} + multiset(s)
  {
    if s != [] && x > s[0] {
      InsertPermutes(x, s[1..]);
      assert s == [s[0]] + s[1..];
    }
  }

  lemma {:induction false} InsertAscends(x: Rec, s: seq<Rec>)
    requires Ascending(s)
    ensures Ascending(Insert(x, s))
  {
    if s != [] && x > s[0] {
      var t := Insert(x, s[1..]);
      InsertAscends(x, s[1..]);
      InsertPermutes(x, s[1..]);
      forall j | 0 <= j < |t| ensures s[0] <= t[j] {
        assert t[j] in multiset(t);
      }
    }
  }

  lemma {:induction false} SortedPermutes(s: seq<Rec>)
    ensures multiset(Sorted(s)) == multiset(s)
  {
    if s != [] {
      SortedPermutes(s[1..]);
      InsertPermutes(s[0], Sorted(s[1..]));
      assert s == [s[0]] + s[1..];
    }
  }

  lemma {:induction false} SortedAscends(s: seq<Rec>)
    ensures Ascending(Sorted(s))
  {
    if s != [] {
      SortedAscends(s[1..]);
      InsertAscends(s[0], Sorted(s[1..]));
    }
  }

  lemma SortedIsAscendingPermutation(s: seq<Rec>)
    ensures Ascending(Sorted(s)) && multiset(Sorted(s)) == multiset(s)
    ensures |Sorted(s)| == |s| && Elems(Sorted(s)) == Elems(s)
  {
    SortedAscends(s);
    SortedPermutes(s);
    PermutationFacts(Sorted(s), s);
  }

  lemma PermutationFacts(s: seq<Rec>, t: seq<Rec>)
    requires multiset(s) == multiset(t)
    ensures |s| == |t| && Elems(s) == Elems(t)
  {
    assert |multiset(s)| == |s| && |multiset(t)| == |t|;
    forall r ensures r in s <==> r in t {
      assert r in s <==> r in multiset(s);
      assert r in t <==> r in multiset(t);
    }
  }

  lemma TailMultiset(s: seq<Rec>)
    requires s != []
    ensures multiset(s[1..]) == multiset(s) - multiset{s[0]}
  {
    assert s == [s[0]] + s[1..];
  }

  /** An ascending sequence is determined by its multiset. */
  lemma {:induction false} AscendingIsUnique(s: seq<Rec>, t: seq<Rec>)
    requires Ascending(s) && Ascending(t) && multiset(s) == multiset(t)
    ensures s == t
  {
    PermutationFacts(s, t);
    if s != [] {
      assert s[0] == t[0] by {
        assert s[0] in Elems(t) && t[0] in Elems(s);
      }
      TailMultiset(s);
      TailMultiset(t);
      AscendingIsUnique(s[1..], t[1..]);
      assert s == [s[0]] + s[1..] && t == [t[0]] + t[1..];
    }
  }

  lemma StrictTail(s: seq<Rec>)
    requires Strict(s) && s != []
    ensures Strict(s[1..]) && Elems(s[1..]) == Elems(s) - {s[0]}
  {
    assert s == [s[0]] + s[1..];
  }

  /** A strictly ascending sequence is determined by its set of records. */
  lemma {:induction false} StrictIsUnique(s: seq<Rec>, t: seq<Rec>)
    requires Strict(s) && Strict(t) && Elems(s) == Elems(t)
    ensures s == t
  {
    StrictCardinality(s);
    StrictCardinality(t);
    if s != [] {
      assert s[0] in Elems(t);
      assert s[0] == t[0] by {
        assert t[0] in Elems(s);
      }
      StrictTail(s);
      StrictTail(t);
      StrictIsUnique(s[1..], t[1..]);
      assert s == [s[0]] + s[1..] && t == [t[0]] + t[1..];
    }
  }

  lemma {:induction false} StrictCardinality(s: seq<Rec>)
    requires Strict(s)
    ensures |Elems(s)| == |s|
  {
    if s != [] {
      StrictCardinality(s[1..]);
      assert Elems(s) == {s[0]} + Elems(s[1..]);
    }
  }

  // ---------- Byte layout

  /** Byte k of the five-byte big-endian form; byte 0 is the most significant. */
  function Digit(r: Rec, k: nat): byte
    requires k < 5
    decreases 5 - k
  {
    if k == 4 then r % 256 else Digit(r / 256, k + 1)
  }

  function RecPut(r: Rec): seq<byte> {
    seq(5, k requires 0 <= k < 5 => Digit(r, k))
  }

  /** The place value of byte k. */
  function Weight(k: nat): nat
    requires k < 5
  {
    if k == 0 then 0x1_0000_0000 else if k == 1 then 0x100_0000
    else if k == 2 then 0x1_0000 else if k == 3 then 0x100 else 1
  }

  /** The number the bytes k.. of a record spell. */
  function Low(b: seq<byte>, k: nat): (v: nat)
    requires |b| == 5 && k <= 5
    ensures v < if k == 0 then 0x100_0000_0000 else Weight(k - 1)
    decreases 5 - k
  {
    if k == 5 then 0 else b[k] as int * Weight(k) + Low(b, k + 1)
  }

  function RecGet(b: seq<byte>): Rec
    requires |b| == 5
  {
    Low(b, 0)
  }

  /** The sign memcmp returns for two buffers of equal length. */
  function Memcmp(a: seq<byte>, b: seq<byte>): int
    requires |a| == |b|
  {
    if a == [] then 0
    else if a[0] < b[0] then -1
    else if a[0] > b[0] then 1
    else Memcmp(a[1..], b[1..])
  }

  lemma RecPutRoundTrip(r: Rec)
    ensures RecGet(RecPut(r)) == r
  {
    var b := RecPut(r);
    var q3 := r / 256;
    var q2 := q3 / 256;
    var q1 := q2 / 256;
    var q0 := q1 / 256;
    assert b[4] == r % 256;
    assert b[3] == Digit(q3, 4) == q3 % 256;
    assert b[2] == Digit(q3, 3) == Digit(q2, 4) == q2 % 256;
    assert b[1] == Digit(q3, 2) == Digit(q2, 3) == Digit(q1, 4) == q1 % 256;
    assert b[0] == Digit(q3, 1) == Digit(q2, 2) == Digit(q1, 3) == Digit(q0, 4) == q0 % 256;
    assert q0 < 256;
    LowUnrolled(b);
  }

  lemma LowUnrolled(b: seq<byte>)
    requires |b| == 5
    ensures Low(b, 4) == b[4]
    ensures Low(b, 3) == b[3] as int * 0x100 + Low(b, 4)
    ensures Low(b, 2) == b[2] as int * 0x1_0000 + Low(b, 3)
    ensures Low(b, 1) == b[1] as int * 0x100_0000 + Low(b, 2)
    ensures Low(b, 0) == b[0] as int * 0x1_0000_0000 + Low(b, 1)
  {
    assert Low(b, 5) == 0;
  }

  /** Two byte strings compare, from byte k on, as the numbers they spell. */
  lemma {:induction false} MemcmpIsLowOrder(a: seq<byte>, b: seq<byte>, k: nat)
    requires |a| == |b| == 5 && k <= 5
    ensures Memcmp(a[k..], b[k..]) < 0 <==> Low(a, k) < Low(b, k)
    ensures Memcmp(a[k..], b[k..]) == 0 <==> Low(a, k) == Low(b, k)
    decreases 5 - k
  {
    if k < 5 {
      MemcmpIsLowOrder(a, b, k + 1);
      MemcmpStep(a[k..], b[k..]);
      assert a[k..][1..] == a[k + 1..] && b[k..][1..] == b[k + 1..];
      LowOrderStep(a, b, k);
    }
  }

  lemma MemcmpStep(a: seq<byte>, b: seq<byte>)
    requires |a| == |b| > 0
    ensures Memcmp(a, b) < 0 <==> a[0] < b[0] || (a[0] == b[0] && Memcmp(a[1..], b[1..]) < 0)
    ensures Memcmp(a, b) == 0 <==> a[0] == b[0] && Memcmp(a[1..], b[1..]) == 0
  {
  }

  lemma LowOrderStep(a: seq<byte>, b: seq<byte>, k: nat)
    requires |a| == |b| == 5 && k < 5
    ensures Low(a, k) < Low(b, k) <==> a[k] < b[k] || (a[k] == b[k] && Low(a, k + 1) < Low(b, k + 1))
    ensures Low(a, k) == Low(b, k) <==> a[k] == b[k] && Low(a, k + 1) == Low(b, k + 1)
  {
    PlaceValueOrder(a[k], Low(a, k + 1), b[k], Low(b, k + 1), Weight(k));
    PlaceValueOrder(b[k], Low(b, k + 1), a[k], Low(a, k + 1), Weight(k));
  }

  lemma PlaceValueOrder(x: int, v: int, y: int, u: int, w: int)
    requires 0 <= v < w && 0 <= u < w
    ensures x * w + v < y * w + u <==> x < y || (x == y && v < u)
  {
    if x < y {
      assert (x + 1) * w <= y * w;
    } else if y < x {
      assert (y + 1) * w <= x * w;
    }
  }

  /** memcmp on stored records is the numeric comparator. */
  lemma MemcmpIsNumericOrder(x: Rec, y: Rec)
    ensures Memcmp(RecPut(x), RecPut(y)) < 0 <==> x < y
    ensures Memcmp(RecPut(x), RecPut(y)) == 0 <==> x == y
  {
    MemcmpIsLowOrder(RecPut(x), RecPut(y), 0);
    assert RecPut(x)[0..] == RecPut(x) && RecPut(y)[0..] == RecPut(y);
    RecPutRoundTrip(x);
    RecPutRoundTrip(y);
  }

  lemma {:induction false} MemcmpZero(a: seq<byte>, b: seq<byte>)
    requires |a| == |b| && Memcmp(a, b) == 0
    ensures a == b
  {
    if a != [] {
      MemcmpZero(a[1..], b[1..]);
      assert a == [a[0]] + a[1..] && b == [b[0]] + b[1..];
    }
  }

  /** Storing the number read back from five bytes gives the same bytes. */
  lemma RecGetRoundTrip(b: seq<byte>)
    requires |b| == 5
    ensures RecPut(RecGet(b)) == b
  {
    var c := RecPut(RecGet(b));
    RecPutRoundTrip(RecGet(b));
    MemcmpIsLowOrder(b, c, 0);
    assert b[0..] == b && c[0..] == c;
    MemcmpZero(b, c);
  }
}
