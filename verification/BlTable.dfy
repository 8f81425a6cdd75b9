/** The staging buffer of main/bl_table.c: dedup, sort-and-dedup, binary search,
    and the incremental fold that merges a freshly fetched chunk into the sorted
    prefix of the same buffer. */
module BlTable {
  import opened Records
  import opened RadixSort

  // ---------- Dedup

  /** s with every record equal to its left neighbour dropped. */
  ghost function DropRepeats(s: seq<Rec>): seq<Rec> {
    if |s| < 2 then s
    else
      var t := DropRepeats(s[..|s| - 1]);
      if s[|s| - 1] == s[|s| - 2] then t else t + [s[|s| - 1]]
  }

  lemma {:induction false} DropRepeatsLast(s: seq<Rec>)
    requires s != []
    ensures DropRepeats(s) != [] && |DropRepeats(s)| <= |s|
    ensures DropRepeats(s)[|DropRepeats(s)| - 1] == s[|s| - 1]
  {
    if |s| >= 2 {
      DropRepeatsLast(s[..|s| - 1]);
    }
  }

  /** Dropping repeats from an ascending sequence keeps the set and makes the order strict. */
  lemma {:induction false} DropRepeatsOfAscending(s: seq<Rec>)
    requires Ascending(s)
    ensures Strict(DropRepeats(s)) && Elems(DropRepeats(s)) == Elems(s) && |DropRepeats(s)| <= |s|
  {
    if |s| >= 2 {
      var t := s[..|s| - 1];
      DropRepeatsOfAscending(t);
      DropRepeatsLast(t);
      assert s == t + [s[|s| - 1]];
      ElemsConcat(t, [s[|s| - 1]]);
      ElemsConcat(DropRepeats(t), [s[|s| - 1]]);
      if s[|s| - 1] == s[|s| - 2] {
        assert t[|t| - 1] in t;
      } else {
        StrictSnoc(DropRepeats(t), s[|s| - 1]);
      }
    }
  }

  lemma DropRepeatsSnoc(s: seq<Rec>, i: nat)
    requires 0 < i < |s|
    ensures DropRepeats(s[..i + 1]) ==
            if s[i] == s[i - 1] then DropRepeats(s[..i]) else DropRepeats(s[..i]) + [s[i]]
  {
    assert s[..i + 1][..i] == s[..i];
  }

  /** The whole buffer t after i records of s have been looked at. */
  ghost predicate MidDedup(t: seq<Rec>, t0: seq<Rec>, at: nat, s: seq<Rec>, i: nat, u: nat) {
    0 < u <= i <= |s| && at + |s| <= |t| && SameOutside(t, t0, at, at + i) &&
    t[at..at + u] == DropRepeats(s[..i])
  }

  lemma MidDedupStep(t: seq<Rec>, t0: seq<Rec>, at: nat, s: seq<Rec>, i: nat, u: nat)
    requires MidDedup(t, t0, at, s, i, u) && i < |s| && s == t0[at..at + |s|]
    ensures t[at + i] == s[i] && t[at + u - 1] == s[i - 1]
    ensures s[i] == s[i - 1] ==> MidDedup(t, t0, at, s, i + 1, u)
    ensures s[i] != s[i - 1] ==> MidDedup(t[at + u := s[i]], t0, at, s, i + 1, u + 1)
  {
    hide DropRepeats;
    DropRepeatsLast(s[..i]);
    DropRepeatsSnoc(s, i);
    assert t[at..at + u][u - 1] == t[at + u - 1];
    SliceGrows(t, at, u, s[i]);
  }

  lemma SliceGrows(t: seq<Rec>, at: nat, u: nat, r: Rec)
    requires at + u < |t|
    ensures t[at + u := r][at..at + (u + 1)] == t[at..at + u] + [r]
  {
  }

  /** bl_dedup_records: keeps the first of each run, in place. */
  method DedupRecords(buf: array<Rec>, at: nat, n: nat) returns (u: nat)
    requires at + n <= buf.Length
    modifies buf
    ensures u <= n && buf[at..at + u] == DropRepeats(old(buf[at..at + n]))
    ensures SameOutside(buf[..], old(buf[..]), at, at + n)
  {
    if n == 0 {
      return 0;
    }
    ghost var s, t0 := buf[at..at + n], buf[..];
    assert buf[..][at..at + 1] == s[..1] == DropRepeats(s[..1]);
    hide DropRepeats;
    u := 1;
    for i := 1 to n
      invariant 0 < u <= i && MidDedup(buf[..], t0, at, s, i, u)
    {
      ghost var t := buf[..];
      MidDedupStep(t, t0, at, s, i, u);
      if buf[at + i] != buf[at + (u - 1)] {
        buf[at + u] := buf[at + i];
        assert buf[..] == t[at + u := s[i]];
        u := u + 1;
      }
    }
    assert s[..n] == s && buf[at..at + u] == buf[..][at..at + u];
  }

  // ---------- Sorting within a capacity

  /** Stands for the C library's qsort with the memcmp comparator: the n records
      at `at` end up ascending, in place. */
  method SortRecordsInplace(buf: array<Rec>, at: nat, n: nat)
    requires at + n <= buf.Length
    modifies buf
    ensures buf[at..at + n] == Sorted(old(buf[at..at + n]))
    ensures SameOutside(buf[..], old(buf[..]), at, at + n)
  {
    var t := Sorted(buf[at..at + n]);
    SortedIsAscendingPermutation(buf[at..at + n]);
    hide Sorted;
    forall i | at <= i < at + n {
      buf[i] := t[i - at];
    }
  }

  /** memmove of n records; the source is read in full before anything is written. */
  method Move(buf: array<Rec>, dst: nat, src: nat, n: nat)
    requires src + n <= buf.Length && dst + n <= buf.Length
    modifies buf
    ensures buf[dst..dst + n] == old(buf[src..src + n])
    ensures SameOutside(buf[..], old(buf[..]), dst, dst + n)
  {
    forall i | dst <= i < dst + n {
      buf[i] := buf[i - dst + src];
    }
  }

  /** The strictly ascending sequence of s's records. */
  ghost function Unique(s: seq<Rec>): seq<Rec> {
    DropRepeats(Sorted(s))
  }

  lemma UniqueIsStrict(s: seq<Rec>)
    ensures Strict(Unique(s)) && Elems(Unique(s)) == Elems(s) && |Unique(s)| <= |s|
  {
    SortedIsAscendingPermutation(s);
    DropRepeatsOfAscending(Sorted(s));
  }

  /** Sorts the n records at `at` and leaves them there. The radix sort runs when
      its n scratch records fit below cap, at scratch; otherwise qsort does. */
  method SortAt(buf: array<Rec>, at: nat, scratch: nat, cap: nat, n: nat)
    requires at + n <= scratch && scratch <= cap == buf.Length
    modifies buf
    ensures buf[at..at + n] == Sorted(old(buf[at..at + n]))
    ensures forall i :: 0 <= i < at ==> buf[i] == old(buf[i])
  {
    if scratch + n <= cap {
      var landed := SortRecords(buf, at, scratch, n);
      if landed != at {
        Move(buf, at, landed, n);
      }
    } else {
      SortRecordsInplace(buf, at, n);
    }
  }

  /** bl_sort_dedup: the n records at the base of a cap-record buffer, sorted and
      deduplicated in place. */
  method SortDedup(a: array<Rec>, cap: nat, n: nat) returns (u: nat)
    requires n <= cap == a.Length
    modifies a
    ensures u <= n && a[..u] == Unique(old(a[..n]))
    ensures Strict(a[..u]) && Elems(a[..u]) == Elems(old(a[..n]))
  {
    UniqueIsStrict(a[..n]);
    assert a[..n] == a[0..0 + n];
    if n < 2 {
      ShortIsSorted(a[..n]);
      return n;
    }
    if n <= cap / 2 {
      SortAt(a, 0, n, cap, n);
    } else {
      SortRecordsInplace(a, 0, n);
    }
    u := DedupRecords(a, 0, n);
    assert a[..u] == a[0..0 + u];
  }

  // ---------- Binary search

  /** bl_records_find. */
  method RecordsFind(recs: array<Rec>, n: nat, h: Rec) returns (r: int)
    requires n <= recs.Length && Ascending(recs[..n])
    ensures -1 <= r < n
    ensures r >= 0 ==> recs[r] == h
    ensures r < 0 <==> h !in recs[..n]
  {
    ghost var s := recs[..n];
    var lo, hi := 0, n;
    while lo < hi
      invariant lo <= hi <= n
      invariant forall i :: 0 <= i < lo ==> s[i] < h
      invariant forall i :: hi <= i < n ==> h < s[i]
    {
      var mid := lo + (hi - lo) / 2;
      if recs[mid] < h {
        lo := mid + 1;
      } else if recs[mid] > h {
        hi := mid;
      } else {
        assert s[mid] == h;
        return mid;
      }
    }
    return -1;
  }

  // ---------- The fold

  /** No record of out is smaller than any of the first n records of s. */
  ghost predicate NoneBelow(out: seq<Rec>, s: seq<Rec>, n: nat)
    requires n <= |s|
  {
    forall r, k :: r in out && 0 <= k < n ==> s[k] <= r
  }

  /** out holds, ascending, every record of prefix[i..] and chunk[j..], and nothing
      still unread is larger than any of it. */
  ghost predicate MergedAbove(out: seq<Rec>, prefix: seq<Rec>, i: nat, chunk: seq<Rec>, j: nat) {
    i <= |prefix| && j <= |chunk| && Ascending(out) &&
    Elems(out) == Elems(prefix[i..]) + Elems(chunk[j..]) &&
    NoneBelow(out, prefix, i) && NoneBelow(out, chunk, j)
  }

  lemma NoneBelowCons(x: Rec, out: seq<Rec>, s: seq<Rec>, n: nat)
    requires n <= |s| && Ascending(s) && NoneBelow(out, s, n) && (n > 0 ==> s[n - 1] <= x)
    ensures NoneBelow([x] + out, s, n)
  {
  }

  lemma ConsElems(x: Rec, out: seq<Rec>, s: seq<Rec>, i: nat, other: set<Rec>)
    requires 0 < i <= |s| && s[i - 1] == x && Elems(out) == Elems(s[i..]) + other
    ensures Elems([x] + out) == Elems(s[i - 1..]) + other
  {
    assert s[i - 1..] == [x] + s[i..];
    ElemsConcat([x], s[i..]);
    ElemsConcat([x], out);
  }

  lemma MergeFromPrefix(out: seq<Rec>, prefix: seq<Rec>, i: nat, chunk: seq<Rec>, j: nat)
    requires Ascending(prefix) && Ascending(chunk)
    requires MergedAbove(out, prefix, i, chunk, j) && i > 0
    requires j > 0 ==> chunk[j - 1] <= prefix[i - 1]
    ensures MergedAbove([prefix[i - 1]] + out, prefix, i - 1, chunk, j)
  {
    var x := prefix[i - 1];
    NoneBelowCons(x, out, chunk, j);
    NoneBelowCons(x, out, prefix, i - 1);
    assert forall r :: r in out ==> prefix[i - 1] <= r;
    AscendingCons(x, out);
    hide Ascending, NoneBelow;
    ConsElems(x, out, prefix, i, Elems(chunk[j..]));
  }

  lemma MergeFromChunk(out: seq<Rec>, prefix: seq<Rec>, i: nat, chunk: seq<Rec>, j: nat)
    requires Ascending(prefix) && Ascending(chunk)
    requires MergedAbove(out, prefix, i, chunk, j) && j > 0
    requires i > 0 ==> prefix[i - 1] <= chunk[j - 1]
    ensures MergedAbove([chunk[j - 1]] + out, prefix, i, chunk, j - 1)
  {
    var x := chunk[j - 1];
    NoneBelowCons(x, out, chunk, j - 1);
    NoneBelowCons(x, out, prefix, i);
    assert forall r :: r in out ==> chunk[j - 1] <= r;
    AscendingCons(x, out);
    hide Ascending, NoneBelow;
    ConsElems(x, out, chunk, j, Elems(prefix[i..]));
  }

  /** Once the chunk is used up the unread prefix is already in place. */
  lemma MergeRest(out: seq<Rec>, prefix: seq<Rec>, i: nat, chunk: seq<Rec>)
    requires Ascending(prefix) && MergedAbove(out, prefix, i, chunk, 0)
    ensures Ascending(prefix[..i] + out) && Elems(prefix[..i] + out) == Elems(prefix) + Elems(chunk)
  {
    assert prefix == prefix[..i] + prefix[i..];
    assert chunk[0..] == chunk;
    ElemsConcat(prefix[..i], prefix[i..]);
    ElemsConcat(prefix[..i], out);
    AscendingConcat(prefix[..i], out);
  }

  /** The whole buffer t during the merge: the unread prefix and the unread chunk
      are intact, and everything read so far is merged from w = i + j up. */
  ghost predicate MidMerge(t: seq<Rec>, prefix: seq<Rec>, i: int, chunk: seq<Rec>, j: int) {
    0 <= i <= |prefix| && 0 <= j <= |chunk| && |prefix| + 2 * |chunk| <= |t| &&
    t[..i] == prefix[..i] && t[|t| - |chunk|..] == chunk &&
    MergedAbove(t[i + j..|prefix| + |chunk|], prefix, i, chunk, j)
  }

  lemma MidMergeFromPrefix(t: seq<Rec>, prefix: seq<Rec>, i: int, chunk: seq<Rec>, j: int)
    requires Ascending(prefix) && Ascending(chunk)
    requires MidMerge(t, prefix, i, chunk, j) && i > 0 && j > 0 && t[i - 1] == prefix[i - 1]
    requires chunk[j - 1] <= prefix[i - 1]
    ensures MidMerge(t[i + j - 1 := t[i - 1]], prefix, i - 1, chunk, j)
  {
    hide MergedAbove;
    var n := |prefix| + |chunk|;
    MergeFromPrefix(t[i + j..n], prefix, i, chunk, j);
    var t' := t[i + j - 1 := t[i - 1]];
    assert t'[i - 1 + j..n] == [prefix[i - 1]] + t[i + j..n];
    assert t'[..i - 1] == t[..i][..i - 1];
  }

  lemma MidMergeFromChunk(t: seq<Rec>, prefix: seq<Rec>, i: int, chunk: seq<Rec>, j: int)
    requires Ascending(prefix) && Ascending(chunk)
    requires MidMerge(t, prefix, i, chunk, j) && j > 0
    requires i > 0 ==> prefix[i - 1] <= chunk[j - 1]
    ensures t[|t| - |chunk| + j - 1] == chunk[j - 1]
    ensures MidMerge(t[i + j - 1 := chunk[j - 1]], prefix, i, chunk, j - 1)
  {
    hide MergedAbove;
    var n := |prefix| + |chunk|;
    assert t[|t| - |chunk|..][j - 1] == chunk[j - 1];
    MergeFromChunk(t[i + j..n], prefix, i, chunk, j);
    var t' := t[i + j - 1 := chunk[j - 1]];
    assert t'[i + j - 1..n] == [chunk[j - 1]] + t[i + j..n];
    assert t'[..i] == t[..i];
    assert t'[|t| - |chunk|..] == t[|t| - |chunk|..];
  }

  /** Merges the p records at the base with the m records at b, backwards, into
      a[0..p+m). Nothing unread is overwritten: w = i + j stays above i, and below
      b because p + 2m <= cap. */
  method MergeBackward(a: array<Rec>, cap: nat, p: nat, m: nat)
    requires cap == a.Length && p + 2 * m <= cap
    requires Ascending(a[..p]) && Ascending(a[cap - m..])
    modifies a
    ensures Ascending(a[..p + m])
    ensures Elems(a[..p + m]) == Elems(old(a[..p])) + Elems(old(a[cap - m..]))
  {
    hide MergedAbove, MidMerge, Elems, Ascending;
    var b := cap - m;
    ghost var prefix, chunk := a[..p], a[b..];
    assert a[..][..p] == prefix && a[..][b..] == chunk;
    MergeNone(a[..], prefix, chunk);
    var i, j, w := p, m, p + m;
    while i > 0 && j > 0
      invariant 0 <= i <= p && 0 <= j <= m && w == i + j && MidMerge(a[..], prefix, i, chunk, j)
    {
      ghost var t := a[..];
      w := w - 1;
      MidMergeReads(t, prefix, i, chunk, j);
      if a[i - 1] > a[b + (j - 1)] {
        MidMergeFromPrefix(t, prefix, i, chunk, j);
        a[w] := a[i - 1];
        i := i - 1;
      } else {
        MidMergeFromChunk(t, prefix, i, chunk, j);
        a[w] := a[b + (j - 1)];
        j := j - 1;
      }
      assert a[..] == t[w := a[w]];
    }
    while j > 0
      invariant 0 <= i <= p && 0 <= j <= m && w == i + j && (j > 0 ==> i == 0)
      invariant MidMerge(a[..], prefix, i, chunk, j)
    {
      ghost var t := a[..];
      MidMergeReads(t, prefix, i, chunk, j);
      MidMergeFromChunk(t, prefix, i, chunk, j);
      w, j := w - 1, j - 1;
      a[w] := a[b + j];
      assert a[..] == t[w := a[w]];
    }
    MidMergeDone(a[..], prefix, i, chunk);
    assert a[..p + m] == a[..][..p + m];
  }

  lemma MidMergeReads(t: seq<Rec>, prefix: seq<Rec>, i: int, chunk: seq<Rec>, j: int)
    requires MidMerge(t, prefix, i, chunk, j)
    ensures i > 0 ==> t[i - 1] == prefix[i - 1]
    ensures j > 0 ==> t[|t| - |chunk| + j - 1] == chunk[j - 1]
  {
    hide MergedAbove;
    assert i > 0 ==> t[..i][i - 1] == prefix[..i][i - 1];
    assert j > 0 ==> t[|t| - |chunk|..][j - 1] == chunk[j - 1];
  }

  lemma MidMergeDone(t: seq<Rec>, prefix: seq<Rec>, i: int, chunk: seq<Rec>)
    requires Ascending(prefix) && MidMerge(t, prefix, i, chunk, 0)
    ensures Ascending(t[..|prefix| + |chunk|])
    ensures Elems(t[..|prefix| + |chunk|]) == Elems(prefix) + Elems(chunk)
  {
    hide MergedAbove, Ascending, Elems;
    var n := |prefix| + |chunk|;
    MergeRest(t[i..n], prefix, i, chunk);
    assert t[..n] == prefix[..i] + t[i..n];
  }

  lemma MergeNone(t: seq<Rec>, prefix: seq<Rec>, chunk: seq<Rec>)
    requires |prefix| + 2 * |chunk| <= |t|
    requires t[..|prefix|] == prefix && t[|t| - |chunk|..] == chunk
    ensures MidMerge(t, prefix, |prefix|, chunk, |chunk|)
  {
    assert prefix[|prefix|..] == [] && chunk[|chunk|..] == [];
    assert t[|prefix| + |chunk|..|prefix| + |chunk|] == [];
  }

  /** The prefix and the chunk share no record, as the loader's binary search ensures. */
  ghost predicate Fresh(prefix: seq<Rec>, chunk: seq<Rec>) {
    Elems(prefix) !! Elems(chunk)
  }

  lemma ConsCardinality(x: Rec, t: seq<Rec>)
    ensures |Elems([x] + t)| == |Elems(t)| + if x in t then 0 else 1
  {
    ElemsConcat([x], t);
    assert Elems([x]) == {x};
    if x in t {
      assert Elems([x] + t) == Elems(t);
    }
  }

  lemma {:induction false} ElemsAtMost(s: seq<Rec>)
    ensures |Elems(s)| <= |s|
  {
    if s != [] {
      ElemsAtMost(s[1..]);
      ConsCardinality(s[0], s[1..]);
      assert s == [s[0]] + s[1..];
    }
  }

  /** An ascending sequence with as many places as distinct records is strict. */
  lemma {:induction false} AscendingWithoutRoom(s: seq<Rec>)
    requires Ascending(s) && |Elems(s)| == |s|
    ensures Strict(s)
  {
    hide Elems;
    if s != [] {
      var t := s[1..];
      assert s == [s[0]] + t;
      ElemsAtMost(t);
      ConsCardinality(s[0], t);
      AscendingWithoutRoom(t);
      forall j | 0 <= j < |t| ensures s[0] < t[j] {
        assert s[0] <= s[j + 1];
      }
    }
  }

  /** A strict prefix and a strict chunk that share nothing merge without repeats. */
  lemma FreshMergeIsStrict(prefix: seq<Rec>, folded: seq<Rec>, out: seq<Rec>)
    requires Strict(prefix) && Strict(folded) && Fresh(prefix, folded)
    requires Ascending(out) && |out| == |prefix| + |folded| && Elems(out) == Elems(prefix) + Elems(folded)
    ensures Strict(out)
  {
    StrictCardinality(prefix);
    StrictCardinality(folded);
    AscendingWithoutRoom(out);
  }

  /** Sorts and deduplicates the chunk alone, leaving the prefix untouched. */
  method SortChunk(a: array<Rec>, cap: nat, p: nat, n: nat) returns (mp: nat)
    requires p < n <= cap == a.Length
    modifies a
    ensures p + mp <= n && a[..p] == old(a[..p])
    ensures Strict(a[p..p + mp]) && Elems(a[p..p + mp]) == Elems(old(a[p..n]))
  {
    var m := n - p;
    ghost var chunk := a[p..n];
    assert a[p..n] == a[p..p + m];
    if n + m <= cap {
      SortAt(a, p, n, cap, m);
    } else if m > 1 {
      SortRecordsInplace(a, p, m);
    } else {
      ShortIsSorted(chunk);
    }
    mp := DedupRecords(a, p, m);
    UniqueIsStrict(chunk);
  }

  lemma StrictAscends(s: seq<Rec>)
    requires Strict(s)
    ensures Ascending(s)
  {
  }

  /** The fold with room to spare: the chunk moves to the far end of the buffer,
      then merges backwards. */
  method MergeViaFarEnd(a: array<Rec>, cap: nat, p: nat, mp: nat) returns (r: nat)
    requires p + 2 * mp <= cap == a.Length
    requires Strict(a[..p]) && Strict(a[p..p + mp])
    modifies a
    ensures r == p + mp && Ascending(a[..r])
    ensures Elems(a[..r]) == Elems(old(a[..p])) + Elems(old(a[p..p + mp]))
    ensures Fresh(old(a[..p]), old(a[p..p + mp])) ==> Strict(a[..r])
  {
    hide Strict, Ascending, Elems, Fresh;
    ghost var prefix, folded := a[..p], a[p..p + mp];
    StrictAscends(prefix);
    StrictAscends(folded);
    Move(a, cap - mp, p, mp);
    assert a[..p] == prefix;
    assert a[cap - mp..] == a[cap - mp..cap - mp + mp] == folded;
    MergeBackward(a, cap, p, mp);
    r := p + mp;
    if Fresh(prefix, folded) {
      FreshMergeIsStrict(prefix, folded, a[..r]);
    }
  }

  /** bl_fold_sorted_chunk: folds the raw chunk a[p..n) into the sorted prefix
      a[0..p). The result holds exactly the records that were there. It is always
      ascending; it is strict when the chunk shares nothing with the prefix, and a
      shared record otherwise survives twice, side by side. */
  method FoldSortedChunk(a: array<Rec>, cap: nat, p: nat, n: nat) returns (r: nat)
    requires p <= n <= cap == a.Length && Strict(a[..p])
    modifies a
    ensures r <= n && Ascending(a[..r])
    ensures Elems(a[..r]) == Elems(old(a[..n]))
    ensures Fresh(old(a[..p]), old(a[p..n])) ==> Strict(a[..r])
  {
    ghost var prefix, chunk := a[..p], a[p..n];
    assert a[..n] == prefix + chunk;
    ElemsConcat(prefix, chunk);
    var m := n - p;
    if m == 0 {
      return p;
    }
    if p == 0 {
      r := SortDedup(a, cap, n);
      return;
    }
    var mp := SortChunk(a, cap, p, n);
    if p + 2 * mp > cap {
      ghost var folded := a[p..p + mp];
      assert a[..p + mp] == prefix + folded;
      ElemsConcat(prefix, folded);
      r := SortDedup(a, cap, p + mp);
      return;
    }
    r := MergeViaFarEnd(a, cap, p, mp);
  }
}
