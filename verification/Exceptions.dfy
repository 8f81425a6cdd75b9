/** The feed exception table: one entry per hash, its flags merged over every rule
    that named it, whatever the order the rules came in. */
module Exceptions {
  import opened Bytes
  import opened Records
  import opened Verdict
  import BlTable

  ghost function RecsOf(t: seq<Exception>): set<Rec> {
    set i | 0 <= i < |t| :: t[i].rec
  }

  /** f is the merge of every rule for h: important if any is, exact if all are. */
  ghost predicate Merged(f: Flags, h: Rec, rules: seq<Exception>) {
    (f.important <==> exists i :: 0 <= i < |rules| && rules[i].rec == h && rules[i].flags.important) &&
    (f.exact <==> forall i :: 0 <= i < |rules| && rules[i].rec == h ==> rules[i].flags.exact)
  }

  ghost predicate AllMerged(t: seq<Exception>, rules: seq<Exception>) {
    forall k :: 0 <= k < |t| ==> Merged(t[k].flags, t[k].rec, rules)
  }

  ghost predicate Ordered(t: seq<Exception>) {
    forall i, j :: 0 <= i < j < |t| ==> t[i].rec <= t[j].rec
  }

  ghost predicate StrictlyOrdered(t: seq<Exception>) {
    forall i, j :: 0 <= i < j < |t| ==> t[i].rec < t[j].rec
  }

  ghost predicate Distinct(t: seq<Exception>) {
    forall i, j :: 0 <= i < j < |t| ==> t[i].rec != t[j].rec
  }

  /** t is the exception table of rules: ordered, one entry per hash named, merged. */
  ghost predicate IsTable(t: seq<Exception>, rules: seq<Exception>) {
    StrictlyOrdered(t) && RecsOf(t) == RecsOf(rules) && AllMerged(t, rules)
  }

  function Merge(f: Flags, g: Flags): Flags {
    Flags(f.exact && g.exact, f.important || g.important)
  }

  lemma MergeOne(f: Flags, h: Rec, rules: seq<Exception>, e: Exception)
    requires Merged(f, h, rules)
    ensures Merged(if e.rec == h then Merge(f, e.flags) else f, h, rules + [e])
  {
    var more := rules + [e];
    assert forall i :: 0 <= i < |rules| ==> more[i] == rules[i];
    assert more[|rules|] == e;
    if e.rec != h || !e.flags.important {
      if i :| 0 <= i < |more| && more[i].rec == h && more[i].flags.important {
        assert i < |rules|;
      }
    }
  }

  lemma FirstOfItsKind(h: Rec, rules: seq<Exception>, e: Exception)
    requires e.rec == h && h !in RecsOf(rules)
    ensures Merged(e.flags, h, rules + [e])
  {
    var more := rules + [e];
    assert forall i :: 0 <= i < |rules| ==> more[i] == rules[i] && rules[i].rec in RecsOf(rules);
    assert more[|rules|] == e;
  }

  lemma RecsOfSnoc(t: seq<Exception>, e: Exception)
    ensures RecsOf(t + [e]) == RecsOf(t) + {e.rec}
  {
    var more := t + [e];
    assert more[|t|] == e;
    forall r | r in RecsOf(t) ensures r in RecsOf(more) {
      var i :| 0 <= i < |t| && t[i].rec == r;
      assert more[i] == t[i];
    }
  }

  lemma {:induction false} FlagsAreDetermined(f: Flags, g: Flags, h: Rec, a: seq<Exception>, b: seq<Exception>)
    requires Merged(f, h, a) && Merged(g, h, b)
    requires forall e :: e in a <==> e in b
    ensures f == g
  {
    if f.important {
      var i :| 0 <= i < |a| && a[i].rec == h && a[i].flags.important;
      assert a[i] in b;
    }
    if g.important {
      var i :| 0 <= i < |b| && b[i].rec == h && b[i].flags.important;
      assert b[i] in a;
    }
    if !f.exact {
      var i :| 0 <= i < |a| && a[i].rec == h && !a[i].flags.exact;
      assert a[i] in b;
    }
    if !g.exact {
      var i :| 0 <= i < |b| && b[i].rec == h && !b[i].flags.exact;
      assert b[i] in a;
    }
  }

  function Recs(t: seq<Exception>): (r: seq<Rec>)
    ensures |r| == |t| && forall i :: 0 <= i < |t| ==> r[i] == t[i].rec
  {
    seq(|t|, i requires 0 <= i < |t| => t[i].rec)
  }

  /** The table depends only on which rules were seen, not on their order or repeats. */
  lemma TableIsOrderIndependent(t: seq<Exception>, u: seq<Exception>, a: seq<Exception>, b: seq<Exception>)
    requires IsTable(t, a) && IsTable(u, b)
    requires forall e :: e in a <==> e in b
    ensures t == u
  {
    forall r ensures r in RecsOf(a) <==> r in RecsOf(b) {
      if r in RecsOf(a) {
        var i :| 0 <= i < |a| && a[i].rec == r;
        assert a[i] in b;
      }
      if r in RecsOf(b) {
        var i :| 0 <= i < |b| && b[i].rec == r;
        assert b[i] in a;
      }
    }
    assert Elems(Recs(t)) == RecsOf(t) && Elems(Recs(u)) == RecsOf(u);
    StrictIsUnique(Recs(t), Recs(u));
    forall k | 0 <= k < |t| ensures t[k] == u[k] {
      assert Recs(t)[k] == Recs(u)[k];
      FlagsAreDetermined(t[k].flags, u[k].flags, t[k].rec, a, b);
    }
  }

  // ---------- bl_dedup_exceptions

  /** The first u places of the two arrays, as entries. */
  function Entries(recs: seq<Rec>, flags: seq<Flags>, u: nat): (t: seq<Exception>)
    requires u <= |recs| && u <= |flags|
    ensures |t| == u && forall i :: 0 <= i < u ==> t[i] == Exception(recs[i], flags[i])
  {
    seq(u, i requires 0 <= i < u => Exception(recs[i], flags[i]))
  }

  lemma TableStep(t: seq<Exception>, s: seq<Exception>, i: nat)
    requires i < |s| && Ordered(s) && IsTable(t, s[..i]) && (i > 0 ==> t != [] && t[|t| - 1].rec == s[i - 1].rec)
    ensures var last := |t| - 1;
            if i > 0 && s[i].rec == t[last].rec
            then IsTable(t[last := Exception(s[i].rec, Merge(t[last].flags, s[i].flags))], s[..i + 1])
            else IsTable(t + [s[i]], s[..i + 1])
  {
    var e, a := s[i], s[..i];
    assert s[..i + 1] == a + [e];
    RecsOfSnoc(a, e);
    forall k | 0 <= k < |t|
      ensures Merged(if e.rec == t[k].rec then Merge(t[k].flags, e.flags) else t[k].flags, t[k].rec, a + [e])
    {
      MergeOne(t[k].flags, t[k].rec, a, e);
    }
    if i > 0 && e.rec == t[|t| - 1].rec {
      var u := t[|t| - 1 := Exception(e.rec, Merge(t[|t| - 1].flags, e.flags))];
      assert forall k :: 0 <= k < |t| ==> u[k].rec == t[k].rec;
      assert Recs(u) == Recs(t);
      RecsOfRecs(t);
      RecsOfRecs(u);
      assert e.rec in RecsOf(t);
    } else {
      forall r | r in RecsOf(a) ensures r < e.rec {
        NewIsLargest(t, s, i, r);
      }
      RecsOfSnoc(t, e);
      FirstOfItsKind(e.rec, a, e);
      forall k | 0 <= k < |t| ensures t[k].rec < e.rec {
        assert t[k].rec in RecsOf(t);
      }
    }
  }

  lemma RecsOfRecs(t: seq<Exception>)
    ensures RecsOf(t) == Elems(Recs(t))
  {
  }

  lemma NewIsLargest(t: seq<Exception>, s: seq<Exception>, i: nat, r: Rec)
    requires i < |s| && Ordered(s) && r in RecsOf(s[..i]) && s[i].rec != s[i - 1].rec
    ensures r < s[i].rec
  {
    var k :| 0 <= k < i && s[k].rec == r;
  }

  /** The two arrays after i entries of s have been looked at and u kept. */
  ghost predicate Midway(recs: seq<Rec>, flags: seq<Flags>, s: seq<Exception>, i: nat, u: nat) {
    0 < u <= i <= |s| && |s| <= |recs| && |s| <= |flags| && recs[u - 1] == s[i - 1].rec &&
    (forall k :: i <= k < |s| ==> Exception(recs[k], flags[k]) == s[k]) &&
    IsTable(Entries(recs, flags, u), s[..i])
  }

  lemma MidwayMerge(recs: seq<Rec>, flags: seq<Flags>, s: seq<Exception>, i: nat, u: nat)
    requires Midway(recs, flags, s, i, u) && i < |s| && Ordered(s) && recs[i] == recs[u - 1]
    ensures Midway(recs, flags[u - 1 := Merge(flags[u - 1], flags[i])], s, i + 1, u)
  {
    hide IsTable, Ordered;
    var t := Entries(recs, flags, u);
    assert Exception(recs[i], flags[i]) == s[i];
    TableStep(t, s, i);
    assert Entries(recs, flags[u - 1 := Merge(flags[u - 1], flags[i])], u) ==
           t[u - 1 := Exception(s[i].rec, Merge(t[u - 1].flags, s[i].flags))];
  }

  lemma MidwayKeep(recs: seq<Rec>, flags: seq<Flags>, s: seq<Exception>, i: nat, u: nat)
    requires Midway(recs, flags, s, i, u) && i < |s| && Ordered(s) && recs[i] != recs[u - 1]
    ensures Midway(recs[u := recs[i]], flags[u := flags[i]], s, i + 1, u + 1)
  {
    hide IsTable, Ordered;
    var t := Entries(recs, flags, u);
    assert Exception(recs[i], flags[i]) == s[i];
    TableStep(t, s, i);
    assert Entries(recs[u := recs[i]], flags[u := flags[i]], u + 1) == t + [s[i]];
  }

  lemma MidwayStart(recs: seq<Rec>, flags: seq<Flags>, s: seq<Exception>)
    requires 0 < |s| <= |recs| && |s| <= |flags| && s == Entries(recs, flags, |s|)
    ensures Midway(recs, flags, s, 1, 1)
  {
    FirstOfItsKind(s[0].rec, [], s[0]);
    assert [] + [s[0]] == s[..1] == Entries(recs, flags, 1);
  }

  /** bl_dedup_exceptions: merges the flags of equal neighbours, in place. */
  method DedupExceptions(recs: array<Rec>, flags: array<Flags>, n: nat) returns (u: nat)
    requires n <= recs.Length && n <= flags.Length
    requires Ordered(Entries(recs[..], flags[..], n))
    modifies recs, flags
    ensures u <= n
    ensures IsTable(Entries(recs[..], flags[..], u), Entries(old(recs[..]), old(flags[..]), n))
  {
    ghost var s := Entries(recs[..], flags[..], n);
    if n == 0 {
      return 0;
    }
    u := 1;
    MidwayStart(recs[..], flags[..], s);
    for i := 1 to n
      invariant 0 < u <= i && Midway(recs[..], flags[..], s, i, u)
    {
      hide IsTable, Ordered, Midway;
      ghost var r, f := recs[..], flags[..];
      if recs[i] == recs[u - 1] {
        MidwayMerge(r, f, s, i, u);
        flags[u - 1] := Merge(flags[u - 1], flags[i]);
        assert flags[..] == f[u - 1 := Merge(f[u - 1], f[i])];
      } else {
        MidwayKeep(r, f, s, i, u);
        if u != i {
          recs[u] := recs[i];
          flags[u] := flags[i];
        }
        assert recs[..] == r[u := r[i]] && flags[..] == f[u := f[i]];
        u := u + 1;
      }
    }
    assert s[..n] == s;
  }

  // ---------- What the table answers

  /** Some rule for the hash applies that deep. */
  ghost predicate Excepted(rules: seq<Exception>, h: Rec, depth: nat) {
    exists e :: e in rules && e.rec == h && Applies(e.flags.exact, depth)
  }

  ghost predicate ImportantFor(rules: seq<Exception>, h: Rec) {
    exists e :: e in rules && e.rec == h && e.flags.important
  }

  /** A hash is excepted where some rule for it applies, and with rank 3 if some rule for it
      is important. */
  lemma TableAnswers(t: seq<Exception>, rules: seq<Exception>, h: Rec, depth: nat)
    requires IsTable(t, rules)
    ensures FeedException(t, h, depth) ==
            if Excepted(rules, h, depth) then Some(RuleRank(true, ImportantFor(rules, h))) else None
  {
    if k: nat :| k < |t| && t[k].rec == h {
      ExceptionLookup(t, h, depth, Recs(t), k);
      MergedMeans(t[k].flags, h, rules, depth);
      assert h in RecsOf(t);
    } else {
      ExceptionLookup(t, h, depth, Recs(t), -1);
      assert h !in RecsOf(rules);
    }
  }

  lemma MergedMeans(f: Flags, h: Rec, rules: seq<Exception>, depth: nat)
    requires Merged(f, h, rules) && h in RecsOf(rules)
    ensures f.important == ImportantFor(rules, h)
    ensures Applies(f.exact, depth) == Excepted(rules, h, depth)
  {
    var j :| 0 <= j < |rules| && rules[j].rec == h;
    assert rules[j] in rules;
  }

  // ---------- Sorting the pairs

  function InsertEntry(e: Exception, s: seq<Exception>): seq<Exception> {
    if s == [] || e.rec <= s[0].rec then [e] + s else [s[0]] + InsertEntry(e, s[1..])
  }

  function SortEntries(s: seq<Exception>): seq<Exception> {
    if s == [] then [] else InsertEntry(s[0], SortEntries(s[1..]))
  }

  lemma {:induction false} InsertEntryOrders(e: Exception, s: seq<Exception>)
    requires Ordered(s)
    ensures var t := InsertEntry(e, s);
            Ordered(t) && |t| == |s| + 1 && forall x :: x in t <==> x == e || x in s
  {
    if s != [] && e.rec > s[0].rec {
      InsertEntryOrders(e, s[1..]);
      var t := InsertEntry(e, s[1..]);
      assert s == [s[0]] + s[1..];
      forall k | 0 <= k < |t| ensures s[0].rec <= t[k].rec {
        assert t[k] in t;
      }
    }
  }

  lemma {:induction false} SortEntriesOrders(s: seq<Exception>)
    ensures Ordered(SortEntries(s)) && |SortEntries(s)| == |s| && forall x :: x in SortEntries(s) <==> x in s
  {
    if s != [] {
      SortEntriesOrders(s[1..]);
      InsertEntryOrders(s[0], SortEntries(s[1..]));
      assert s == [s[0]] + s[1..];
    }
  }

  /** Stands for qsort on (record, flag) pairs through the scratch array. */
  method SortPairs(recs: array<Rec>, flags: array<Flags>, n: nat)
    requires n <= recs.Length && n <= flags.Length
    modifies recs, flags
    ensures Entries(recs[..], flags[..], n) == SortEntries(Entries(old(recs[..]), old(flags[..]), n))
    ensures Ordered(Entries(recs[..], flags[..], n))
  {
    var t := SortEntries(seq(n, i requires 0 <= i < n reads recs, flags => Exception(recs[i], flags[i])));
    ghost var s := Entries(recs[..], flags[..], n);
    assert t == SortEntries(s) by {
      assert seq(n, i requires 0 <= i < n reads recs, flags => Exception(recs[i], flags[i])) == s;
    }
    SortEntriesOrders(s);
    hide SortEntries;
    forall i | 0 <= i < n {
      recs[i] := t[i].rec;
    }
    forall i | 0 <= i < n {
      flags[i] := t[i].flags;
    }
    assert Entries(recs[..], flags[..], n) == t;
  }

  lemma {:induction false} DistinctLength(s: seq<Exception>)
    requires Distinct(s)
    ensures |RecsOf(s)| == |s|
  {
    if s != [] {
      var k := |s| - 1;
      DistinctLength(s[..k]);
      assert s == s[..k] + [s[k]];
      RecsOfSnoc(s[..k], s[k]);
      assert s[k].rec !in RecsOf(s[..k]);
    } else {
      assert RecsOf(s) == {};
    }
  }

  lemma OrderedDistinctIsStrict(s: seq<Exception>)
    requires Ordered(s) && |RecsOf(s)| == |s|
    ensures StrictlyOrdered(s)
  {
    RecsOfRecs(s);
    BlTable.AscendingWithoutRoom(Recs(s));
    forall i, j | 0 <= i < j < |s| ensures s[i].rec < s[j].rec {
      assert Recs(s)[i] < Recs(s)[j];
    }
  }

  lemma OwnTable(s: seq<Exception>)
    requires StrictlyOrdered(s)
    ensures IsTable(s, s)
  {
    forall k | 0 <= k < |s| ensures Merged(s[k].flags, s[k].rec, s) {
    }
  }

  /** Sorting distinct entries that are already merged over rules gives the table of
      rules, and deduplicating it changes nothing. */
  lemma SortedDistinctIsTable(t: seq<Exception>, rules: seq<Exception>, out: seq<Exception>)
    requires Distinct(t) && AllMerged(t, rules) && IsTable(out, SortEntries(t))
    ensures RecsOf(t) == RecsOf(rules) ==> IsTable(out, rules)
  {
    var s := SortEntries(t);
    SortEntriesOrders(t);
    hide SortEntries;
    DistinctLength(t);
    SameRecs(s, t);
    OrderedDistinctIsStrict(s);
    OwnTable(s);
    TableIsOrderIndependent(out, s, s, s);
    hide Merged, RecsOf;
    forall k | 0 <= k < |s| ensures Merged(s[k].flags, s[k].rec, rules) {
      assert s[k] in t;
    }
  }

  lemma SameRecs(s: seq<Exception>, t: seq<Exception>)
    requires forall x :: x in s <==> x in t
    ensures RecsOf(s) == RecsOf(t)
  {
    forall r ensures r in RecsOf(s) <==> r in RecsOf(t) {
      if r in RecsOf(s) {
        var i :| 0 <= i < |s| && s[i].rec == r;
        assert s[i] in t;
      }
      if r in RecsOf(t) {
        var i :| 0 <= i < |t| && t[i].rec == r;
        assert t[i] in s;
      }
    }
  }
}
