/** The rank-ordered verdict of main/bl_rank.c: a pruned walk over the suffixes of
    a name and several ranked sources, against the exhaustive search it stands for. */
module BlRank {
  import opened Bytes
  import opened Domain

  /** One source: what it answers for a suffix at a depth, and the most it ever answers. */
  datatype Source = Source(probe: (seq<byte>, nat) -> Option<nat>, maxRank: nat)

  ghost predicate KeepsBound(s: Source) {
    forall suffix, depth :: s.probe(suffix, depth).Some? ==> s.probe(suffix, depth).value <= s.maxRank
  }

  /** The best answer so far: its rank, and the first depth and source to give it. */
  datatype Best = Best(rank: nat, src: nat, depth: nat)

  datatype State = NoMatch | Allow | Block

  datatype Verdict = Verdict(state: State, rank: nat, src: nat, depth: nat)

  const NO_SRC: nat := 0xFF

  function Conclude(b: Option<Best>): Verdict {
    match b
    case None => Verdict(NoMatch, 0, NO_SRC, 0)
    case Some(w) => Verdict(if w.rank % 2 == 1 then Allow else Block, w.rank, w.src, w.depth)
  }

  // ---------- The exhaustive search

  function Better(cur: Option<Best>, answer: Option<nat>, src: nat, depth: nat): Option<Best> {
    if answer.Some? && (cur.None? || answer.value > cur.value.rank)
    then Some(Best(answer.value, src, depth))
    else cur
  }

  /** Every source from i on, at one suffix. */
  function Level(cur: Option<Best>, suffix: seq<byte>, depth: nat, srcs: seq<Source>, i: nat): Option<Best>
    requires i <= |srcs|
    decreases |srcs| - i
  {
    if i == |srcs| then cur
    else Level(Better(cur, srcs[i].probe(suffix, depth), i, depth), suffix, depth, srcs, i + 1)
  }

  /** Where the next parent suffix starts, or None past the last dot. */
  function NextLabel(name: seq<byte>, p: nat): (r: Option<nat>)
    requires p <= |name|
    ensures r.Some? ==> p < r.value <= |name|
    decreases |name| - p
  {
    if p == |name| then None else if name[p] == DOT then Some(p + 1) else NextLabel(name, p + 1)
  }

  /** Every source at every suffix from p on, longest first, bare TLDs excepted. */
  function Exhaust(cur: Option<Best>, name: seq<byte>, p: nat, depth: nat, srcs: seq<Source>): Option<Best>
    requires p <= |name|
    decreases |name| - p
  {
    if p == |name| then cur
    else
      var here := if IsBareTld(name[p..]) then cur else Level(cur, name[p..], depth, srcs, 0);
      match NextLabel(name, p)
      case None => here
      case Some(q) => Exhaust(here, name, q, depth + 1, srcs)
  }

  // ---------- It is the maximum, and the first to attain it

  /** Source i answers rank r at the suffix name[p..], which is depth labels in. */
  ghost predicate Answers(name: seq<byte>, srcs: seq<Source>, p: nat, depth: nat, i: nat, r: nat) {
    p < |name| && i < |srcs| && !IsBareTld(name[p..]) &&
    srcs[i].probe(name[p..], depth) == Some(r)
  }

  /** name[p..] is reached from name[p0..] by dropping depth - depth0 labels. */
  ghost predicate Reaches(name: seq<byte>, p0: nat, depth0: nat, p: nat, depth: nat)
    requires p0 <= |name|
    decreases |name| - p0
  {
    (p == p0 && depth == depth0) ||
    (NextLabel(name, p0).Some? && Reaches(name, NextLabel(name, p0).value, depth0 + 1, p, depth))
  }

  ghost predicate Earlier(b: Best, depth: nat, src: nat) {
    b.depth < depth || (b.depth == depth && b.src <= src)
  }

  /** out is at least as good as every answer from position p0 on, and no later than
      any that ties with it. */
  ghost predicate Dominates(out: Option<Best>, name: seq<byte>, srcs: seq<Source>, p0: nat, depth0: nat)
    requires p0 <= |name|
  {
    forall p: nat, depth: nat, i: nat, r: nat ::
      Reaches(name, p0, depth0, p, depth) && Answers(name, srcs, p, depth, i, r)
      ==> out.Some? && r <= out.value.rank && (r == out.value.rank ==> Earlier(out.value, depth, i))
  }

  /** out is the earlier choice cur, or an answer found at or after p0 that beats cur. */
  ghost predicate Attained(out: Option<Best>, cur: Option<Best>, name: seq<byte>, srcs: seq<Source>, p0: nat,
                           depth0: nat)
    requires p0 <= |name|
  {
    out == cur ||
    (out.Some? && (cur.Some? ==> out.value.rank > cur.value.rank) &&
     exists p: nat :: Reaches(name, p0, depth0, p, out.value.depth) &&
                 Answers(name, srcs, p, out.value.depth, out.value.src, out.value.rank))
  }

  lemma {:induction false} LevelBest(cur: Option<Best>, suffix: seq<byte>, depth: nat, srcs: seq<Source>, i: nat)
    requires i <= |srcs| && (cur.Some? ==> cur.value.depth < depth || (cur.value.depth == depth && cur.value.src < i))
    ensures var out := Level(cur, suffix, depth, srcs, i);
            (out == cur ||
             (out.Some? && (cur.Some? ==> out.value.rank > cur.value.rank) && out.value.depth == depth &&
              i <= out.value.src < |srcs| && srcs[out.value.src].probe(suffix, depth) == Some(out.value.rank))) &&
            (cur.Some? ==> out.Some? && cur.value.rank <= out.value.rank) &&
            forall k :: i <= k < |srcs| && srcs[k].probe(suffix, depth).Some? ==>
              out.Some? && srcs[k].probe(suffix, depth).value <= out.value.rank &&
              (srcs[k].probe(suffix, depth).value == out.value.rank ==> Earlier(out.value, depth, k))
    decreases |srcs| - i
  {
    if i < |srcs| {
      LevelBest(Better(cur, srcs[i].probe(suffix, depth), i, depth), suffix, depth, srcs, i + 1);
    }
  }

  lemma {:induction false} ExhaustImproves(cur: Option<Best>, name: seq<byte>, p0: nat, depth0: nat, srcs: seq<Source>)
    requires p0 <= |name| && (cur.Some? ==> cur.value.depth < depth0)
    ensures var out := Exhaust(cur, name, p0, depth0, srcs);
            Attained(out, cur, name, srcs, p0, depth0) && (cur.Some? ==> out.Some? && cur.value.rank <= out.value.rank)
    decreases |name| - p0
  {
    if p0 < |name| {
      var here := if IsBareTld(name[p0..]) then cur else Level(cur, name[p0..], depth0, srcs, 0);
      LevelBest(cur, name[p0..], depth0, srcs, 0);
      if here != cur {
        assert Reaches(name, p0, depth0, p0, here.value.depth);
        assert Answers(name, srcs, p0, here.value.depth, here.value.src, here.value.rank);
      }
      if NextLabel(name, p0).Some? {
        var q := NextLabel(name, p0).value;
        ExhaustImproves(here, name, q, depth0 + 1, srcs);
        var out := Exhaust(here, name, q, depth0 + 1, srcs);
        if out != here {
          var p: nat :| Reaches(name, q, depth0 + 1, p, out.value.depth) &&
                   Answers(name, srcs, p, out.value.depth, out.value.src, out.value.rank);
          assert Reaches(name, p0, depth0, p, out.value.depth);
        }
      }
    }
  }

  lemma {:induction false} ExhaustDominates(cur: Option<Best>, name: seq<byte>, p0: nat, depth0: nat, srcs: seq<Source>)
    requires p0 <= |name| && (cur.Some? ==> cur.value.depth < depth0)
    ensures Dominates(Exhaust(cur, name, p0, depth0, srcs), name, srcs, p0, depth0)
    decreases |name| - p0
  {
    var out := Exhaust(cur, name, p0, depth0, srcs);
    if p0 < |name| {
      var here := if IsBareTld(name[p0..]) then cur else Level(cur, name[p0..], depth0, srcs, 0);
      LevelBest(cur, name[p0..], depth0, srcs, 0);
      if NextLabel(name, p0).Some? {
        ExhaustDominates(here, name, NextLabel(name, p0).value, depth0 + 1, srcs);
        ExhaustImproves(here, name, NextLabel(name, p0).value, depth0 + 1, srcs);
      }
      hide Exhaust, Level, Reaches, NextLabel, Attained, Earlier, IsBareTld;
      forall p: nat, depth: nat, i: nat, r: nat |
        Reaches(name, p0, depth0, p, depth) && Answers(name, srcs, p, depth, i, r)
        ensures out.Some? && r <= out.value.rank && (r == out.value.rank ==> Earlier(out.value, depth, i))
      {
        LaterAnswersLose(here, out, name, p0, depth0, srcs, p, depth, i, r);
      }
    }
  }

  lemma LaterAnswersLose(here: Option<Best>, out: Option<Best>, name: seq<byte>, p0: nat, depth0: nat,
                         srcs: seq<Source>, p: nat, depth: nat, i: nat, r: nat)
    requires p0 < |name| && Reaches(name, p0, depth0, p, depth) && Answers(name, srcs, p, depth, i, r)
    requires p == p0 && depth == depth0 ==>
               here.Some? && r <= here.value.rank && (r == here.value.rank ==> Earlier(here.value, depth, i))
    requires NextLabel(name, p0).Some? ==>
               Dominates(out, name, srcs, NextLabel(name, p0).value, depth0 + 1) &&
               Attained(out, here, name, srcs, NextLabel(name, p0).value, depth0 + 1) &&
               (here.Some? ==> out.Some? && here.value.rank <= out.value.rank)
    requires NextLabel(name, p0).None? ==> out == here
    ensures out.Some? && r <= out.value.rank && (r == out.value.rank ==> Earlier(out.value, depth, i))
  {
  }

  /** The reference search finds the highest rank any source gives any suffix that is
      not a bare TLD, and names the first depth, then source, to give it. */
  lemma ExhaustIsFirstMaximum(name: seq<byte>, srcs: seq<Source>)
    ensures var out := Exhaust(None, name, 0, 0, srcs);
            Dominates(out, name, srcs, 0, 0) && Attained(out, None, name, srcs, 0, 0)
  {
    ExhaustImproves(None, name, 0, 0, srcs);
    ExhaustDominates(None, name, 0, 0, srcs);
  }

  // ---------- The pruned walk

  lemma {:induction false} LevelCannotImprove(cur: Option<Best>, suffix: seq<byte>, depth: nat, srcs: seq<Source>,
                                              i: nat)
    requires i <= |srcs| && cur.Some?
    requires forall k :: 0 <= k < |srcs| ==> KeepsBound(srcs[k]) && srcs[k].maxRank <= cur.value.rank
    ensures Level(cur, suffix, depth, srcs, i) == cur
    decreases |srcs| - i
  {
    if i < |srcs| {
      LevelCannotImprove(cur, suffix, depth, srcs, i + 1);
    }
  }

  lemma {:induction false} CannotImprove(cur: Option<Best>, name: seq<byte>, p: nat, depth: nat, srcs: seq<Source>)
    requires p <= |name| && cur.Some?
    requires forall k :: 0 <= k < |srcs| ==> KeepsBound(srcs[k]) && srcs[k].maxRank <= cur.value.rank
    ensures Exhaust(cur, name, p, depth, srcs) == cur
    decreases |name| - p
  {
    if p < |name| {
      LevelCannotImprove(cur, name[p..], depth, srcs, 0);
      if NextLabel(name, p).Some? {
        CannotImprove(cur, name, NextLabel(name, p).value, depth + 1, srcs);
      }
    }
  }

  /** memchr for the next dot. */
  method FindNext(name: seq<byte>, p: nat) returns (q: Option<nat>)
    requires p <= |name|
    ensures q == NextLabel(name, p)
  {
    var i := p;
    while i < |name| && name[i] != DOT
      invariant p <= i <= |name| && NextLabel(name, p) == NextLabel(name, i)
    {
      i := i + 1;
    }
    q := if i < |name| then Some(i + 1) else None;
  }

  /** The sources at one suffix, with the resolver's two pruning tests. done reports
      that the best possible rank has been reached. */
  method ProbeLevel(cur: Option<Best>, suffix: seq<byte>, depth: nat, srcs: seq<Source>, top: nat)
    returns (b: Option<Best>, done: bool)
    requires forall k :: 0 <= k < |srcs| ==> KeepsBound(srcs[k]) && srcs[k].maxRank <= top
    ensures b == Level(cur, suffix, depth, srcs, 0)
    ensures done ==> b.Some? && b.value.rank >= top
  {
    b := cur;
    for i := 0 to |srcs|
      invariant Level(cur, suffix, depth, srcs, 0) == Level(b, suffix, depth, srcs, i)
    {
      if b.Some? && b.value.rank >= top {
        LevelCannotImprove(b, suffix, depth, srcs, i);
        return b, true;
      }
      if b.Some? && b.value.rank >= srcs[i].maxRank {
        assert KeepsBound(srcs[i]);
        continue;
      }
      var r := srcs[i].probe(suffix, depth);
      if r.Some? {
        if b.None? || r.value > b.value.rank {
          b := Some(Best(r.value, i, depth));
        }
      }
    }
    done := b.Some? && b.value.rank >= top;
  }

  method TopRank(srcs: seq<Source>) returns (top: nat)
    ensures forall k :: 0 <= k < |srcs| ==> srcs[k].maxRank <= top
  {
    top := 0;
    for i := 0 to |srcs|
      invariant forall k :: 0 <= k < i ==> srcs[k].maxRank <= top
    {
      if srcs[i].maxRank > top {
        top := srcs[i].maxRank;
      }
    }
  }

  /** bl_rank_resolve. The depth is the source's eight-bit counter; on names of up to
      255 bytes it never wraps, and the pruned walk is the exhaustive one. */
  method Resolve(name: seq<byte>, srcs: seq<Source>) returns (v: Verdict)
    requires forall k :: 0 <= k < |srcs| ==> KeepsBound(srcs[k])
    ensures |name| <= 255 ==> v == Conclude(Exhaust(None, name, 0, 0, srcs))
  {
    var top := TopRank(srcs);
    var b: Option<Best>, p: nat, depth: nat := None, 0, 0;
    while p < |name|
      invariant p <= |name|
      invariant |name| <= 255 ==> depth <= p && Exhaust(None, name, 0, 0, srcs) == Exhaust(b, name, p, depth, srcs)
      decreases |name| - p
    {
      var suffix := name[p..];
      if !IsBareTld(suffix) {
        var done;
        ghost var before := b;
        b, done := ProbeLevel(b, suffix, depth, srcs, top);
        if done {
          if NextLabel(name, p).Some? {
            CannotImprove(b, name, NextLabel(name, p).value, depth + 1, srcs);
          }
          return Conclude(b);
        }
      }
      var next := FindNext(name, p);
      if next.None? {
        return Conclude(b);
      }
      p := next.value;
      depth := (depth + 1) % 256;
    }
    v := Conclude(b);
  }
}
