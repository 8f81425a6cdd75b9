/** What process_reply in main/dns_server.cpp does to the case of an upstream reply before
    anything else sees it: the question name is folded, then the owner names of all three
    sections. The two passes together change no record and, exactly where no label text
    reads as a pointer, no name. */
module ReplyScrub {
  import opened Bytes
  import opened Domain
  import opened Wire
  import opened CaseScrub

  /** Question and owner names folded to lower case. */
  function Scrubbed(pkt: seq<byte>): (p: seq<byte>)
    requires Question(pkt, 12).Some?
    ensures |p| == |pkt|
  {
    var qend := Question(pkt, 12).value.1;
    var q := LowerIn(pkt, 12, qend - 4);
    ScrubOwners(q, qend, RecordCount(q))
  }

  // ---------- The flat question pass lowers label by label

  lemma WalkUnfold(p: seq<byte>, at: nat, raw: seq<byte>)
    requires WalkLabels(p, at, raw).Some?
    ensures at < |p| && p[at] < 64
    ensures p[at] == 0 ==> WalkLabels(p, at, raw) == Some((raw, at)) && SkipName(p, at) == Some(at + 1)
    ensures p[at] > 0 ==>
              var next := at + 1 + p[at];
              next <= |p| && SkipName(p, at) == SkipName(p, next) &&
              WalkLabels(p, at, raw) == WalkLabels(p, next, JoinLabel(raw, p[at + 1..next]))
  {
    hide JoinLabel;
  }

  lemma NothingToLower(p: seq<byte>, at: nat)
    requires at < |p| && p[at] == 0
    ensures LowerIn(p, at, at + 1) == LowerLabels(p, at, at + 1)
  {
  }

  lemma {:induction false} FlatIsByLabel(p: seq<byte>, at: nat, raw: seq<byte>)
    requires WalkLabels(p, at, raw).Some?
    ensures var root := WalkLabels(p, at, raw).value.1;
            at <= root && LowerIn(p, at, root + 1) == LowerLabels(p, at, root + 1) && SkipName(p, at) == Some(root + 1)
    decreases |p| - at
  {
    hide WalkLabels, SkipName, LowerLabels, LowerIn, JoinLabel;
    WalkUnfold(p, at, raw);
    if p[at] == 0 {
      NothingToLower(p, at);
    } else {
      var next: nat := at + 1 + p[at];
      FlatIsByLabel(p, next, JoinLabel(raw, p[at + 1..next]));
      FlatStep(p, at, WalkLabels(p, at, raw).value.1 + 1);
    }
  }

  lemma FlatStep(p: seq<byte>, at: nat, end: nat)
    requires at < |p| && 0 < p[at] < 64 && at + 1 + p[at] < end <= |p|
    requires LowerIn(p, at + 1 + p[at], end) == LowerLabels(p, at + 1 + p[at], end)
    ensures LowerIn(p, at, end) == LowerLabels(p, at, end)
  {
    var next: nat := at + 1 + p[at];
    var p1 := LowerIn(p, at + 1, next);
    hide LowerLabels;
    LabelIsLocal(p, p1, next, end);
    LowerLabelsUnfold(p, at, end);
    assert LowerIn(p1, next, end) == LowerIn(p, at, end);
  }

  lemma NoLabels(p: seq<byte>, j: nat, end: nat)
    requires end < j && end <= |p|
    ensures LabelText(p, j, end) == {}
  {
  }

  /** Lowering label by label from j on agrees with the flat scan on a packet that differs
      only before j. */
  lemma {:induction false} LabelIsLocal(p: seq<byte>, q: seq<byte>, j: nat, end: nat)
    requires end <= |p| && AgreeFrom(p, q, j) && LowerLabels(p, j, end) == LowerIn(p, j, end)
    ensures LowerLabels(q, j, end) == LowerIn(q, j, end)
  {
    hide LowerLabels, LabelText;
    LowerLabelsExactly(p, j, end);
    LowerLabelsExactly(q, j, end);
    LowerLabelsWithin(q, j, end);
    if j <= end {
      LabelTextLocal(p, q, j, end);
    } else {
      NoLabels(p, j, end);
      NoLabels(q, j, end);
    }
    var a, b, text := LowerLabels(q, j, end), LowerIn(q, j, end), LabelText(q, j, end);
    forall i: nat | i < |q| ensures a[i] == b[i] {
      if i < j {
        assert i !in text;
      } else {
        assert LowerLabels(p, j, end)[i] == LowerIn(p, j, end)[i];
      }
    }
  }

  /** The question pass, by label. It ends where the name does. */
  lemma QuestionByLabel(p: seq<byte>)
    requires Question(p, 12).Some?
    ensures var end := Question(p, 12).value.1 - 4;
            12 < end <= |p| - 4 && LowerIn(p, 12, end) == LowerLabels(p, 12, end) && SkipName(p, 12) == Some(end)
  {
    FlatIsByLabel(p, 12, []);
    hide WalkLabels, SkipName, LowerLabels, Normalize;
  }

  // ---------- The text of a reply's names

  /** The label bytes of the question name. */
  ghost function QuestionText(p: seq<byte>): set<nat>
    requires Question(p, 12).Some?
  {
    LabelText(p, 12, Question(p, 12).value.1 - 4)
  }

  /** The label bytes of the question name and of every owner name. */
  ghost function NameText(p: seq<byte>): set<nat>
    requires Question(p, 12).Some?
  {
    QuestionText(p) + OwnerText(p, Question(p, 12).value.1, RecordCount(p))
  }

  /** The two passes: the reply after the first, and what the first leaves alone. */
  lemma TwoPasses(p: seq<byte>) returns (p1: seq<byte>)
    requires Question(p, 12).Some?
    ensures var qend := Question(p, 12).value.1;
            16 < qend <= |p| && |p1| == |p| && Scrubbed(p) == ScrubOwners(p1, qend, RecordCount(p)) &&
            LoweredExactly(p, p1, QuestionText(p)) && LoweredWithin(p, p1, QuestionText(p)) && SameButCase(p, p1) &&
            AgreeFrom(p, p1, qend) && SkipName(p, 12) == Some(qend - 4)
    ensures forall i: nat :: i in QuestionText(p) ==> 12 < i < Question(p, 12).value.1
  {
    hide Question, ScrubOwners, LabelText, LowerLabels, SkipName, LowerIn, LoweredExactly, LoweredWithin, AgreeFrom,
      AgreeTo, SameButCase;
    var qend := Question(p, 12).value.1;
    p1 := LowerIn(p, 12, qend - 4);
    QuestionByLabel(p);
    LowerLabelsExactly(p, 12, qend - 4);
    LowerLabelsWithin(p, 12, qend - 4);
    LoweredIsSameButCase(p, p1, QuestionText(p));
    CountsKept(p, p1, QuestionText(p));
    FromLater(p, p1, qend - 4, qend);
  }

  lemma PassesCompose(p: seq<byte>, p1: seq<byte>, q: seq<byte>, qend: nat, n: nat, text: set<nat>)
    requires LoweredWithin(p, p1, text) && AgreeFrom(p, p1, qend) && q == ScrubOwners(p1, qend, n)
    ensures LoweredWithin(p, q, text + OwnerText(p, qend, n)) && Records(q, qend, n) == Records(p, qend, n)
  {
    hide *;
    ScrubStaysInOwnerLabels(p1, qend, n);
    OwnerTextLocal(p, p1, qend, n);
    LoweredTwice(p, p1, q, text, OwnerText(p, qend, n));
    ScrubKeepsRecords(p1, qend, n);
    RecordsLocal(p, p1, qend, n);
  }

  /** On any reply, the scrub changes nothing but letters inside question and owner labels. */
  lemma ScrubStaysInNames(p: seq<byte>)
    requires Question(p, 12).Some?
    ensures LoweredWithin(p, Scrubbed(p), NameText(p)) && Question(Scrubbed(p), 12) == Question(p, 12)
  {
    hide Question, ScrubOwners, OwnerText, QuestionText, LoweredWithin, SameButCase;
    var p1 := TwoPasses(p);
    PassesCompose(p, p1, Scrubbed(p), Question(p, 12).value.1, RecordCount(p), QuestionText(p));
    LoweredIsSameButCase(p, Scrubbed(p), NameText(p));
    QuestionIgnoresCase(p, Scrubbed(p), 12);
  }

  /** On any reply, every record keeps its place, type, class, TTL and RDATA. */
  lemma ScrubKeepsEveryRecord(p: seq<byte>)
    requires Question(p, 12).Some?
    ensures var qend, n := Question(p, 12).value.1, RecordCount(p);
            Records(Scrubbed(p), qend, n) == Records(p, qend, n) && RecordCount(Scrubbed(p)) == n
  {
    hide Question, ScrubOwners, OwnerText, QuestionText, Records, LoweredWithin, LoweredExactly, SkipName, SameButCase;
    var p1 := TwoPasses(p);
    var qend, n := Question(p, 12).value.1, RecordCount(p);
    PassesCompose(p, p1, Scrubbed(p), qend, n, QuestionText(p));
    CountsKept(p, p1, QuestionText(p));
    OwnersStartAt(p1, qend, n);
  }

  lemma CountsKept(p: seq<byte>, p1: seq<byte>, text: set<nat>)
    requires |p| >= 12 && LoweredWithin(p, p1, text) && forall i: nat :: i in text ==> 12 < i
    ensures p1[..12] == p[..12] && RecordCount(p1) == RecordCount(p)
  {
  }

  lemma OwnersStartAt(p: seq<byte>, off: nat, n: nat)
    requires 12 <= off <= |p|
    ensures RecordCount(ScrubOwners(p, off, n)) == RecordCount(p)
  {
    ScrubStaysInOwnerLabels(p, off, n);
    hide ScrubOwners, OwnerText;
  }

  // ---------- Names whose pointers land on label starts

  lemma NameTextStarts(p: seq<byte>)
    requires Question(p, 12).Some?
    ensures StartsBehindLength(p, NameText(p))
  {
    var qend, n := Question(p, 12).value.1, RecordCount(p);
    LabelTextStarts(p, 12, qend - 4);
    OwnerTextStarts(p, qend, n);
    hide Question, LabelText, OwnerText, StartsBehindLength;
    StartsJoin(p, QuestionText(p), OwnerText(p, qend, n));
  }

  /** Wherever the pointers a name follows lie outside question and owner labels, the
      scrubbed reply has the same name there. */
  lemma ScrubKeepsName(p: seq<byte>, at: nat)
    requires Question(p, 12).Some? && PointersOutside(p, NameText(p), at, 0)
    ensures Decompress(Scrubbed(p), at) == Decompress(p, at)
  {
    hide *;
    ScrubStaysInNames(p);
    NameTextStarts(p);
    LoweredIsSameButCase(p, Scrubbed(p), NameText(p));
    OutsideFollowsAlike(p, Scrubbed(p), NameText(p), at, 0);
    NamesIgnoreCase(p, Scrubbed(p), at);
  }

  /** Where the labels of the name at j start, and where its root byte or pointer stands. */
  ghost function LabelStarts(p: seq<byte>, j: nat, end: nat): set<nat>
    requires end <= |p|
    decreases end - j
  {
    if j >= end then {} else if p[j] == 0 || p[j] >= 64 then {j} else {j} + LabelStarts(p, j + 1 + p[j], end)
  }

  ghost function OwnerStarts(p: seq<byte>, off: nat, n: nat): set<nat>
    decreases n
  {
    if n == 0 || SkipName(p, off).None? then {}
    else
      var end := SkipName(p, off).value;
      LabelStarts(p, off, end) + if !Continues(p, end) then {} else OwnerStarts(p, RecordEnd(p, end), n - 1)
  }

  /** Every label start of the question name and of the owner names. */
  ghost function NameStarts(p: seq<byte>): set<nat>
    requires Question(p, 12).Some?
  {
    LabelStarts(p, 12, Question(p, 12).value.1 - 4) + OwnerStarts(p, Question(p, 12).value.1, RecordCount(p))
  }

  /** A set of offsets closed under stepping over a label, apart from the text. */
  ghost predicate StepsApart(p: seq<byte>, starts: set<nat>, text: set<nat>) {
    forall i: nat :: i in starts ==>
      i !in text && i < |p| && (0 < p[i] < 64 ==> i + 1 + p[i] in starts)
  }

  /** All of the set lies in [lo, hi). */
  ghost predicate Ranges(s: set<nat>, lo: nat, hi: nat) {
    forall i: nat :: i in s ==> lo <= i < hi
  }

  lemma {:induction false} StartsAreApart(p: seq<byte>, j: nat, end: nat)
    requires SkipName(p, j) == Some(end)
    ensures StepsApart(p, LabelStarts(p, j, end), LabelText(p, j, end)) && j in LabelStarts(p, j, end)
    ensures Ranges(LabelStarts(p, j, end), j, end) && Ranges(LabelText(p, j, end), j, end)
    decreases |p| - j
  {
    if 0 < p[j] < 64 {
      var next: nat := j + 1 + p[j];
      StartsAreApart(p, next, end);
      LabelTextUnfold(p, j, end);
      assert LabelStarts(p, j, end) == {j} + LabelStarts(p, next, end);
      hide LabelStarts, LabelText, SkipName;
      StepBefore(p, j, LabelStarts(p, next, end), LabelText(p, next, end), end);
    }
  }

  lemma StepBefore(p: seq<byte>, j: nat, starts: set<nat>, text: set<nat>, end: nat)
    requires j < |p| && 0 < p[j] < 64 && j + 1 + p[j] < end && end <= |p|
    requires StepsApart(p, starts, text) && j + 1 + p[j] in starts
    requires Ranges(starts, j + 1 + p[j], end) && Ranges(text, j + 1 + p[j], end)
    ensures StepsApart(p, {j} + starts, Span(j + 1, Capped(j + 1 + p[j], end)) + text)
    ensures Ranges({j} + starts, j, end) && Ranges(Span(j + 1, Capped(j + 1 + p[j], end)) + text, j, end)
  {
  }

  lemma ApartJoin(p: seq<byte>, a: set<nat>, s: set<nat>, b: set<nat>, t: set<nat>, lo: nat, mid: nat, end: nat)
    requires StepsApart(p, a, s) && StepsApart(p, b, t) && lo <= mid <= end
    requires Ranges(a, lo, mid) && Ranges(s, lo, mid) && Ranges(b, mid, end) && Ranges(t, mid, end)
    ensures StepsApart(p, a + b, s + t) && Ranges(a + b, lo, end) && Ranges(s + t, lo, end)
  {
  }

  lemma RangesMore(s: set<nat>, lo: nat, hi: nat, far: nat)
    requires Ranges(s, lo, hi) && hi <= far
    ensures Ranges(s, lo, far)
  {
  }

  lemma OwnerStartsUnfold(p: seq<byte>, off: nat, n: nat)
    requires n > 0 && SkipName(p, off).Some?
    ensures var end := SkipName(p, off).value;
            OwnerStarts(p, off, n) ==
            LabelStarts(p, off, end) + if Continues(p, end) then OwnerStarts(p, RecordEnd(p, end), n - 1) else {}
  {
    hide SkipName, LabelStarts;
  }

  lemma NoOwners(p: seq<byte>, off: nat, n: nat)
    requires n == 0 || SkipName(p, off).None?
    ensures OwnerStarts(p, off, n) == {} && OwnerText(p, off, n) == {}
  {
    hide SkipName;
  }

  lemma {:induction false} OwnersAreApart(p: seq<byte>, off: nat, n: nat)
    ensures StepsApart(p, OwnerStarts(p, off, n), OwnerText(p, off, n))
    ensures Ranges(OwnerStarts(p, off, n), off, |p|) && Ranges(OwnerText(p, off, n), off, |p|)
    decreases n
  {
    hide *;
    if n == 0 || SkipName(p, off).None? {
      NoOwners(p, off, n);
      NothingApart(p, off);
    } else {
      var end := SkipName(p, off).value;
      OwnerStartsUnfold(p, off, n);
      OwnerTextUnfold(p, off, n);
      StartsAreApart(p, off, end);
      var starts, text := LabelStarts(p, off, end), LabelText(p, off, end);
      if Continues(p, end) {
        var next := RecordEnd(p, end);
        OwnersAreApart(p, next, n - 1);
        RangesMore(starts, off, end, next);
        RangesMore(text, off, end, next);
        ApartJoin(p, starts, text, OwnerStarts(p, next, n - 1), OwnerText(p, next, n - 1), off, next, |p|);
      } else {
        assert starts + {} == starts && text + {} == text;
        RangesMore(starts, off, end, |p|);
        RangesMore(text, off, end, |p|);
      }
    }
  }

  lemma NothingApart(p: seq<byte>, off: nat)
    ensures StepsApart(p, {}, {}) && Ranges({}, off, |p|)
  {
  }

  lemma NamesAreApart(p: seq<byte>)
    requires Question(p, 12).Some?
    ensures StepsApart(p, NameStarts(p), NameText(p))
  {
    hide SkipName, OwnerStarts, OwnerText, LabelStarts, LabelText, StepsApart, Question, Ranges, LowerIn, LowerLabels;
    var qend, n := Question(p, 12).value.1, RecordCount(p);
    QuestionByLabel(p);
    StartsAreApart(p, 12, qend - 4);
    OwnersAreApart(p, qend, n);
    RangesMore(LabelStarts(p, 12, qend - 4), 12, qend - 4, qend);
    RangesMore(QuestionText(p), 12, qend - 4, qend);
    ApartJoin(p, LabelStarts(p, 12, qend - 4), QuestionText(p), OwnerStarts(p, qend, n), OwnerText(p, qend, n), 12,
              qend, |p|);
  }

  /** Every pointer the name at at follows aims at one of the given offsets. */
  ghost predicate LandsOn(p: seq<byte>, starts: set<nat>, at: nat, jumps: nat)
    requires jumps <= MAX_JUMPS
    decreases MAX_JUMPS - jumps, |p| - at
  {
    if at >= |p| || p[at] == 0 || 64 <= p[at] < 192 then true
    else if p[at] < 64 then LandsOn(p, starts, at + 1 + p[at], jumps)
    else
      at + 1 >= |p| || Target(p, at) >= at || jumps == MAX_JUMPS ||
      (Target(p, at) in starts && LandsOn(p, starts, Target(p, at), jumps + 1))
  }

  lemma {:induction false} LandsOutside(p: seq<byte>, starts: set<nat>, text: set<nat>, at: nat, jumps: nat)
    requires jumps <= MAX_JUMPS && StepsApart(p, starts, text) && at in starts && LandsOn(p, starts, at, jumps)
    ensures PointersOutside(p, text, at, jumps)
    decreases MAX_JUMPS - jumps, |p| - at
  {
    if at < |p| {
      if 0 < p[at] < 64 {
        LandsOutside(p, starts, text, at + 1 + p[at], jumps);
      } else if p[at] >= 192 && at + 1 < |p| && Target(p, at) < at && jumps < MAX_JUMPS {
        LandsOutside(p, starts, text, Target(p, at), jumps + 1);
      }
    }
  }

  /** A name somewhere else, in RDATA say, whose own labels stay clear of the text. */
  lemma {:induction false} ElsewhereLandsOutside(p: seq<byte>, starts: set<nat>, text: set<nat>, at: nat, end: nat)
    requires StepsApart(p, starts, text) && LandsOn(p, starts, at, 0)
    requires SkipName(p, at) == Some(end) && forall i: nat :: at <= i < end ==> i !in text
    ensures PointersOutside(p, text, at, 0)
    decreases |p| - at
  {
    if 0 < p[at] < 64 {
      ElsewhereLandsOutside(p, starts, text, at + 1 + p[at], end);
    } else if p[at] >= 192 && Target(p, at) < at {
      LandsOutside(p, starts, text, Target(p, at), 1);
    }
  }

  /** The name at at, up to end, lies inside the RDATA of one of the records. */
  ghost predicate InRdata(rs: seq<Rr>, at: nat, end: nat) {
    exists k :: 0 <= k < |rs| && rs[k].fixed + 10 <= at && end <= rs[k].fixed + 10 + |rs[k].rdata|
  }

  /** The RDATA of r holds none of the text. */
  ghost predicate Clear(r: Rr, text: set<nat>) {
    forall i: nat :: r.fixed + 10 <= i < r.fixed + 10 + |r.rdata| ==> i !in text
  }

  lemma ClearJoin(r: Rr, a: set<nat>, b: set<nat>)
    requires Clear(r, a) && Clear(r, b)
    ensures Clear(r, a + b)
  {
  }

  lemma RdataIsBetween(p: seq<byte>, off: nat, e: nat, text: set<nat>, rest: set<nat>)
    requires Continues(p, e) && Ranges(text, off, e) && Ranges(rest, RecordEnd(p, e), |p|)
    ensures Clear(RrAt(p, off, e), text) && Clear(RrAt(p, off, e), rest)
  {
  }

  lemma BehindIsClear(r: Rr, lo: nat, hi: nat, text: set<nat>)
    requires Ranges(text, lo, hi) && hi <= r.fixed
    ensures Clear(r, text)
  {
  }

  lemma SomeRecord(p: seq<byte>, off: nat, n: nat, k: nat)
    requires k < |Records(p, off, n)|
    ensures n > 0 && SkipName(p, off).Some? && Continues(p, SkipName(p, off).value)
    ensures var e := SkipName(p, off).value;
            var next := RecordEnd(p, e);
            off <= e && next >= e + 10 && RrAt(p, off, e).fixed == e &&
            Records(p, off, n)[0] == RrAt(p, off, e) && |Records(p, off, n)| == 1 + |Records(p, next, n - 1)|
    ensures k > 0 ==> Records(p, off, n)[k] == Records(p, RecordEnd(p, SkipName(p, off).value), n - 1)[k - 1]
  {
    hide SkipName;
  }

  lemma {:induction false} RdataIsClear(p: seq<byte>, off: nat, n: nat, k: nat)
    requires k < |Records(p, off, n)|
    ensures off <= Records(p, off, n)[k].fixed && Clear(Records(p, off, n)[k], OwnerText(p, off, n))
    decreases n
  {
    hide *;
    SomeRecord(p, off, n, k);
    var e := SkipName(p, off).value;
    var next := RecordEnd(p, e);
    OwnerTextUnfold(p, off, n);
    StartsAreApart(p, off, e);
    OwnersAreApart(p, next, n - 1);
    var text, more, rest := LabelText(p, off, e), OwnerText(p, next, n - 1), Records(p, next, n - 1);
    if k == 0 {
      RdataIsBetween(p, off, e, text, more);
      ClearJoin(RrAt(p, off, e), text, more);
    } else {
      RdataIsClear(p, next, n - 1, k - 1);
      BehindIsClear(rest[k - 1], off, e, text);
      ClearJoin(rest[k - 1], text, more);
    }
  }

  /** A name of the reply: where a label of the question or of an owner starts, or inside
      the RDATA of a record. */
  ghost predicate IsNameOf(p: seq<byte>, at: nat)
    requires Question(p, 12).Some?
  {
    at in NameStarts(p) ||
    (SkipName(p, at).Some? && InRdata(Records(p, Question(p, 12).value.1, RecordCount(p)), at, SkipName(p, at).value))
  }

  /** Where pointers land on label starts, every name of a reply survives the scrub: in the
      question, in owners and in RDATA. */
  lemma NamesOnLabelStartsSurvive(p: seq<byte>, at: nat)
    requires Question(p, 12).Some? && IsNameOf(p, at) && LandsOn(p, NameStarts(p), at, 0)
    ensures Decompress(Scrubbed(p), at) == Decompress(p, at)
  {
    hide Question, SkipName, Records, NameStarts, NameText, LandsOn, PointersOutside, Decompress, Scrubbed, StepsApart;
    NamesAreApart(p);
    if at in NameStarts(p) {
      LandsOutside(p, NameStarts(p), NameText(p), at, 0);
    } else {
      var rs, end := Records(p, Question(p, 12).value.1, RecordCount(p)), SkipName(p, at).value;
      var k: nat :| k < |rs| && rs[k].fixed + 10 <= at && end <= rs[k].fixed + 10 + |rs[k].rdata|;
      RdataOutsideNames(p, k);
      ElsewhereLandsOutside(p, NameStarts(p), NameText(p), at, end);
    }
    ScrubKeepsName(p, at);
  }

  lemma RdataOutsideNames(p: seq<byte>, k: nat)
    requires Question(p, 12).Some? && k < |Records(p, Question(p, 12).value.1, RecordCount(p))|
    ensures Clear(Records(p, Question(p, 12).value.1, RecordCount(p))[k], NameText(p))
  {
    var qend, n := Question(p, 12).value.1, RecordCount(p);
    hide Question, Records, OwnerText, LabelText, SkipName, LowerIn, LowerLabels, Clear, Ranges;
    QuestionByLabel(p);
    StartsAreApart(p, 12, qend - 4);
    RdataIsClear(p, qend, n, k);
    BehindIsClear(Records(p, qend, n)[k], 12, qend - 4, QuestionText(p));
    ClearJoin(Records(p, qend, n)[k], QuestionText(p), OwnerText(p, qend, n));
  }

  // ---------- Exactly when every pointer survives

  /** The name text the two passes reach. */
  ghost function ScrubbedText(p: seq<byte>): set<nat>
    requires Question(p, 12).Some?
  {
    QuestionText(p) + ReachedText(p, Question(p, 12).value.1, RecordCount(p))
  }

  /** Every byte pair of a reply that reads as a compression pointer keeps its target if and
      only if no label that is folded has an upper-case letter behind a byte of 192 or more;
      and the labels folded are among those of the question and the owners. */
  lemma PointersSurviveExactly(p: seq<byte>)
    requires Question(p, 12).Some?
    ensures SamePointers(p, Scrubbed(p)) <==> Harmless(p, ScrubbedText(p))
    ensures ScrubbedText(p) <= NameText(p)
  {
    hide Question, ScrubOwners, ReachedText, QuestionText, LoweredExactly, LoweredWithin, SkipName, SameButCase,
      AgreeFrom, Harmless, SamePointers, AgreeTo;
    var p1 := TwoPasses(p);
    var qend, n := Question(p, 12).value.1, RecordCount(p);
    ScrubStaysInOwnerLabels(p1, qend, n);
    ScrubKeepsPointersExactly(p1, qend, n);
    ReachedFrom(p, qend, n);
    ReachedIsOwnerText(p, qend, n);
    if SamePointers(p, p1) {
      ReachedLocal(p, p1, qend, n);
    }
    PointersAcross(p, p1, Scrubbed(p), QuestionText(p), ReachedText(p, qend, n), ReachedText(p1, qend, n), qend);
  }

  /** And then every name survives, at every offset, wherever its pointers land. */
  lemma EveryNameSurvives(p: seq<byte>, at: nat)
    requires Question(p, 12).Some? && Harmless(p, ScrubbedText(p))
    ensures Decompress(Scrubbed(p), at) == Decompress(p, at)
  {
    hide *;
    PointersSurviveExactly(p);
    ScrubStaysInNames(p);
    LoweredIsSameButCase(p, Scrubbed(p), NameText(p));
    SamePointersSameNames(p, Scrubbed(p), at);
  }

  // ---------- Where a name is lost

  /** A reply of two records. The question's label hides the name "x" at 65; the first owner
      label holds the bytes of a pointer to it at 79; the second owner points there. */
  function PointerInLabel(): (p: seq<byte>)
    ensures |p| == 104
  {
    seq(104, i =>
      if i == 2 then 128 else if i == 5 then 1 else if i == 7 then 2
      else if i == 12 then 60 else if i == 65 then 1 else if i == 66 then 120 else if i == 67 then 0
      else if 13 <= i < 73 then 97 else if i == 75 || i == 77 then 1
      else if i == 78 then 2 else if i == 79 then 192 else if i == 80 then 65 else if i == 83 || i == 85 then 1
      else if i == 92 then 192 else if i == 93 then 79 else if i == 95 || i == 97 then 1
      else 0)
  }

  lemma LongLabel(p: seq<byte>)
    requires |p| == 104 && p[12] == 60 && p[72] == 97 && p[73] == 0
    ensures Question(p, 12).Some? && Question(p, 12).value.1 == 78
  {
    hide WalkLabels;
    var lab := p[13..73];
    assert lab[59] == 97;
    assert JoinLabel([], lab) == lab && StripDots(lab) == lab;
    WalkAt(p, 12, []);
    WalkAt(p, 73, lab);
  }

  lemma TwoRecords(p: seq<byte>)
    requires |p| == 104 && p[78] == 2 && p[81] == 0 && p[92] == 192
    requires p[90] == 0 && p[91] == 0 && p[102] == 0 && p[103] == 0
    ensures |Records(p, 78, 2)| == 2
  {
    SkipTwo(p);
    assert Continues(p, 82) && RecordEnd(p, 82) == 92 && Continues(p, 94);
    hide SkipName, Records;
    RecordsUnfold(p, 78, 2);
    RecordsUnfold(p, 92, 1);
  }

  lemma PointerInLabelParses()
    ensures var p := PointerInLabel();
            Question(p, 12).Some? && Question(p, 12).value.1 == 78 && RecordCount(p) == 2 && |Records(p, 78, 2)| == 2
  {
    var p := PointerInLabel();
    hide Question, Records;
    LongLabel(p);
    TwoRecords(p);
  }

  lemma SkipTwo(p: seq<byte>)
    requires |p| == 104 && p[78] == 2 && p[81] == 0 && p[92] == 192
    ensures SkipName(p, 78) == Some(82) && SkipName(p, 92) == Some(94)
  {
    assert SkipName(p, 81) == Some(82);
  }

  lemma FirstOwnerParses(p: seq<byte>)
    requires |p| == 104 && p[78] == 2 && p[79] == 192 && p[80] == 65 && p[81] == 0
    ensures Decompress(p, 78) == Some(([192, 97], 82))
  {
    hide Expand, JoinLabel, Normalize;
    ExpandUnfold(p, 78, 0, None, []);
    TwoBytes(p);
    ExpandUnfold(p, 81, 0, None, [192, 65]);
  }

  lemma TwoBytes(p: seq<byte>)
    requires |p| == 104 && p[79] == 192 && p[80] == 65
    ensures JoinLabel([], p[79..81]) == [192, 65] && Normalize(NAME_CAP, [192, 65]) == [192, 97]
  {
    assert p[79..81] == [192, 65];
    assert StripDots([192, 65]) == [192, 65];
    assert LowerAll([192, 65]) == [192, 97];
  }

  lemma SecondOwnerParses(p: seq<byte>)
    requires |p| == 104 && p[92] == 192 && p[93] == 79 && p[79] == 192 && p[80] == 65 && p[65] == 1 &&
      p[66] == 120 && p[67] == 0
    ensures Decompress(p, 92) == Some(([120], 94))
  {
    hide Expand, JoinLabel, Normalize;
    ExpandUnfold(p, 92, 0, None, []);
    ExpandUnfold(p, 79, 1, Some(94), []);
    ExpandUnfold(p, 65, 2, Some(94), []);
    OneLetter(p);
    ExpandUnfold(p, 67, 2, Some(94), [120]);
  }

  lemma OneLetter(p: seq<byte>)
    requires |p| == 104 && p[66] == 120
    ensures JoinLabel([], p[66..67]) == [120] && Normalize(NAME_CAP, [120]) == [120]
  {
    assert p[66..67] == [120];
    assert StripDots([120]) == [120];
    assert LowerAll([120]) == [120];
  }

  lemma SecondOwnerLost(q: seq<byte>)
    requires q == PointerInLabel()[80 := 97]
    ensures Decompress(q, 92).None?
  {
    hide Expand;
    ExpandUnfold(q, 92, 0, None, []);
    ExpandUnfold(q, 79, 1, Some(94), []);
  }

  lemma FirstOwnerLowered(p: seq<byte>)
    requires p == PointerInLabel()
    ensures LowerLabels(p, 78, 82) == p[80 := 97] && LowerIn(p, 12, 74) == p
  {
    var q := LowerIn(p, 79, 81);
    LowerLabelsUnfold(p, 78, 82);
    LowerLabelsUnfold(q, 81, 82);
    assert q == p[80 := 97];
    hide LowerLabels;
  }

  lemma PointerInLabelBytes()
    ensures var p := PointerInLabel();
            p[78] == 2 && p[79] == 192 && p[80] == 65 && p[81] == 0 && p[92] == 192 && p[93] == 79 &&
            p[65] == 1 && p[66] == 120 && p[67] == 0 && RecordCount(p) == 2
    ensures var q := PointerInLabel()[80 := 97];
            Continues(q, 82) && RecordEnd(q, 82) == 92
  {
  }

  /** Without the condition names can change. This reply passes every check of process_reply
      on its shape, and the scrub takes its second owner name, "x", away. */
  lemma PointerInLabelIsMoved()
    ensures var p := PointerInLabel();
            Question(p, 12).Some? && RecordCount(p) == 2 && |Records(p, Question(p, 12).value.1, 2)| == 2 &&
            Decompress(p, 92) == Some(([120], 94)) && Decompress(Scrubbed(p), 92).None?
  {
    hide *;
    var p := PointerInLabel();
    var q := p[80 := 97];
    PointerInLabelBytes();
    PointerInLabelParses();
    FirstOwnerParses(p);
    NameEndIs(p, 78);
    SecondOwnerParses(p);
    SecondOwnerLost(q);
    FirstOwnerLowered(p);
    ScrubUnfold(p, 78, 2);
    NothingReached(q, 92, 1);
    ScrubbedIs(p);
  }

  lemma ScrubbedIs(p: seq<byte>)
    requires Question(p, 12).Some?
    ensures var qend := Question(p, 12).value.1;
            Scrubbed(p) == var q := LowerIn(p, 12, qend - 4); ScrubOwners(q, qend, RecordCount(q))
  {
    hide Question, ScrubOwners;
  }
}
