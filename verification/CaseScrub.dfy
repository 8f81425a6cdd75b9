/** The in-place case passes of main/dns_server.cpp over a packet: the 0x20 case of a
    question is randomized before it goes upstream, and folded back, with the owner
    names, before the reply goes anywhere. Neither may change what the packet means. */
module CaseScrub {
  import opened Bytes
  import opened Domain
  import opened Wire

  /** Equal packets up to the case of ASCII letters. */
  ghost predicate SameButCase(p: seq<byte>, q: seq<byte>) {
    |p| == |q| && forall i {:trigger p[i]} {:trigger q[i]} :: 0 <= i < |p| ==> Lower(p[i]) == Lower(q[i])
  }

  // ---------- The question name

  function Toggle(c: byte): byte {
    if IsUpper(c) then c + 32 else if IsLetter(c) then c - 32 else c
  }

  /** The letters of [i, hi) flipped where the coin of their number, counted from m, says so. */
  function Flip(p: seq<byte>, i: nat, hi: nat, m: nat, coin: nat -> bool): (q: seq<byte>)
    requires hi <= |p|
    ensures |q| == |p|
    decreases hi - i
  {
    if i >= hi then p
    else if !IsLetter(p[i]) then Flip(p, i + 1, hi, m, coin)
    else Flip(if coin(m) then p[i := Toggle(p[i])] else p, i + 1, hi, m + 1, coin)
  }

  /** randomize_qname_case. */
  method RandomizeQnameCase(pkt: array<byte>, qend: int, coin: nat -> bool)
    requires qend - 4 <= pkt.Length
    modifies pkt
    ensures 0 <= qend - 4 ==> pkt[..] == Flip(old(pkt[..]), 12, qend - 4, 0, coin)
    ensures qend - 4 < 0 ==> pkt[..] == old(pkt[..])
  {
    var i: nat, m: nat := 12, 0;
    while i < qend - 4
      invariant 0 <= qend - 4 ==> Flip(old(pkt[..]), 12, qend - 4, 0, coin) == Flip(pkt[..], i, qend - 4, m, coin)
      invariant i == 12 ==> pkt[..] == old(pkt[..])
      invariant i == 12 || i <= qend - 4
    {
      var c := pkt[i];
      if IsLetter(c) {
        ghost var before := pkt[..];
        if coin(m) {
          pkt[i] := Toggle(c);
          assert pkt[..] == before[i := Toggle(c)];
        }
        m := m + 1;
      }
      i := i + 1;
    }
  }

  /** The letters of [lo, hi) in lower case. */
  function LowerIn(p: seq<byte>, lo: nat, hi: nat): (q: seq<byte>)
    ensures |q| == |p|
    ensures forall i :: 0 <= i < |p| ==> q[i] == if lo <= i < hi then Lower(p[i]) else p[i]
  {
    seq(|p|, i requires 0 <= i < |p| => if lo <= i < hi then Lower(p[i]) else p[i])
  }

  /** normalize_qname_case. */
  method NormalizeQnameCase(pkt: array<byte>, qend: nat)
    requires qend - 4 <= pkt.Length
    modifies pkt
    ensures pkt[..] == LowerIn(old(pkt[..]), 12, if qend < 4 then 0 else qend - 4)
  {
    var i: nat := 12;
    while i < qend - 4
      invariant i == 12 || i <= qend - 4
      invariant forall j :: 0 <= j < pkt.Length ==>
                  pkt[j] == if 12 <= j < i then Lower(old(pkt[..])[j]) else old(pkt[..])[j]
    {
      var c := pkt[i];
      if IsLetter(c) {
        pkt[i] := Lower(c);
      }
      i := i + 1;
    }
  }

  lemma {:induction false} FlipOnlyCase(p: seq<byte>, i: nat, hi: nat, m: nat, coin: nat -> bool)
    requires hi <= |p|
    ensures var q := Flip(p, i, hi, m, coin);
            SameButCase(p, q) && forall j :: 0 <= j < |p| && !(i <= j < hi) ==> q[j] == p[j]
    decreases hi - i
  {
    if i < hi {
      if IsLetter(p[i]) {
        FlipOnlyCase(if coin(m) then p[i := Toggle(p[i])] else p, i + 1, hi, m + 1, coin);
      } else {
        FlipOnlyCase(p, i + 1, hi, m, coin);
      }
    }
  }

  lemma LowerInOnlyCase(p: seq<byte>, lo: nat, hi: nat)
    ensures SameButCase(p, LowerIn(p, lo, hi))
  {
  }

  // ---------- What does not depend on case

  /** Two dotted texts that a label walk cannot tell apart. */
  ghost predicate SameText(a: seq<byte>, b: seq<byte>) {
    |a| == |b| && LowerAll(a) == LowerAll(b)
  }

  lemma ControlBytesAgree(x: byte, y: byte)
    requires Lower(x) == Lower(y)
    ensures x < 64 || y < 64 ==> x == y
    ensures (x >= 192) == (y >= 192)
    ensures (x == DOT) == (y == DOT)
  {
  }

  lemma JoinSameText(a: seq<byte>, b: seq<byte>, p: seq<byte>, q: seq<byte>, i: nat, j: nat)
    requires SameText(a, b) && SameButCase(p, q) && i <= j <= |p|
    ensures SameText(JoinLabel(a, p[i..j]), JoinLabel(b, q[i..j]))
  {
    var x, y := JoinLabel(a, p[i..j]), JoinLabel(b, q[i..j]);
    var d := |x| - (j - i);
    forall k | 0 <= k < |x| ensures Lower(x[k]) == Lower(y[k]) {
      if k < |a| {
        assert LowerAll(a)[k] == LowerAll(b)[k];
      } else if k >= d {
        assert x[k] == p[i + (k - d)] && y[k] == q[i + (k - d)];
      }
    }
  }

  lemma {:induction false} StripSameText(a: seq<byte>, b: seq<byte>)
    requires SameText(a, b)
    ensures SameText(StripDots(a), StripDots(b))
  {
    if a != [] {
      var n := |a| - 1;
      assert LowerAll(a)[n] == LowerAll(b)[n];
      ControlBytesAgree(a[n], b[n]);
      assert LowerAll(a)[..n] == LowerAll(a[..n]) && LowerAll(b)[..n] == LowerAll(b[..n]);
      StripSameText(a[..n], b[..n]);
    }
  }

  lemma NormalizeSameText(a: seq<byte>, b: seq<byte>)
    requires SameText(a, b)
    ensures Normalize(NAME_CAP, a) == Normalize(NAME_CAP, b)
  {
    StripSameText(a, b);
  }

  ghost predicate SameWalk(x: Option<(seq<byte>, nat)>, y: Option<(seq<byte>, nat)>) {
    (x.Some? <==> y.Some?) && (x.Some? ==> SameText(x.value.0, y.value.0) && x.value.1 == y.value.1)
  }

  lemma {:induction false} WalkIgnoresCase(p: seq<byte>, q: seq<byte>, off: nat, a: seq<byte>, b: seq<byte>)
    requires SameButCase(p, q) && SameText(a, b)
    ensures SameWalk(WalkLabels(p, off, a), WalkLabels(q, off, b))
    decreases |p| - off
  {
    if off < |p| {
      ControlBytesAgree(p[off], q[off]);
      var l: int := p[off];
      if 0 < l < 64 && off + 1 + l <= |p| {
        JoinSameText(a, b, p, q, off + 1, off + 1 + l);
        hide JoinLabel, SameText, SameButCase;
        WalkIgnoresCase(p, q, off + 1 + l, JoinLabel(a, p[off + 1..off + 1 + l]),
                        JoinLabel(b, q[off + 1..off + 1 + l]));
      }
    }
  }

  /** The parsed question does not depend on case, wherever it starts. */
  lemma QuestionIgnoresCase(p: seq<byte>, q: seq<byte>, off: nat)
    requires SameButCase(p, q)
    ensures Question(p, off) == Question(q, off) && WireLen(p, off) == WireLen(q, off)
  {
    WalkIgnoresCase(p, q, off, [], []);
    hide WalkLabels, Normalize;
    match WalkLabels(p, off, [])
    case None =>
    case Some((raw, root)) =>
      var raw2 := WalkLabels(q, off, []).value.0;
      NormalizeSameText(raw, raw2);
  }

  /** Whatever the coins, the query that goes upstream asks the same question, and only
      bytes of the question name differ. */
  lemma RandomizedQueryAsksTheSame(p: seq<byte>, coin: nat -> bool)
    requires Question(p, 12).Some?
    ensures var hi := Question(p, 12).value.1 - 4;
            var q := Flip(p, 12, hi, 0, coin);
            Question(q, 12) == Question(p, 12) && WireEq(q[12..hi], p[12..hi]) &&
            q[..12] == p[..12] && q[hi..] == p[hi..]
  {
    var hi := Question(p, 12).value.1 - 4;
    FlipOnlyCase(p, 12, hi, 0, coin);
    var q := Flip(p, 12, hi, 0, coin);
    QuestionIgnoresCase(p, q, 12);
  }

  /** Folding the reply's question back erases the coins. */
  lemma NormalizeErasesTheCoins(p: seq<byte>, coin: nat -> bool)
    requires Question(p, 12).Some?
    ensures var hi := Question(p, 12).value.1 - 4;
            LowerIn(Flip(p, 12, hi, 0, coin), 12, hi) == LowerIn(p, 12, hi) &&
            Question(LowerIn(p, 12, hi), 12) == Question(p, 12)
  {
    var hi := Question(p, 12).value.1 - 4;
    FlipOnlyCase(p, 12, hi, 0, coin);
    LowerInOnlyCase(p, 12, hi);
    QuestionIgnoresCase(p, LowerIn(p, 12, hi), 12);
    assert LowerIn(Flip(p, 12, hi, 0, coin), 12, hi) == LowerIn(p, 12, hi);
  }

  // ---------- Owner names

  /** The labels of the name at j, up to end, in lower case. */
  function LowerLabels(p: seq<byte>, j: nat, end: nat): (q: seq<byte>)
    requires end <= |p|
    ensures |q| == |p|
    decreases end - j
  {
    if j >= end || p[j] == 0 || p[j] >= 64 then p
    else LowerLabels(LowerIn(p, j + 1, Capped(j + 1 + p[j], end)), j + 1 + p[j], end)
  }

  function Capped(x: nat, cap: nat): nat {
    if x < cap then x else cap
  }

  /** The owner names of n records from off on in lower case, as far as they parse. */
  function ScrubOwners(p: seq<byte>, off: nat, n: nat): (q: seq<byte>)
    ensures |q| == |p|
    decreases n
  {
    if n == 0 || Decompress(p, off).None? then p
    else
      var end := NameEnd(p, off);
      var p1 := LowerLabels(p, off, end);
      if !Continues(p1, end) then p1 else ScrubOwners(p1, RecordEnd(p1, end), n - 1)
  }

  function NameEnd(p: seq<byte>, off: nat): (end: nat)
    requires Decompress(p, off).Some?
    ensures off < end <= |p| && SkipName(p, off) == Some(end)
  {
    DecompressAdvancesLikeSkip(p, off);
    Decompress(p, off).value.1
  }

  lemma NameEndIs(p: seq<byte>, off: nat)
    requires Decompress(p, off).Some?
    ensures NameEnd(p, off) == Decompress(p, off).value.1
  {
  }

  /** The record whose fixed fields start at e lies inside the packet. */
  predicate Continues(p: seq<byte>, e: nat) {
    e + 10 <= |p| && e + 10 + Get16(p, e + 8) <= |p|
  }

  /** The offset past the record whose fixed fields start at e. */
  function RecordEnd(p: seq<byte>, e: nat): (end: nat)
    requires Continues(p, e)
    ensures e + 10 <= end <= |p|
  {
    e + 10 + Get16(p, e + 8)
  }

  lemma LowerLabelsUnfold(p: seq<byte>, j: nat, end: nat)
    requires end <= |p|
    ensures LowerLabels(p, j, end) ==
            if j >= end || p[j] == 0 || p[j] >= 64 then p
            else LowerLabels(LowerIn(p, j + 1, Capped(j + 1 + p[j], end)), j + 1 + p[j], end)
  {
  }

  /** The text of one label, up to end. */
  method LowerLabel(pkt: array<byte>, lo: nat, hi: nat)
    requires hi <= pkt.Length
    modifies pkt
    ensures pkt[..] == LowerIn(old(pkt[..]), lo, hi)
  {
    var k := lo;
    while k < hi
      invariant k == lo || k <= hi
      invariant forall i :: 0 <= i < pkt.Length ==>
                  pkt[i] == if lo <= i < k then Lower(old(pkt[..])[i]) else old(pkt[..])[i]
    {
      var c := pkt[k];
      if IsLetter(c) {
        pkt[k] := Lower(c);
      }
      k := k + 1;
    }
  }

  /** The label loop of normalize_answer_owner_names. */
  method LowerOwnerLabels(pkt: array<byte>, start: nat, end: nat)
    requires end <= pkt.Length
    modifies pkt
    ensures pkt[..] == LowerLabels(old(pkt[..]), start, end)
  {
    hide LowerLabels, LowerIn;
    var j := start;
    while j < end
      invariant LowerLabels(old(pkt[..]), start, end) == LowerLabels(pkt[..], j, end)
      decreases end - j
    {
      LowerLabelsUnfold(pkt[..], j, end);
      var b := pkt[j];
      if b == 0 || b >= 64 {
        return;
      }
      LowerLabel(pkt, j + 1, Capped(j + 1 + b, end));
      j := j + 1 + b;
    }
    LowerLabelsUnfold(pkt[..], j, end);
  }

  function RecordCount(p: seq<byte>): nat
    requires |p| >= 12
  {
    Get16(p, 6) + Get16(p, 8) + Get16(p, 10)
  }

  /** The record loop's body: the first of n records, and where the next one starts. */
  method ScrubOwner(pkt: array<byte>, off: nat, ghost n: nat) returns (more: bool, next: nat)
    requires n > 0
    modifies pkt
    ensures more ==> ScrubOwners(old(pkt[..]), off, n) == ScrubOwners(pkt[..], next, n - 1)
    ensures !more ==> pkt[..] == ScrubOwners(old(pkt[..]), off, n)
  {
    hide ScrubOwners, Decompress, LowerLabels, NameEnd;
    ghost var p := pkt[..];
    ScrubUnfold(p, off, n);
    assert pkt[..pkt.Length] == p;
    var ok, end, _ := DnsDecompressName(pkt, pkt.Length, off);
    if !ok {
      return false, off;
    }
    NameEndIs(p, off);
    LowerOwnerLabels(pkt, off, end);
    if end + 10 > pkt.Length {
      return false, off;
    }
    var rdlen := pkt[end + 8] as int * 256 + pkt[end + 9];
    next := end + 10 + rdlen;
    if next > pkt.Length {
      return false, off;
    }
    return true, next;
  }

  /** normalize_answer_owner_names on a packet that fills its buffer. */
  method NormalizeAnswerOwnerNames(pkt: array<byte>, qend: nat)
    modifies pkt
    ensures pkt.Length < 12 ==> pkt[..] == old(pkt[..])
    ensures pkt.Length >= 12 ==> pkt[..] == ScrubOwners(old(pkt[..]), qend, RecordCount(old(pkt[..])))
  {
    hide ScrubOwners;
    if pkt.Length < 12 {
      return;
    }
    var ancount := pkt[6] as int * 256 + pkt[7];
    var nscount := pkt[8] as int * 256 + pkt[9];
    var arcount := pkt[10] as int * 256 + pkt[11];
    ghost var p := pkt[..];
    var total: nat := ancount + nscount + arcount;
    assert total == RecordCount(p);
    var off: nat := qend;
    var i: nat := 0;
    while i < total
      invariant i <= total && ScrubOwners(p, qend, total) == ScrubOwners(pkt[..], off, total - i)
    {
      var more, next := ScrubOwner(pkt, off, total - i);
      if !more {
        return;
      }
      off := next;
      i := i + 1;
    }
    NoneScrubbed(pkt[..], off);
  }

  // ---------- Only letters inside owner labels change

  predicate Between(lo: nat, i: nat, hi: nat) {
    lo <= i < hi
  }

  ghost function Span(lo: nat, hi: nat): (s: set<nat>)
    ensures forall i: nat :: i in s <==> lo <= i < hi
  {
    set i: nat | lo <= i < hi && Between(lo, i, hi)
  }

  /** The positions of the label bytes of the name at j, up to end. */
  ghost function LabelText(p: seq<byte>, j: nat, end: nat): set<nat>
    requires end <= |p|
    decreases end - j
  {
    if j >= end || p[j] == 0 || p[j] >= 64 then {}
    else Span(j + 1, Capped(j + 1 + p[j], end)) + LabelText(p, j + 1 + p[j], end)
  }

  /** The positions of the owner label bytes of n records from off on, walked without
      following pointers. */
  ghost function OwnerText(p: seq<byte>, off: nat, n: nat): set<nat>
    decreases n
  {
    if n == 0 || SkipName(p, off).None? then {}
    else
      var end := SkipName(p, off).value;
      LabelText(p, off, end) +
      if !Continues(p, end) then {} else OwnerText(p, RecordEnd(p, end), n - 1)
  }

  /** q is p with some letters inside the given positions in lower case. */
  ghost predicate LoweredWithin(p: seq<byte>, q: seq<byte>, text: set<nat>) {
    |p| == |q| && forall i: nat :: i < |p| ==> q[i] == p[i] || (i in text && q[i] == Lower(p[i]))
  }

  ghost predicate AgreeFrom(p: seq<byte>, q: seq<byte>, off: nat) {
    |p| == |q| && forall i :: off <= i < |p| ==> p[i] == q[i]
  }

  lemma LoweredIsSameButCase(p: seq<byte>, q: seq<byte>, text: set<nat>)
    requires LoweredWithin(p, q, text)
    ensures SameButCase(p, q)
  {
  }

  lemma {:induction false} LowerLabelsWithin(p: seq<byte>, j: nat, end: nat)
    requires end <= |p|
    ensures LoweredWithin(p, LowerLabels(p, j, end), LabelText(p, j, end))
    ensures forall i: nat :: i in LabelText(p, j, end) ==> j < i < end
    ensures AgreeFrom(p, LowerLabels(p, j, end), end)
    ensures AgreeTo(p, LowerLabels(p, j, end), j)
    decreases end - j
  {
    if j < end && 0 < p[j] < 64 {
      var next: nat := j + 1 + p[j];
      var q := LowerIn(p, j + 1, Capped(next, end));
      LowerLabelsWithin(q, next, end);
      LabelTextLocal(p, q, next, end);
    }
  }

  lemma {:induction false} LabelTextLocal(p: seq<byte>, q: seq<byte>, j: nat, end: nat)
    requires end <= |p| && AgreeFrom(p, q, Capped(j, end))
    ensures LabelText(p, j, end) == LabelText(q, j, end)
    decreases end - j
  {
    if j < end && 0 < p[j] < 64 {
      LabelTextLocal(p, q, j + 1 + p[j], end);
    }
  }

  lemma {:induction false} SkipLocal(p: seq<byte>, q: seq<byte>, off: nat)
    requires AgreeFrom(p, q, off)
    ensures SkipName(p, off) == SkipName(q, off)
    decreases |p| - off
  {
    if off < |p| && 0 < p[off] < 64 {
      SkipLocal(p, q, off + 1 + p[off]);
    }
  }

  lemma {:induction false} OwnerTextLocal(p: seq<byte>, q: seq<byte>, off: nat, n: nat)
    requires AgreeFrom(p, q, off)
    ensures OwnerText(p, off, n) == OwnerText(q, off, n)
    decreases n
  {
    SkipLocal(p, q, off);
    if n > 0 && SkipName(p, off).Some? {
      var end := SkipName(p, off).value;
      hide SkipName;
      LabelTextLocal(p, q, off, end);
      if Continues(p, end) {
        OwnerTextLocal(p, q, RecordEnd(p, end), n - 1);
      }
    }
  }

  lemma LoweredTwice(p: seq<byte>, q: seq<byte>, r: seq<byte>, a: set<nat>, b: set<nat>)
    requires LoweredWithin(p, q, a) && LoweredWithin(q, r, b)
    ensures LoweredWithin(p, r, a + b)
  {
  }

  ghost predicate AgreeTo(p: seq<byte>, q: seq<byte>, off: nat) {
    |p| == |q| && forall i: nat :: i <= off && i < |p| ==> p[i] == q[i]
  }

  lemma AgreeToTwice(p: seq<byte>, q: seq<byte>, r: seq<byte>, off: nat, far: nat)
    requires AgreeTo(p, q, off) && AgreeTo(q, r, far) && off <= far
    ensures AgreeTo(p, r, off)
  {
  }

  lemma ContinuesLocal(p: seq<byte>, q: seq<byte>, e: nat)
    requires AgreeFrom(p, q, e)
    ensures Continues(p, e) == Continues(q, e) && (Continues(p, e) ==> RecordEnd(p, e) == RecordEnd(q, e))
    ensures Continues(p, e) ==> AgreeFrom(p, q, RecordEnd(p, e))
  {
  }

  lemma ScrubUnfold(p: seq<byte>, off: nat, n: nat)
    requires n > 0
    ensures Decompress(p, off).None? ==> ScrubOwners(p, off, n) == p
    ensures Decompress(p, off).Some? ==>
              var end := NameEnd(p, off);
              var p1 := LowerLabels(p, off, end);
              ScrubOwners(p, off, n) == if Continues(p1, end) then ScrubOwners(p1, RecordEnd(p1, end), n - 1) else p1
  {
    hide Decompress, LowerLabels;
  }

  lemma OwnerTextUnfold(p: seq<byte>, off: nat, n: nat)
    requires n > 0 && SkipName(p, off).Some?
    ensures var end := SkipName(p, off).value;
            OwnerText(p, off, n) ==
            LabelText(p, off, end) + if Continues(p, end) then OwnerText(p, RecordEnd(p, end), n - 1) else {}
  {
    hide SkipName, LabelText;
  }

  lemma NothingLowered(p: seq<byte>, off: nat, text: set<nat>)
    ensures LoweredWithin(p, p, text) && AgreeTo(p, p, off)
  {
  }

  lemma WithinMore(p: seq<byte>, q: seq<byte>, a: set<nat>, b: set<nat>)
    requires LoweredWithin(p, q, a)
    ensures LoweredWithin(p, q, a + b)
  {
  }

  lemma NoneScrubbed(p: seq<byte>, off: nat)
    ensures ScrubOwners(p, off, 0) == p
  {
  }

  /** Whatever the packet, the scrub changes nothing but letters inside owner labels. */
  lemma {:induction false} ScrubStaysInOwnerLabels(p: seq<byte>, off: nat, n: nat)
    ensures LoweredWithin(p, ScrubOwners(p, off, n), OwnerText(p, off, n))
    ensures AgreeTo(p, ScrubOwners(p, off, n), off)
    decreases n
  {
    hide *;
    if n == 0 {
      NoneScrubbed(p, off);
      NothingLowered(p, off, OwnerText(p, off, n));
    } else {
      ScrubUnfold(p, off, n);
      if Decompress(p, off).None? {
        NothingLowered(p, off, OwnerText(p, off, n));
      } else {
        var end := NameEnd(p, off);
        var p1 := LowerLabels(p, off, end);
        LowerLabelsWithin(p, off, end);
        OwnerTextUnfold(p, off, n);
        ContinuesLocal(p, p1, end);
        WithinMore(p, p1, LabelText(p, off, end), {});
        if Continues(p1, end) {
          var next := RecordEnd(p1, end);
          ScrubStaysInOwnerLabels(p1, next, n - 1);
          OwnerTextLocal(p, p1, next, n - 1);
          LoweredTwice(p, p1, ScrubOwners(p, off, n), LabelText(p, off, end), OwnerText(p, next, n - 1));
          AgreeToTwice(p, p1, ScrubOwners(p, off, n), off, next);
        }
      }
    }
  }

  // ---------- Records

  datatype Rr = Rr(start: nat, fixed: nat, rrtype: nat, rrclass: nat, ttl: seq<byte>, rdata: seq<byte>)

  function RrAt(p: seq<byte>, start: nat, e: nat): Rr
    requires Continues(p, e)
  {
    Rr(start, e, Get16(p, e), Get16(p, e + 2), p[e + 4..e + 8], p[e + 10..RecordEnd(p, e)])
  }

  /** The records from off on, n at most, as far as they parse. */
  function Records(p: seq<byte>, off: nat, n: nat): seq<Rr>
    decreases n
  {
    if n == 0 || SkipName(p, off).None? then []
    else
      var e := SkipName(p, off).value;
      if !Continues(p, e) then [] else [RrAt(p, off, e)] + Records(p, RecordEnd(p, e), n - 1)
  }

  lemma RecordsUnfold(p: seq<byte>, off: nat, n: nat)
    requires n > 0
    ensures Records(p, off, n) ==
            if SkipName(p, off).None? || !Continues(p, SkipName(p, off).value) then []
            else
              var e := SkipName(p, off).value;
              [RrAt(p, off, e)] + Records(p, RecordEnd(p, e), n - 1)
  {
    hide SkipName, RrAt;
  }

  /** The same bytes in the fixed fields and the RDATA make the same record. */
  lemma RrLocal(p: seq<byte>, q: seq<byte>, start: nat, e: nat)
    requires AgreeFrom(p, q, e) || (Continues(p, e) && AgreeTo(p, q, RecordEnd(p, e)))
    ensures Continues(q, e) == Continues(p, e)
    ensures Continues(p, e) ==> RecordEnd(q, e) == RecordEnd(p, e) && RrAt(q, start, e) == RrAt(p, start, e)
  {
    if Continues(p, e) {
      assert p[e + 8] == q[e + 8] && p[e + 9] == q[e + 9];
      assert p[e + 4..e + 8] == q[e + 4..e + 8];
      assert p[e + 10..RecordEnd(p, e)] == q[e + 10..RecordEnd(p, e)];
    }
  }

  lemma {:induction false} SkipIgnoresCase(p: seq<byte>, q: seq<byte>, off: nat)
    requires SameButCase(p, q)
    ensures SkipName(p, off) == SkipName(q, off)
    decreases |p| - off
  {
    if off < |p| {
      ControlBytesAgree(p[off], q[off]);
      if 0 < p[off] < 64 {
        SkipIgnoresCase(p, q, off + 1 + p[off]);
      }
    }
  }

  lemma {:induction false} RecordsLocal(p: seq<byte>, q: seq<byte>, off: nat, n: nat)
    requires AgreeFrom(p, q, off)
    ensures Records(p, off, n) == Records(q, off, n)
    decreases n
  {
    if n == 0 {
      assert Records(p, off, n) == [] == Records(q, off, n);
    } else {
      hide *;
      SkipLocal(p, q, off);
      RecordsUnfold(p, off, n);
      RecordsUnfold(q, off, n);
      if SkipName(p, off).Some? {
        var e := SkipName(p, off).value;
        FromLater(p, q, off, e);
        RrLocal(p, q, off, e);
        if Continues(p, e) {
          FromLater(p, q, e, RecordEnd(p, e));
          RecordsLocal(p, q, RecordEnd(p, e), n - 1);
        }
      }
    }
  }

  lemma FromLater(p: seq<byte>, q: seq<byte>, off: nat, e: nat)
    requires AgreeFrom(p, q, off) && off <= e
    ensures AgreeFrom(p, q, e)
  {
  }

  /** Whatever the packet, every record keeps its place, type, class, TTL and RDATA. */
  lemma {:induction false} ScrubKeepsRecords(p: seq<byte>, off: nat, n: nat)
    ensures Records(ScrubOwners(p, off, n), off, n) == Records(p, off, n)
    decreases n
  {
    hide *;
    var q := ScrubOwners(p, off, n);
    if n == 0 {
      NoneScrubbed(p, off);
    } else {
      ScrubUnfold(p, off, n);
      if Decompress(p, off).Some? {
        var end := NameEnd(p, off);
        var p1 := LowerLabels(p, off, end);
        ScrubStaysInOwnerLabels(p, off, n);
        LoweredIsSameButCase(p, q, OwnerText(p, off, n));
        SkipIgnoresCase(p, q, off);
        LowerLabelsWithin(p, off, end);
        RecordsUnfold(p, off, n);
        RecordsUnfold(q, off, n);
        RrLocal(p, p1, off, end);
        if Continues(p1, end) {
          var next := RecordEnd(p1, end);
          ScrubStaysInOwnerLabels(p1, next, n - 1);
          RrLocal(p1, q, off, end);
          ScrubKeepsRecords(p1, next, n - 1);
          FromLater(p, p1, end, next);
          RecordsLocal(p, p1, next, n - 1);
        }
      }
    }
  }

  // ---------- Names

  /** Every pointer the name at at follows aims at the same offset in p and in q. */
  ghost predicate FollowsAlike(p: seq<byte>, q: seq<byte>, at: nat, jumps: nat)
    requires |p| == |q| && jumps <= MAX_JUMPS
    decreases MAX_JUMPS - jumps, |p| - at
  {
    if at >= |p| || p[at] == 0 || 64 <= p[at] < 192 then true
    else if p[at] < 64 then FollowsAlike(p, q, at + 1 + p[at], jumps)
    else
      at + 1 >= |p| ||
      (Target(q, at) == Target(p, at) &&
       (Target(p, at) >= at || jumps == MAX_JUMPS || FollowsAlike(p, q, Target(p, at), jumps + 1)))
  }

  lemma FollowsUnfold(p: seq<byte>, q: seq<byte>, at: nat, jumps: nat)
    requires |p| == |q| && jumps <= MAX_JUMPS && at < |p| && FollowsAlike(p, q, at, jumps)
    ensures 0 < p[at] < 64 ==> FollowsAlike(p, q, at + 1 + p[at], jumps)
    ensures p[at] >= 192 && at + 1 < |p| ==>
              Target(q, at) == Target(p, at) &&
              (Target(p, at) >= at || jumps == MAX_JUMPS || FollowsAlike(p, q, Target(p, at), jumps + 1))
  {
  }

  lemma SameAt(p: seq<byte>, q: seq<byte>, at: nat, a: seq<byte>, b: seq<byte>)
    requires SameButCase(p, q) && SameText(a, b) && at < |p|
    ensures |p| == |q| && |a| == |b|
    ensures p[at] < 64 || q[at] < 64 ==> p[at] == q[at]
    ensures p[at] >= 192 <==> q[at] >= 192
  {
    ControlBytesAgree(p[at], q[at]);
  }

  lemma {:induction false} ExpandIgnoresCase(p: seq<byte>, q: seq<byte>, at: nat, jumps: nat, end: Option<nat>,
                                             a: seq<byte>, b: seq<byte>)
    requires SameButCase(p, q) && jumps <= MAX_JUMPS && FollowsAlike(p, q, at, jumps) && SameText(a, b)
    ensures SameWalk(Expand(p, at, jumps, end, a), Expand(q, at, jumps, end, b))
    decreases MAX_JUMPS - jumps, |p| - at
  {
    if at < |p| {
      hide Expand, FollowsAlike, SameText, SameButCase, JoinLabel, Target;
      SameAt(p, q, at, a, b);
      ExpandUnfold(p, at, jumps, end, a);
      ExpandUnfold(q, at, jumps, end, b);
      FollowsUnfold(p, q, at, jumps);
      var l: int := p[at];
      if 0 < l < 64 {
        if at + 1 + l <= |p| {
          JoinSameText(a, b, p, q, at + 1, at + 1 + l);
          ExpandIgnoresCase(p, q, at + 1 + l, jumps, end,
                            JoinLabel(a, p[at + 1..at + 1 + l]), JoinLabel(b, q[at + 1..at + 1 + l]));
        }
      } else if l >= 192 && at + 1 < |p| && Target(p, at) < at && jumps < MAX_JUMPS {
        ExpandIgnoresCase(p, q, Target(p, at), jumps + 1, if end.Some? then end else Some(at + 2), a, b);
      }
    }
  }

  /** Packets equal up to case have the same name at at, if its pointers aim alike. */
  lemma NamesIgnoreCase(p: seq<byte>, q: seq<byte>, at: nat)
    requires SameButCase(p, q) && FollowsAlike(p, q, at, 0)
    ensures Decompress(q, at) == Decompress(p, at)
  {
    ExpandIgnoresCase(p, q, at, 0, None, [], []);
    hide Expand, Normalize, SameButCase, FollowsAlike;
    match Expand(p, at, 0, None, [])
    case None =>
    case Some((raw, end)) =>
      NormalizeSameText(raw, Expand(q, at, 0, None, []).value.0);
  }

  /** Wherever p has a byte pair that reads as a compression pointer, q has one with the
      same target. */
  ghost predicate SamePointers(p: seq<byte>, q: seq<byte>)
    requires |p| == |q|
  {
    forall i: nat :: i + 1 < |p| && p[i] >= 192 ==> Target(q, i) == Target(p, i)
  }

  lemma {:induction false} SamePointersFollowAlike(p: seq<byte>, q: seq<byte>, at: nat, jumps: nat)
    requires |p| == |q| && SamePointers(p, q) && jumps <= MAX_JUMPS
    ensures FollowsAlike(p, q, at, jumps)
    decreases MAX_JUMPS - jumps, |p| - at
  {
    if at < |p| {
      if 0 < p[at] < 64 {
        SamePointersFollowAlike(p, q, at + 1 + p[at], jumps);
      } else if p[at] >= 192 && at + 1 < |p| && Target(p, at) < at && jumps < MAX_JUMPS {
        SamePointersFollowAlike(p, q, Target(p, at), jumps + 1);
      }
    }
  }

  /** With the same pointers, every name of the packet survives. */
  lemma SamePointersSameNames(p: seq<byte>, q: seq<byte>, at: nat)
    requires SameButCase(p, q) && SamePointers(p, q)
    ensures Decompress(q, at) == Decompress(p, at)
  {
    SamePointersFollowAlike(p, q, at, 0);
    NamesIgnoreCase(p, q, at);
  }

  /** No compression pointer that the name at at follows lies inside the given positions. */
  ghost predicate PointersOutside(p: seq<byte>, text: set<nat>, at: nat, jumps: nat)
    requires jumps <= MAX_JUMPS
    decreases MAX_JUMPS - jumps, |p| - at
  {
    if at >= |p| || p[at] == 0 || 64 <= p[at] < 192 then true
    else if p[at] < 64 then PointersOutside(p, text, at + 1 + p[at], jumps)
    else
      at !in text &&
      (at + 1 >= |p| || Target(p, at) >= at || jumps == MAX_JUMPS || PointersOutside(p, text, Target(p, at), jumps + 1))
  }

  /** Text positions that only follow text or a length byte. */
  ghost predicate StartsBehindLength(p: seq<byte>, text: set<nat>) {
    forall i: nat :: i in text ==> 0 < i < |p| && (i - 1 in text || p[i - 1] < 64)
  }

  lemma {:induction false} OutsideFollowsAlike(p: seq<byte>, q: seq<byte>, text: set<nat>, at: nat, jumps: nat)
    requires LoweredWithin(p, q, text) && StartsBehindLength(p, text)
    requires jumps <= MAX_JUMPS && PointersOutside(p, text, at, jumps)
    ensures FollowsAlike(p, q, at, jumps)
    decreases MAX_JUMPS - jumps, |p| - at
  {
    if at < |p| {
      if 0 < p[at] < 64 {
        OutsideFollowsAlike(p, q, text, at + 1 + p[at], jumps);
      } else if p[at] >= 192 && at + 1 < |p| {
        assert at + 1 !in text;
        if Target(p, at) < at && jumps < MAX_JUMPS {
          OutsideFollowsAlike(p, q, text, Target(p, at), jumps + 1);
        }
      }
    }
  }

  /** Inside a label, or right behind the length byte of one. */
  lemma {:induction false} LabelTextStarts(p: seq<byte>, j: nat, end: nat)
    requires end <= |p|
    ensures StartsBehindLength(p, LabelText(p, j, end))
    decreases end - j
  {
    if j < end && 0 < p[j] < 64 {
      LabelTextStarts(p, j + 1 + p[j], end);
    }
  }

  lemma StartsJoin(p: seq<byte>, a: set<nat>, b: set<nat>)
    requires StartsBehindLength(p, a) && StartsBehindLength(p, b)
    ensures StartsBehindLength(p, a + b)
  {
  }

  lemma {:induction false} OwnerTextStarts(p: seq<byte>, off: nat, n: nat)
    ensures StartsBehindLength(p, OwnerText(p, off, n))
    decreases n
  {
    if n > 0 && SkipName(p, off).Some? {
      hide *;
      OwnerTextUnfold(p, off, n);
      var end := SkipName(p, off).value;
      LabelTextStarts(p, off, end);
      if Continues(p, end) {
        OwnerTextStarts(p, RecordEnd(p, end), n - 1);
        StartsJoin(p, LabelText(p, off, end), OwnerText(p, RecordEnd(p, end), n - 1));
      } else {
        assert LabelText(p, off, end) + {} == LabelText(p, off, end);
      }
    }
  }

  /** Where the pointers a name follows lie outside the owner labels, the scrubbed packet has
      the same name there. */
  lemma ScrubKeepsNames(p: seq<byte>, off: nat, n: nat, at: nat)
    requires PointersOutside(p, OwnerText(p, off, n), at, 0)
    ensures Decompress(ScrubOwners(p, off, n), at) == Decompress(p, at)
  {
    hide *;
    var q, text := ScrubOwners(p, off, n), OwnerText(p, off, n);
    ScrubStaysInOwnerLabels(p, off, n);
    OwnerTextStarts(p, off, n);
    LoweredIsSameButCase(p, q, text);
    OutsideFollowsAlike(p, q, text, at, 0);
    NamesIgnoreCase(p, q, at);
  }

  // ---------- Exactly when pointers survive

  /** The owner label positions the scrub reaches: it stops at the first owner that does not
      decompress, and behind the first record that runs over the end. */
  ghost function ReachedText(p: seq<byte>, off: nat, n: nat): set<nat>
    decreases n
  {
    if n == 0 || Decompress(p, off).None? then {}
    else
      var end := NameEnd(p, off);
      LabelText(p, off, end) + if !Continues(p, end) then {} else ReachedText(p, RecordEnd(p, end), n - 1)
  }

  /** No upper-case letter of the text stands behind a byte that could start a pointer. */
  ghost predicate Harmless(p: seq<byte>, text: set<nat>) {
    forall i: nat :: i in text && 0 < i < |p| && IsUpper(p[i]) ==> p[i - 1] < 192
  }

  ghost predicate LoweredExactly(p: seq<byte>, q: seq<byte>, text: set<nat>) {
    |p| == |q| && forall i: nat :: i < |p| ==> q[i] == if i in text then Lower(p[i]) else p[i]
  }

  lemma {:induction false} LowerLabelsExactly(p: seq<byte>, j: nat, end: nat)
    requires end <= |p|
    ensures LoweredExactly(p, LowerLabels(p, j, end), LabelText(p, j, end))
    decreases end - j
  {
    if j < end && 0 < p[j] < 64 {
      var next: nat := j + 1 + p[j];
      var q := LowerIn(p, j + 1, Capped(next, end));
      LowerLabelsExactly(q, next, end);
      LabelTextLocal(p, q, next, end);
      LowerLabelsWithin(q, next, end);
      hide LabelText, LowerLabels;
      assert LowerLabels(p, j, end) == LowerLabels(q, next, end) by {
        LowerLabelsUnfold(p, j, end);
      }
      LabelTextUnfold(p, j, end);
    }
  }

  lemma LabelTextUnfold(p: seq<byte>, j: nat, end: nat)
    requires end <= |p| && j < end && 0 < p[j] < 64
    ensures LabelText(p, j, end) == Span(j + 1, Capped(j + 1 + p[j], end)) + LabelText(p, j + 1 + p[j], end)
  {
  }

  /** Lowering exactly the text moves a pointer exactly where a letter stands behind one. */
  lemma LoweringMovesPointers(p: seq<byte>, q: seq<byte>, text: set<nat>)
    requires LoweredExactly(p, q, text)
    ensures SamePointers(p, q) <==> Harmless(p, text)
  {
    if Harmless(p, text) {
      forall i: nat | i + 1 < |p| && p[i] >= 192 ensures Target(q, i) == Target(p, i) {
        assert q[i] == p[i];
        assert (i + 1) - 1 == i;
      }
    }
    forall i: nat | i in text && 0 < i < |p| && IsUpper(p[i]) && p[i - 1] >= 192 ensures !SamePointers(p, q) {
      assert q[i] == p[i] + 32 && q[i - 1] == p[i - 1];
      assert Target(q, i - 1) != Target(p, i - 1);
    }
  }

  lemma ReachedUnfold(p: seq<byte>, off: nat, n: nat)
    requires n > 0 && Decompress(p, off).Some?
    ensures var end := NameEnd(p, off);
            ReachedText(p, off, n) ==
            LabelText(p, off, end) + if Continues(p, end) then ReachedText(p, RecordEnd(p, end), n - 1) else {}
  {
    hide Decompress, LabelText;
  }

  lemma NothingReached(p: seq<byte>, off: nat, n: nat)
    requires n == 0 || Decompress(p, off).None?
    ensures ScrubOwners(p, off, n) == p && SamePointers(p, p)
    ensures ReachedText(p, off, n) == {} && Harmless(p, {})
  {
    hide Decompress;
  }

  lemma {:induction false} ReachedFrom(p: seq<byte>, off: nat, n: nat)
    ensures forall i: nat :: i in ReachedText(p, off, n) ==> off < i < |p|
    decreases n
  {
    hide *;
    if n == 0 || Decompress(p, off).None? {
      NothingReached(p, off, n);
    } else {
      ReachedUnfold(p, off, n);
      var end := NameEnd(p, off);
      LowerLabelsWithin(p, off, end);
      if Continues(p, end) {
        ReachedFrom(p, RecordEnd(p, end), n - 1);
      }
    }
  }

  /** The reached text depends only on the bytes from off on and on the pointers. */
  lemma {:induction false} ReachedLocal(p: seq<byte>, q: seq<byte>, off: nat, n: nat)
    requires SameButCase(p, q) && SamePointers(p, q) && AgreeFrom(p, q, off)
    ensures ReachedText(p, off, n) == ReachedText(q, off, n)
    decreases n
  {
    hide *;
    SamePointersSameNames(p, q, off);
    if n == 0 || Decompress(p, off).None? {
      NothingReached(p, off, n);
      NothingReached(q, off, n);
    } else {
      ReachedUnfold(p, off, n);
      ReachedUnfold(q, off, n);
      NameEndIs(p, off);
      NameEndIs(q, off);
      var end := NameEnd(p, off);
      LabelTextLocal2(p, q, off, end);
      FromLater(p, q, off, end);
      ContinuesLocal(p, q, end);
      if Continues(p, end) {
        FromLater(p, q, end, RecordEnd(p, end));
        ReachedLocal(p, q, RecordEnd(p, end), n - 1);
      }
    }
  }

  lemma LabelTextLocal2(p: seq<byte>, q: seq<byte>, j: nat, end: nat)
    requires end <= |p| && AgreeFrom(p, q, j) && j <= end
    ensures LabelText(p, j, end) == LabelText(q, j, end)
  {
    LabelTextLocal(p, q, j, end);
  }

  lemma HarmlessLocal(p: seq<byte>, q: seq<byte>, off: nat, text: set<nat>)
    requires AgreeFrom(p, q, off) && forall i: nat :: i in text ==> off < i
    ensures Harmless(p, text) <==> Harmless(q, text)
  {
  }

  lemma HarmlessJoin(p: seq<byte>, a: set<nat>, b: set<nat>)
    ensures Harmless(p, a + b) <==> Harmless(p, a) && Harmless(p, b)
  {
  }

  lemma PointersCompose(p: seq<byte>, p1: seq<byte>, q: seq<byte>)
    requires |p| == |p1| == |q| && SamePointers(p, p1) && SameButCase(p, p1)
    ensures SamePointers(p1, q) <==> SamePointers(p, q)
  {
    forall i: nat | i + 1 < |p| ensures p[i] >= 192 <==> p1[i] >= 192 {
      ControlBytesAgree(p[i], p1[i]);
    }
    assert forall i: nat :: i + 1 < |p| && p[i] >= 192 ==> Target(p1, i) == Target(p, i);
  }

  /** A pointer once moved stays moved: later lowering does not touch it. */
  lemma MovedStaysMoved(p: seq<byte>, p1: seq<byte>, q: seq<byte>, text: set<nat>, far: nat)
    requires LoweredExactly(p, p1, text) && !Harmless(p, text) && AgreeTo(p1, q, far)
    requires forall i: nat :: i in text ==> i < far
    ensures !SamePointers(p, q)
  {
    var i: nat :| i in text && 0 < i < |p| && IsUpper(p[i]) && p[i - 1] >= 192;
    assert q[i] == p[i] + 32 && q[i - 1] == p[i - 1];
    assert Target(q, i - 1) != Target(p, i - 1);
  }

  /** One lowering step, then the rest: the pointers of p survive both if and only if
      neither step's text holds an upper-case letter behind a pointer's first byte. */
  lemma PointersAcross(p: seq<byte>, p1: seq<byte>, q: seq<byte>, text: set<nat>, rest: set<nat>, rest1: set<nat>,
                       next: nat)
    requires LoweredExactly(p, p1, text) && AgreeTo(p1, q, next) && AgreeFrom(p, p1, next)
    requires forall i: nat :: i in text ==> i < next
    requires forall i: nat :: i in rest ==> next < i
    requires SamePointers(p, p1) ==> rest1 == rest
    requires SamePointers(p1, q) <==> Harmless(p1, rest1)
    ensures SamePointers(p, q) <==> Harmless(p, text + rest)
  {
    LoweringMovesPointers(p, p1, text);
    HarmlessJoin(p, text, rest);
    ExactlyIsSameButCase(p, p1, text);
    hide *;
    if Harmless(p, text) {
      HarmlessLocal(p, p1, next, rest);
      PointersCompose(p, p1, q);
    } else {
      MovedStaysMoved(p, p1, q, text, next);
    }
  }

  lemma ExactlyIsSameButCase(p: seq<byte>, q: seq<byte>, text: set<nat>)
    requires LoweredExactly(p, q, text)
    ensures SameButCase(p, q)
  {
  }

  /** The owner scrub leaves every byte pair that reads as a pointer its target if and only
      if no owner label it reaches has an upper-case letter behind a byte of 192 or more. */
  lemma {:induction false} ScrubKeepsPointersExactly(p: seq<byte>, off: nat, n: nat)
    ensures SamePointers(p, ScrubOwners(p, off, n)) <==> Harmless(p, ReachedText(p, off, n))
    decreases n
  {
    hide *;
    var q := ScrubOwners(p, off, n);
    if n == 0 || Decompress(p, off).None? {
      NothingReached(p, off, n);
    } else {
      ScrubUnfold(p, off, n);
      ReachedUnfold(p, off, n);
      var end := NameEnd(p, off);
      var p1, text := LowerLabels(p, off, end), LabelText(p, off, end);
      LowerLabelsExactly(p, off, end);
      LowerLabelsWithin(p, off, end);
      ContinuesLocal(p, p1, end);
      if Continues(p, end) {
        var next := RecordEnd(p, end);
        ScrubStaysInOwnerLabels(p1, next, n - 1);
        ScrubKeepsPointersExactly(p1, next, n - 1);
        ReachedFrom(p, next, n - 1);
        if SamePointers(p, p1) {
          ExactlyIsSameButCase(p, p1, text);
          ReachedLocal(p, p1, next, n - 1);
        }
        PointersAcross(p, p1, q, text, ReachedText(p, next, n - 1), ReachedText(p1, next, n - 1), next);
      } else {
        LoweringMovesPointers(p, p1, text);
        assert text + {} == text;
      }
    }
  }

  lemma {:induction false} ReachedIsOwnerText(p: seq<byte>, off: nat, n: nat)
    ensures ReachedText(p, off, n) <= OwnerText(p, off, n)
    decreases n
  {
    if n > 0 && Decompress(p, off).Some? {
      hide *;
      ReachedUnfold(p, off, n);
      NameEndIs(p, off);
      DecompressAdvancesLikeSkip(p, off);
      OwnerTextUnfold(p, off, n);
      var end := NameEnd(p, off);
      if Continues(p, end) {
        ReachedIsOwnerText(p, RecordEnd(p, end), n - 1);
      }
    }
  }
}
