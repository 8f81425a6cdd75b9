/** Names on the wire and names as text: main/domain.c and the query builder of
    tools/dnsload/dnsload.c, which is the printer of the parser here. */
module Domain {
  import opened Bytes

  const NAME_CAP: nat := 256
  const WIRE_MAX: nat := 257

  // ---------- Normalization

  function StripDots(s: seq<byte>): (t: seq<byte>)
    ensures t <= s
  {
    if s != [] && s[|s| - 1] == DOT then StripDots(s[..|s| - 1]) else s
  }

  /** The normalized name, or the empty string where domain_normalize reports 0. */
  function Normalize(cap: nat, src: seq<byte>): seq<byte> {
    var t := StripDots(src);
    if cap < 2 || t == [] || |t| >= cap then [] else LowerAll(t)
  }

  /** domain_normalize: writes the name and its NUL into buf. */
  method DomainNormalize(buf: array<byte>, src: seq<byte>) returns (n: nat)
    modifies buf
    ensures n == |Normalize(buf.Length, src)|
    ensures n == 0 ==> buf[..] == old(buf[..])
    ensures n > 0 ==> n < buf.Length && buf[n] == 0 && buf[..n] == Normalize(buf.Length, src)
  {
    if buf.Length < 2 {
      return 0;
    }
    n := |src|;
    assert src[..n] == src;
    while n > 0 && src[n - 1] == DOT
      invariant n <= |src| && StripDots(src) == StripDots(src[..n])
    {
      assert src[..n][..n - 1] == src[..n - 1];
      n := n - 1;
    }
    if n == 0 || n >= buf.Length {
      return 0;
    }
    for i := 0 to n
      invariant forall j :: 0 <= j < i ==> buf[j] == Lower(src[j])
    {
      buf[i] := Lower(src[i]);
    }
    buf[n] := 0;
  }

  /** Normalizing a normalized name changes nothing. */
  lemma NormalizeIsIdempotent(src: seq<byte>)
    ensures Normalize(NAME_CAP, Normalize(NAME_CAP, src)) == Normalize(NAME_CAP, src)
  {
    var t := StripDots(src);
    StripDotsEnds(src);
    if t != [] && |t| < NAME_CAP {
      assert StripDots(LowerAll(t)) == LowerAll(t);
      assert LowerAll(LowerAll(t)) == LowerAll(t);
    }
  }

  lemma {:induction false} StripDotsEnds(s: seq<byte>)
    ensures StripDots(s) != [] ==> StripDots(s)[|StripDots(s)| - 1] != DOT
  {
    if s != [] && s[|s| - 1] == DOT {
      StripDotsEnds(s[..|s| - 1]);
    }
  }

  predicate IsBareTld(name: seq<byte>) {
    DOT !in name
  }

  // ---------- The question name

  /** raw with a label appended, dotted unless raw is still empty. */
  function JoinLabel(raw: seq<byte>, lab: seq<byte>): seq<byte> {
    (if raw == [] then [] else raw + [DOT]) + lab
  }

  /** The label walk both question-name parsers share: the dotted text and the
      offset of the root byte, or None where the packet is malformed. */
  function WalkLabels(pkt: seq<byte>, off: nat, raw: seq<byte>): (r: Option<(seq<byte>, nat)>)
    ensures r.Some? ==> off <= r.value.1 < |pkt| && pkt[r.value.1] == 0
    decreases |pkt| - off
  {
    if off >= |pkt| then None
    else
      var l: int := pkt[off];
      if l == 0 then Some((raw, off))
      else if l >= 64 || off + 1 + l > |pkt| || |raw| + l + 1 >= NAME_CAP then None
      else WalkLabels(pkt, off + 1 + l, JoinLabel(raw, pkt[off + 1..off + 1 + l]))
  }

  lemma WalkAt(pkt: seq<byte>, at: nat, raw: seq<byte>)
    requires at < |pkt|
    ensures pkt[at] == 0 ==> WalkLabels(pkt, at, raw) == Some((raw, at))
    ensures 0 < pkt[at] < 64 && at + 1 + pkt[at] <= |pkt| && |raw| + pkt[at] + 1 < NAME_CAP ==>
              WalkLabels(pkt, at, raw) ==
              WalkLabels(pkt, at + 1 + pkt[at], JoinLabel(raw, pkt[at + 1..at + 1 + pkt[at]]))
  {
    hide JoinLabel;
  }

  /** The normalized question name and the offset past QTYPE and QCLASS. */
  function Question(pkt: seq<byte>, off: nat): (r: Option<(seq<byte>, nat)>)
    ensures r.Some? ==> off + 5 <= r.value.1 <= |pkt| && r.value.0 != []
  {
    match WalkLabels(pkt, off, [])
    case None => None
    case Some((raw, root)) =>
      if root + 5 > |pkt| then None
      else
        var name := Normalize(NAME_CAP, raw);
        if name == [] then None else Some((name, root + 5))
  }

  /** What the walk has established on reaching offset at with text raw. */
  ghost predicate WalkedTo(pkt: seq<byte>, off: nat, at: nat, raw: seq<byte>) {
    WalkLabels(pkt, off, []) == WalkLabels(pkt, at, raw)
  }

  lemma WalkStep(pkt: seq<byte>, off: nat, at: nat, raw: seq<byte>)
    requires WalkedTo(pkt, off, at, raw) && at < |pkt| && 0 < pkt[at] < 64
    requires at + 1 + pkt[at] <= |pkt| && |raw| + pkt[at] + 1 < NAME_CAP
    ensures WalkedTo(pkt, off, at + 1 + pkt[at], JoinLabel(raw, pkt[at + 1..at + 1 + pkt[at]]))
  {
  }

  /** Appends the l label bytes at pkt[at..] to the text buffer raw. */
  method AppendLabel(raw: array<byte>, rawLen: nat, pkt: array<byte>, at: nat, l: nat) returns (n: nat)
    requires raw != pkt && at + l <= pkt.Length && rawLen + l + 1 < raw.Length
    modifies raw
    ensures n < raw.Length && raw[..n] == JoinLabel(old(raw[..rawLen]), pkt[at..at + l])
  {
    ghost var before := raw[..rawLen];
    n := rawLen;
    if n > 0 {
      raw[n] := DOT;
      n := n + 1;
    }
    assert raw[..n] == if before == [] then [] else before + [DOT];
    forall i | 0 <= i < l {
      raw[n + i] := pkt[at + i];
    }
    n := n + l;
  }

  /** dns_extract_qname, with its 256-byte stack buffer. end is -1 on malformed input. */
  method ExtractQname(pkt: array<byte>, len: nat, offset: nat) returns (end: int, name: seq<byte>)
    requires len <= pkt.Length
    ensures end < 0 <==> Question(pkt[..len], offset).None?
    ensures end >= 0 ==> Question(pkt[..len], offset) == Some((name, end))
  {
    ghost var p := pkt[..len];
    var raw := new byte[256];
    var rawLen: nat, at: nat := 0, offset;
    name := [];
    assert raw[..0] == [];
    while at < len && pkt[at] != 0
      invariant rawLen < 256 && pkt[..len] == p && WalkedTo(p, offset, at, raw[..rawLen])
      decreases len - at
    {
      var l: int := pkt[at];
      if l >= 64 {
        return -1, [];
      }
      if at + 1 + l > len || rawLen + l + 1 >= 256 {
        return -1, [];
      }
      WalkStep(p, offset, at, raw[..rawLen]);
      SliceOfSlice(pkt[..], 0, len, at + 1, at + 1 + l);
      assert pkt[at + 1..at + 1 + l] == p[at + 1..at + 1 + l];
      hide WalkLabels, WalkedTo, JoinLabel;
      rawLen := AppendLabel(raw, rawLen, pkt, at + 1, l);
      at := at + 1 + l;
    }
    if at >= len {
      return -1, [];
    }
    if at + 5 > len {
      return -1, [];
    }
    var out := new byte[256];
    var nlen := DomainNormalize(out, raw[..rawLen]);
    if nlen == 0 {
      return -1, [];
    }
    return at + 5, out[..nlen];
  }

  /** dns_qname_wire_len: the same walk, measuring instead of copying. */
  method QnameWireLen(pkt: array<byte>, len: nat, offset: nat) returns (n: int)
    requires len <= pkt.Length
    ensures n == WireLen(pkt[..len], offset)
  {
    ghost var p := pkt[..len];
    ghost var raw := [];
    var rawLen: nat, at: nat := 0, offset;
    while at < len && pkt[at] != 0
      invariant rawLen == |raw| && WalkedTo(p, offset, at, raw)
      decreases len - at
    {
      var l: int := pkt[at];
      if l >= 64 {
        return -1;
      }
      if at + 1 + l > len || rawLen + l + 1 >= 256 {
        return -1;
      }
      WalkStep(p, offset, at, raw);
      raw := JoinLabel(raw, p[at + 1..at + 1 + l]);
      if rawLen > 0 {
        rawLen := rawLen + 1;
      }
      rawLen := rawLen + l;
      at := at + 1 + l;
    }
    if at >= len || rawLen == 0 {
      return -1;
    }
    return at + 1 - offset;
  }

  /** The wire length of the name at off, or -1. */
  function WireLen(pkt: seq<byte>, off: nat): int {
    match WalkLabels(pkt, off, [])
    case None => -1
    case Some((raw, root)) => if raw == [] then -1 else root + 1 - off
  }

  /** The text is one byte shorter per label joined than the wire form. */
  lemma {:induction false} WalkLabelsLength(pkt: seq<byte>, off: nat, raw: seq<byte>)
    requires WalkLabels(pkt, off, raw).Some? && |raw| < NAME_CAP
    ensures var (text, root) := WalkLabels(pkt, off, raw).value;
            |text| < NAME_CAP &&
            root - off == if raw == [] && text != [] then |text| + 1 else |text| - |raw|
    decreases |pkt| - off
  {
    var l: int := pkt[off];
    if l != 0 {
      WalkLabelsLength(pkt, off + 1 + l, JoinLabel(raw, pkt[off + 1..off + 1 + l]));
    }
  }

  /** On every name the extractor accepts, the two walks agree on where it ends, and
      no accepted name is longer than 257 bytes on the wire. */
  lemma WireLenAgreesWithQuestion(pkt: seq<byte>, off: nat)
    ensures Question(pkt, off).Some? ==> WireLen(pkt, off) == Question(pkt, off).value.1 - off - 4
    ensures WireLen(pkt, off) <= WIRE_MAX
  {
    if WalkLabels(pkt, off, []).Some? {
      WalkLabelsLength(pkt, off, []);
      assert StripDots([]) == [];
    }
  }

  /** dns_qname_wire_eq. */
  predicate WireEq(a: seq<byte>, b: seq<byte>) {
    |a| == |b| && LowerAll(a) == LowerAll(b)
  }

  method QnameWireEq(a: seq<byte>, b: seq<byte>, n: nat) returns (eq: bool)
    requires n <= |a| && n <= |b|
    ensures eq <==> WireEq(a[..n], b[..n])
  {
    for i := 0 to n
      invariant forall j :: 0 <= j < i ==> Lower(a[j]) == Lower(b[j])
    {
      if Lower(a[i]) != Lower(b[i]) {
        assert LowerAll(a[..n])[i] != LowerAll(b[..n])[i];
        return false;
      }
    }
    return true;
  }
}
