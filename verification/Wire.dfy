/** The name walkers of main/dns_wire.c, against each other and against the
    question parser; and the query printer against the question parser. */
module Wire {
  import opened Bytes
  import opened Domain

  const MAX_JUMPS: nat := 20

  // ---------- Skipping and decompressing

  /** The offset past the name at off, without following a pointer. */
  function SkipName(pkt: seq<byte>, off: nat): (r: Option<nat>)
    ensures r.Some? ==> off < r.value <= |pkt|
    decreases |pkt| - off
  {
    if off >= |pkt| then None
    else
      var b: int := pkt[off];
      if b == 0 then Some(off + 1)
      else if b >= 192 then if off + 1 >= |pkt| then None else Some(off + 2)
      else if b >= 64 then None
      else SkipName(pkt, off + 1 + b)
  }

  /** dns_skip_name. */
  method DnsSkipName(pkt: array<byte>, len: nat, off: nat) returns (ok: bool, end: nat)
    requires len <= pkt.Length
    ensures ok <==> SkipName(pkt[..len], off).Some?
    ensures ok ==> SkipName(pkt[..len], off) == Some(end)
  {
    end := off;
    while end < len
      invariant SkipName(pkt[..len], off) == SkipName(pkt[..len], end)
      decreases len - end
    {
      var b: int := pkt[end];
      if b == 0 {
        return true, end + 1;
      }
      if b >= 192 {
        if end + 1 >= len {
          return false, end;
        }
        return true, end + 2;
      }
      if b >= 64 {
        return false, end;
      }
      end := end + 1 + b;
    }
    return false, end;
  }

  /** Where a compression pointer at off aims. */
  function Target(pkt: seq<byte>, off: nat): nat
    requires off + 1 < |pkt|
  {
    (pkt[off] as int) % 64 * 256 + pkt[off + 1]
  }

  /** The decompressing walk: the dotted text, and the offset past the name where it
      started. end is that offset once a pointer has been followed. A pointer must aim
      strictly backward, and at most twenty are followed: that is what makes the walk
      finite on every packet, cyclic pointers included. */
  function Expand(pkt: seq<byte>, at: nat, jumps: nat, end: Option<nat>, raw: seq<byte>)
    : Option<(seq<byte>, nat)>
    requires jumps <= MAX_JUMPS
    decreases MAX_JUMPS - jumps, |pkt| - at
  {
    if at >= |pkt| then None
    else
      var b: int := pkt[at];
      if b == 0 then Some((raw, if end.Some? then end.value else at + 1))
      else if b >= 192 then
        if at + 1 >= |pkt| || Target(pkt, at) >= at || jumps + 1 > MAX_JUMPS then None
        else Expand(pkt, Target(pkt, at), jumps + 1, if end.Some? then end else Some(at + 2), raw)
      else if b >= 64 || at + 1 + b > |pkt| || |raw| + b + 1 >= NAME_CAP then None
      else Expand(pkt, at + 1 + b, jumps, end, JoinLabel(raw, pkt[at + 1..at + 1 + b]))
  }

  /** The name at off and the offset past it. */
  function Decompress(pkt: seq<byte>, off: nat): Option<(seq<byte>, nat)> {
    match Expand(pkt, off, 0, None, [])
    case None => None
    case Some((raw, end)) =>
      var name := Normalize(NAME_CAP, raw);
      if name == [] then None else Some((name, end))
  }

  /** What the walk has established on reaching at. */
  ghost predicate ExpandedTo(pkt: seq<byte>, off: nat, at: nat, jumps: nat, advanced: bool, end: nat, raw: seq<byte>) {
    jumps <= MAX_JUMPS &&
    Expand(pkt, off, 0, None, []) == Expand(pkt, at, jumps, if advanced then Some(end) else None, raw)
  }

  lemma ExpandUnfold(pkt: seq<byte>, at: nat, jumps: nat, end: Option<nat>, raw: seq<byte>)
    requires jumps <= MAX_JUMPS && at < |pkt|
    ensures var b: int := pkt[at];
            Expand(pkt, at, jumps, end, raw) ==
            if b == 0 then Some((raw, if end.Some? then end.value else at + 1))
            else if b >= 192 then
              if at + 1 >= |pkt| || Target(pkt, at) >= at || jumps == MAX_JUMPS then None
              else Expand(pkt, Target(pkt, at), jumps + 1, if end.Some? then end else Some(at + 2), raw)
            else if b >= 64 || at + 1 + b > |pkt| || |raw| + b + 1 >= NAME_CAP then None
            else Expand(pkt, at + 1 + b, jumps, end, JoinLabel(raw, pkt[at + 1..at + 1 + b]))
  {
    hide JoinLabel;
  }

  lemma ExpandLabel(pkt: seq<byte>, off: nat, at: nat, jumps: nat, advanced: bool, end: nat, raw: seq<byte>)
    requires ExpandedTo(pkt, off, at, jumps, advanced, end, raw) && at < |pkt| && 0 < pkt[at] < 64
    requires at + 1 + pkt[at] <= |pkt| && |raw| + pkt[at] + 1 < NAME_CAP
    ensures ExpandedTo(pkt, off, at + 1 + pkt[at], jumps, advanced, end,
                       JoinLabel(raw, pkt[at + 1..at + 1 + pkt[at]]))
  {
    hide JoinLabel, Expand;
    ExpandUnfold(pkt, at, jumps, if advanced then Some(end) else None, raw);
  }

  lemma ExpandJump(pkt: seq<byte>, off: nat, at: nat, jumps: nat, advanced: bool, end: nat, raw: seq<byte>)
    requires ExpandedTo(pkt, off, at, jumps, advanced, end, raw) && at + 1 < |pkt| && pkt[at] >= 192
    requires Target(pkt, at) < at && jumps < MAX_JUMPS
    ensures ExpandedTo(pkt, off, Target(pkt, at), jumps + 1, true, if advanced then end else at + 2, raw)
  {
    hide Expand;
    ExpandUnfold(pkt, at, jumps, if advanced then Some(end) else None, raw);
  }

  /** The walk cannot go on from at. */
  predicate Stuck(pkt: seq<byte>, at: nat, jumps: nat, rawLen: nat) {
    at >= |pkt| ||
    (pkt[at] >= 192 && (at + 1 >= |pkt| || Target(pkt, at) >= at || jumps >= MAX_JUMPS)) ||
    64 <= pkt[at] < 192 ||
    (0 < pkt[at] < 64 && (at + 1 + pkt[at] > |pkt| || rawLen + pkt[at] + 1 >= NAME_CAP))
  }

  lemma ExpandFails(pkt: seq<byte>, off: nat, at: nat, jumps: nat, advanced: bool, end: nat, raw: seq<byte>)
    requires ExpandedTo(pkt, off, at, jumps, advanced, end, raw) && Stuck(pkt, at, jumps, |raw|)
    ensures Decompress(pkt, off).None?
  {
    if at < |pkt| {
      ExpandUnfold(pkt, at, jumps, if advanced then Some(end) else None, raw);
      hide Expand;
    }
  }

  lemma ExpandDone(pkt: seq<byte>, off: nat, at: nat, jumps: nat, advanced: bool, end: nat, raw: seq<byte>)
    requires ExpandedTo(pkt, off, at, jumps, advanced, end, raw) && at < |pkt| && pkt[at] == 0
    ensures Decompress(pkt, off) ==
            if Normalize(NAME_CAP, raw) == [] then None
            else Some((Normalize(NAME_CAP, raw), if advanced then end else at + 1))
  {
    hide Expand, Normalize;
    ExpandUnfold(pkt, at, jumps, if advanced then Some(end) else None, raw);
  }

  lemma ExpandStart(pkt: seq<byte>, off: nat, end: nat)
    ensures ExpandedTo(pkt, off, off, 0, false, end, [])
  {
  }

  /** dns_decompress_name. */
  method DnsDecompressName(pkt: array<byte>, len: nat, off: nat) returns (ok: bool, end: nat, name: seq<byte>)
    requires len <= pkt.Length
    ensures ok <==> Decompress(pkt[..len], off).Some?
    ensures ok ==> Decompress(pkt[..len], off) == Some((name, end))
  {
    hide Expand, ExpandedTo, Decompress, Normalize, JoinLabel;
    ghost var p := pkt[..len];
    var raw := new byte[256];
    var rl: nat, at: nat, jumps: nat, advanced := 0, off, 0, false;
    end, name := off, [];
    assert raw[..0] == [];
    ExpandStart(p, off, end);
    while at < len
      invariant jumps <= MAX_JUMPS && rl < 256 && pkt[..len] == p
      invariant ExpandedTo(p, off, at, jumps, advanced, end, raw[..rl])
      decreases MAX_JUMPS - jumps, len - at
    {
      var b: int := pkt[at];
      if b == 0 {
        ExpandDone(p, off, at, jumps, advanced, end, raw[..rl]);
        if !advanced {
          end := at + 1;
        }
        var out := new byte[256];
        var nl := DomainNormalize(out, raw[..rl]);
        if nl == 0 {
          return false, end, [];
        }
        return true, end, out[..nl];
      }
      if Stuck(p, at, jumps, rl) {
        ExpandFails(p, off, at, jumps, advanced, end, raw[..rl]);
      }
      if b >= 192 {
        if at + 1 >= len {
          return false, end, [];
        }
        ghost var had, was := advanced, end;
        if !advanced {
          end, advanced := at + 2, true;
        }
        var target := b % 64 * 256 + pkt[at + 1];
        if target >= at {
          return false, end, [];
        }
        jumps := jumps + 1;
        if jumps > 20 {
          return false, end, [];
        }
        ExpandJump(p, off, at, jumps - 1, had, was, raw[..rl]);
        at := target;
        continue;
      }
      if b >= 64 {
        return false, end, [];
      }
      if at + 1 + b > len {
        return false, end, [];
      }
      if rl + b + 1 >= 256 {
        return false, end, [];
      }
      ExpandLabel(p, off, at, jumps, advanced, end, raw[..rl]);
      SliceOfSlice(pkt[..], 0, len, at + 1, at + 1 + b);
      assert pkt[at + 1..at + 1 + b] == p[at + 1..at + 1 + b];
      rl := AppendLabel(raw, rl, pkt, at + 1, b);
      at := at + 1 + b;
    }
    ExpandFails(p, off, at, jumps, advanced, end, raw[..rl]);
    return false, end, [];
  }

  // ---------- The walkers agree

  lemma {:induction false} ExpandKeepsEnd(pkt: seq<byte>, at: nat, jumps: nat, end: nat, raw: seq<byte>)
    requires jumps <= MAX_JUMPS && Expand(pkt, at, jumps, Some(end), raw).Some?
    ensures Expand(pkt, at, jumps, Some(end), raw).value.1 == end
    decreases MAX_JUMPS - jumps, |pkt| - at
  {
    var b: int := pkt[at];
    if b >= 192 {
      ExpandKeepsEnd(pkt, Target(pkt, at), jumps + 1, end, raw);
    } else if b > 0 {
      ExpandKeepsEnd(pkt, at + 1 + b, jumps, end, JoinLabel(raw, pkt[at + 1..at + 1 + b]));
    }
  }

  lemma {:induction false} ExpandEndsLikeSkip(pkt: seq<byte>, at: nat, raw: seq<byte>)
    requires Expand(pkt, at, 0, None, raw).Some?
    ensures SkipName(pkt, at) == Some(Expand(pkt, at, 0, None, raw).value.1)
    decreases |pkt| - at
  {
    var b: int := pkt[at];
    if b >= 192 {
      ExpandKeepsEnd(pkt, Target(pkt, at), 1, at + 2, raw);
    } else if b > 0 {
      ExpandEndsLikeSkip(pkt, at + 1 + b, JoinLabel(raw, pkt[at + 1..at + 1 + b]));
    }
  }

  /** Whatever pointers are followed inside, a successful decompression leaves the
      caller where skipping the name would, inside the packet. */
  lemma DecompressAdvancesLikeSkip(pkt: seq<byte>, off: nat)
    requires Decompress(pkt, off).Some?
    ensures SkipName(pkt, off) == Some(Decompress(pkt, off).value.1)
    ensures off < Decompress(pkt, off).value.1 <= |pkt|
  {
    ExpandEndsLikeSkip(pkt, off, []);
  }

  /** The labels at off run to the root byte without a pointer. */
  predicate IsPlain(pkt: seq<byte>, off: nat)
    decreases |pkt| - off
  {
    off < |pkt| && pkt[off] < 64 && (pkt[off] == 0 || IsPlain(pkt, off + 1 + pkt[off]))
  }

  lemma {:induction false} PlainWalksAgree(pkt: seq<byte>, at: nat, raw: seq<byte>)
    ensures IsPlain(pkt, at) ==>
              match WalkLabels(pkt, at, raw)
              case None => Expand(pkt, at, 0, None, raw) == None
              case Some((text, root)) => Expand(pkt, at, 0, None, raw) == Some((text, root + 1))
    ensures !IsPlain(pkt, at) ==> WalkLabels(pkt, at, raw) == None
    decreases |pkt| - at
  {
    if at < |pkt| && 0 < pkt[at] < 64 && at + 1 + pkt[at] <= |pkt| && |raw| + pkt[at] + 1 < NAME_CAP {
      PlainWalksAgree(pkt, at + 1 + pkt[at], JoinLabel(raw, pkt[at + 1..at + 1 + pkt[at]]));
    }
  }

  /** The question parser is the decompressor restricted to names without a pointer
      that leave room for QTYPE and QCLASS: same acceptance, same name, same offset. */
  lemma QuestionIsPlainDecompress(pkt: seq<byte>, off: nat)
    ensures Question(pkt, off) ==
            if IsPlain(pkt, off) && Decompress(pkt, off).Some? && Decompress(pkt, off).value.1 + 4 <= |pkt|
            then Some((Decompress(pkt, off).value.0, Decompress(pkt, off).value.1 + 4))
            else None
  {
    PlainWalksAgree(pkt, off, []);
  }

  // ---------- The query printer

  function FirstDot(s: seq<byte>): (n: nat)
    ensures n <= |s|
  {
    if s == [] || s[0] == DOT then 0 else FirstDot(s[1..]) + 1
  }

  lemma {:induction false} FirstDotFinds(s: seq<byte>)
    ensures DOT !in s[..FirstDot(s)] && (FirstDot(s) < |s| ==> s[FirstDot(s)] == DOT)
  {
    if s != [] && s[0] != DOT {
      FirstDotFinds(s[1..]);
      assert s[..FirstDot(s)] == [s[0]] + s[1..][..FirstDot(s) - 1];
    }
  }

  /** The wire form of a dotted name, or None where the encoder refuses it. */
  function Encode(s: seq<byte>): (r: Option<seq<byte>>)
    ensures r.Some? ==> 0 < |r.value| <= |s| + 2
  {
    if s == [] then Some([0])
    else
      var n := FirstDot(s);
      if n == 0 || n > 63 then None
      else if n == |s| then Some([n] + s + [0])
      else
        match Encode(s[n + 1..])
        case None => None
        case Some(rest) => Some([n] + s[..n] + rest)
  }

  function Prepend(a: seq<byte>, r: Option<seq<byte>>): Option<seq<byte>> {
    match r
    case None => None
    case Some(b) => Some(a + b)
  }

  /** Having written sofar, the rest of the encoding is that of name[p..]. */
  ghost predicate EncodedTo(name: seq<byte>, p: nat, sofar: seq<byte>) {
    p <= |name| && Encode(name) == Prepend(sofar, Encode(name[p..]))
  }

  /** What follows the first label and its dot. */
  function AfterLabel(s: seq<byte>): seq<byte> {
    var n := FirstDot(s);
    if n == |s| then [] else s[n + 1..]
  }

  lemma EncodeUnfold(s: seq<byte>)
    requires s != []
    ensures var n := FirstDot(s);
            if n == 0 || n > 63 then Encode(s) == None
            else Encode(s) == Prepend([n] + s[..n], Encode(AfterLabel(s)))
  {
    var n := FirstDot(s);
    if n == |s| && 0 < n <= 63 {
      assert s[..n] == s;
      assert Encode([]) == Some([0]);
    }
  }

  lemma PrependTwice(a: seq<byte>, b: seq<byte>, r: Option<seq<byte>>)
    ensures Prepend(a, Prepend(b, r)) == Prepend(a + b, r)
  {
    if r.Some? {
      assert a + (b + r.value) == (a + b) + r.value;
    }
  }

  lemma EncodeStep(name: seq<byte>, p: nat, sofar: seq<byte>)
    requires EncodedTo(name, p, sofar) && p < |name|
    ensures var l := FirstDot(name[p..]);
            if l == 0 || l > 63 then Encode(name) == None
            else
              EncodedTo(name, if p + l == |name| then |name| else p + l + 1, sofar + ([l] + name[p..p + l]))
  {
    hide *;
    EncodeUnfold(name[p..]);
    AfterLabelAt(name, p);
    EncodedMore(name, p, sofar);
  }

  lemma AfterLabelAt(name: seq<byte>, p: nat)
    requires p < |name|
    ensures var l := FirstDot(name[p..]);
            p + l <= |name| && name[p..][..l] == name[p..p + l] &&
            AfterLabel(name[p..]) == name[if p + l == |name| then |name| else p + l + 1..]
  {
    hide FirstDot;
  }

  lemma EncodedMore(name: seq<byte>, p: nat, sofar: seq<byte>)
    requires EncodedTo(name, p, sofar)
    ensures Encode(name[p..]) == None ==> Encode(name) == None
    ensures forall q, more :: 0 <= q <= |name| && Encode(name[p..]) == Prepend(more, Encode(name[q..]))
                              ==> EncodedTo(name, q, sofar + more)
  {
    hide Encode;
    forall q: nat, more | q <= |name| && Encode(name[p..]) == Prepend(more, Encode(name[q..]))
      ensures EncodedTo(name, q, sofar + more)
    {
      hide Prepend;
      PrependTwice(sofar, more, Encode(name[q..]));
    }
  }

  lemma EncodedNothing(name: seq<byte>)
    ensures EncodedTo(name, 0, [])
  {
    assert name[0..] == name;
    if Encode(name).Some? {
      assert [] + Encode(name).value == Encode(name).value;
    }
  }

  lemma EncodedAll(name: seq<byte>, sofar: seq<byte>)
    requires EncodedTo(name, |name|, sofar)
    ensures Encode(name) == Some(sofar + [0])
  {
    assert name[|name|..] == [];
  }

  method PutLabel(out: array<byte>, at: nat, lab: seq<byte>)
    requires |lab| < 256 && at + 1 + |lab| <= out.Length
    modifies out
    ensures out[..at] == old(out[..at]) && out[at..at + 1 + |lab|] == [|lab|] + lab
  {
    out[at] := |lab|;
    forall i | 0 <= i < |lab| {
      out[at + 1 + i] := lab[i];
    }
  }

  /** encode_name: a C string, so no zero byte inside. n is -1 on a label that is
      empty or longer than 63. */
  method EncodeName(out: array<byte>, base: nat, name: seq<byte>) returns (n: int)
    requires 0 !in name && base + |name| + 2 <= out.Length
    modifies out
    ensures n < 0 <==> Encode(name).None?
    ensures n >= 0 ==> base + n <= out.Length && Encode(name) == Some(out[base..base + n])
    ensures out[..base] == old(out[..base])
  {
    hide Encode, EncodedTo, FirstDot;
    var o: nat, p: nat := 0, 0;
    EncodedNothing(name);
    assert out[base..base + 0] == [];
    while p < |name|
      invariant p <= |name| && o <= p + 1 && (p < |name| ==> o <= p)
      invariant out[..base] == old(out[..base])
      invariant EncodedTo(name, p, out[base..base + o])
    {
      var l := FirstDot(name[p..]);
      ghost var sofar := out[base..base + o];
      EncodeStep(name, p, sofar);
      if l <= 0 || l > 63 {
        return -1;
      }
      ghost var before := out[..base + o];
      PutLabel(out, base + o, name[p..p + l]);
      assert out[..base + o] == before;
      assert out[base..base + (o + 1 + l)] == sofar + ([l] + name[p..p + l]);
      o := o + 1 + l;
      p := if p + l == |name| then |name| else p + l + 1;
    }
    ghost var sofar := out[base..base + o];
    EncodedAll(name, sofar);
    out[base + o] := 0;
    assert out[base..base + (o + 1)] == sofar + [0];
    return o + 1;
  }

  /** build_query: header with RD and one question, the name, type A, class IN. */
  method BuildQuery(buf: array<byte>, txid: nat, name: seq<byte>) returns (n: int)
    requires txid < 0x1_0000 && 0 !in name && 12 + |name| + 6 <= buf.Length
    modifies buf
    ensures n < 0 <==> QueryBytes(txid, name).None?
    ensures n >= 0 ==> n <= buf.Length && QueryBytes(txid, name) == Some(buf[..n])
  {
    hide Encode;
    forall i | 0 <= i < 12 {
      buf[i] := 0;
    }
    buf[0], buf[1] := txid / 256, txid % 256;
    buf[2], buf[5] := 1, 1;
    ghost var header := buf[..12];
    assert header == QueryHeader(txid);
    n := EncodeName(buf, 12, name);
    if n < 0 {
      return -1;
    }
    ghost var enc := buf[12..12 + n];
    var o := 12 + n;
    buf[o], buf[o + 1], buf[o + 2], buf[o + 3] := 0, 1, 0, 1;
    assert buf[..o + 4] == header + enc + [0, 1, 0, 1];
    return o + 4;
  }

  function QueryHeader(txid: nat): (h: seq<byte>)
    requires txid < 0x1_0000
    ensures |h| == 12
  {
    [txid / 256, txid % 256, 1, 0, 0, 1, 0, 0, 0, 0, 0, 0]
  }

  function QueryBytes(txid: nat, name: seq<byte>): Option<seq<byte>>
    requires txid < 0x1_0000
  {
    match Encode(name)
    case None => None
    case Some(enc) => Some(QueryHeader(txid) + enc + [0, 1, 0, 1])
  }

  // ---------- The round trip

  /** The dotted text the parser builds from the encoding of s, after text raw. */
  ghost function TextAfter(raw: seq<byte>, s: seq<byte>): seq<byte>
    decreases |s|
  {
    if s == [] then raw else TextAfter(JoinLabel(raw, s[..FirstDot(s)]), AfterLabel(s))
  }

  lemma {:induction false} TextGrows(raw: seq<byte>, s: seq<byte>)
    ensures |raw| <= |TextAfter(raw, s)|
    decreases |s|
  {
    if s != [] {
      TextGrows(JoinLabel(raw, s[..FirstDot(s)]), AfterLabel(s));
    }
  }

  lemma HoldsLabel(pkt: seq<byte>, off: nat, n: nat, lab: seq<byte>, f: seq<byte>)
    requires n == |lab| < 256 && Holds(pkt, off, [n as byte] + lab + f) && f != []
    ensures off < |pkt| && pkt[off] == n && off + 1 + n <= |pkt|
    ensures pkt[off + 1..off + 1 + n] == lab && Holds(pkt, off + 1 + n, f)
  {
    HoldsParts(pkt, off, [n as byte] + lab, f);
    HoldsParts(pkt, off, [n as byte], lab);
    assert pkt[off..off + 1][0] == n;
  }

  lemma AfterLabelShrinks(s: seq<byte>)
    requires s != []
    ensures |AfterLabel(s)| < |s| && FirstDot(s) <= |s|
  {
    hide FirstDot;
  }

  lemma TextUnfold(raw: seq<byte>, s: seq<byte>)
    requires s != []
    ensures var next := JoinLabel(raw, s[..FirstDot(s)]);
            TextAfter(raw, s) == TextAfter(next, AfterLabel(s)) &&
            |next| == |raw| + FirstDot(s) + if raw == [] then 0 else 1
  {
    hide FirstDot;
  }

  lemma EncodedLabel(pkt: seq<byte>, off: nat, s: seq<byte>)
    requires s != [] && Encode(s).Some? && Holds(pkt, off, Encode(s).value)
    ensures var n, rest := FirstDot(s), Encode(AfterLabel(s));
            0 < n <= 63 && rest.Some? && off + 1 + n <= |pkt| && pkt[off] == n &&
            pkt[off + 1..off + 1 + n] == s[..n] && Holds(pkt, off + 1 + n, rest.value) &&
            |Encode(s).value| == 1 + n + |rest.value|
  {
    hide Encode, FirstDot, AfterLabel, Holds;
    EncodeUnfold(s);
    var n, f := FirstDot(s), Encode(AfterLabel(s)).value;
    HoldsLabel(pkt, off, n, s[..n], f);
  }

  /** Walking the encoding of s from off, behind text raw, yields the text of s. */
  ghost predicate WalksTo(pkt: seq<byte>, off: nat, raw: seq<byte>, s: seq<byte>) {
    Encode(s).Some? &&
    var text := TextAfter(raw, s);
    WalkLabels(pkt, off, raw) == if |text| < NAME_CAP then Some((text, off + |Encode(s).value| - 1)) else None
  }

  lemma WalksRoot(pkt: seq<byte>, off: nat, raw: seq<byte>)
    requires Holds(pkt, off, Encode([]).value) && |raw| < NAME_CAP
    ensures WalksTo(pkt, off, raw, [])
  {
    assert Encode([]).value == [0];
    assert pkt[off] == pkt[off..off + 1][0];
  }

  lemma WalksLabel(pkt: seq<byte>, off: nat, raw: seq<byte>, s: seq<byte>)
    requires s != [] && Encode(s).Some? && Holds(pkt, off, Encode(s).value) && |raw| < NAME_CAP
    requires var next := JoinLabel(raw, s[..FirstDot(s)]);
             |next| < NAME_CAP ==> WalksTo(pkt, off + 1 + FirstDot(s), next, AfterLabel(s))
    ensures WalksTo(pkt, off, raw, s)
  {
    hide Encode, FirstDot, AfterLabel, Holds, TextAfter, JoinLabel, WalkLabels;
    EncodedLabel(pkt, off, s);
    TextUnfold(raw, s);
    TextGrows(JoinLabel(raw, s[..FirstDot(s)]), AfterLabel(s));
    WalkUnfold(pkt, off, raw);
  }

  lemma {:induction false} WalkOfEncoding(pkt: seq<byte>, off: nat, raw: seq<byte>, s: seq<byte>)
    requires Encode(s).Some? && |raw| < NAME_CAP && Holds(pkt, off, Encode(s).value)
    ensures WalksTo(pkt, off, raw, s)
    decreases |s|
  {
    hide *;
    if s == [] {
      WalksRoot(pkt, off, raw);
    } else {
      EncodedLabel(pkt, off, s);
      AfterLabelShrinks(s);
      if |JoinLabel(raw, s[..FirstDot(s)])| < NAME_CAP {
        WalkOfEncoding(pkt, off + 1 + FirstDot(s), JoinLabel(raw, s[..FirstDot(s)]), AfterLabel(s));
      }
      WalksLabel(pkt, off, raw, s);
    }
  }

  lemma WalkUnfold(pkt: seq<byte>, off: nat, raw: seq<byte>)
    requires off < |pkt| && 0 < pkt[off] < 64 && off + 1 + pkt[off] <= |pkt|
    ensures WalkLabels(pkt, off, raw) ==
            if |raw| + pkt[off] + 1 >= NAME_CAP then None
            else WalkLabels(pkt, off + 1 + pkt[off], JoinLabel(raw, pkt[off + 1..off + 1 + pkt[off]]))
  {
  }

  lemma {:induction false} StripDotsTail(a: seq<byte>, b: seq<byte>)
    requires StripDots(b) != []
    ensures StripDots(a + b) == a + StripDots(b)
  {
    if b[|b| - 1] == DOT {
      assert (a + b)[..|a + b| - 1] == a + b[..|b| - 1];
      StripDotsTail(a, b[..|b| - 1]);
    }
  }

  lemma NoDotNoStrip(s: seq<byte>)
    requires s != [] && DOT !in s
    ensures StripDots(s) == s
  {
    assert s[|s| - 1] in s;
  }

  /** Encoding then joining labels drops the one trailing dot and nothing else. */
  lemma {:induction false} TextIsStripped(raw: seq<byte>, s: seq<byte>)
    requires Encode(s).Some?
    ensures TextAfter(raw, s) == if s == [] then raw else JoinLabel(raw, StripDots(s))
    ensures s != [] ==> StripDots(s) != []
    decreases |s|
  {
    if s != [] {
      hide *;
      AfterLabelShrinks(s);
      EncodeUnfold(s);
      TextUnfold(raw, s);
      StrippedLabel(s);
      PrependNone([FirstDot(s) as byte] + s[..FirstDot(s)]);
      TextIsStripped(JoinLabel(raw, s[..FirstDot(s)]), AfterLabel(s));
      JoinTwice(raw, s[..FirstDot(s)], StripDots(AfterLabel(s)));
    }
  }

  lemma PrependNone(a: seq<byte>)
    ensures Prepend(a, None) == None
  {
  }

  lemma JoinTwice(raw: seq<byte>, a: seq<byte>, b: seq<byte>)
    requires a != []
    ensures JoinLabel(JoinLabel(raw, a), b) == JoinLabel(raw, a + [DOT] + b)
  {
  }

  /** Dots are stripped behind the last label only. */
  lemma StrippedLabel(s: seq<byte>)
    requires s != [] && FirstDot(s) > 0
    ensures var lab, rest := s[..FirstDot(s)], AfterLabel(s);
            lab != [] &&
            (rest == [] ==> StripDots(s) == lab) &&
            (StripDots(rest) != [] ==> StripDots(s) == lab + [DOT] + StripDots(rest) != [])
  {
    FirstDotFinds(s);
    var n := FirstDot(s);
    var lab, rest := s[..n], AfterLabel(s);
    hide FirstDot;
    NoDotNoStrip(lab);
    if n == |s| {
      assert lab == s;
    } else if rest == [] {
      assert s[..|s| - 1] == lab;
    } else {
      assert s == lab + [DOT] + rest;
      if StripDots(rest) != [] {
        StripDotsTail(lab + [DOT], rest);
      }
    }
  }

  lemma QueryLayout(txid: nat, name: seq<byte>)
    requires txid < 0x1_0000 && QueryBytes(txid, name).Some?
    ensures Encode(name).Some?
    ensures var q, e := QueryBytes(txid, name).value, Encode(name).value;
            Holds(q, 12, e) && |q| == 12 + |e| + 4
  {
    hide Encode, QueryHeader;
    var q, e := QueryBytes(txid, name).value, Encode(name).value;
    assert q[12..12 + |e|] == e;
  }

  lemma QuestionOfWalk(q: seq<byte>, off: nat)
    ensures WalkLabels(q, off, []).None? ==> Question(q, off).None?
    ensures WalkLabels(q, off, []).Some? && WalkLabels(q, off, []).value.1 + 5 <= |q| ==>
              var (text, root) := WalkLabels(q, off, []).value;
              Question(q, off) ==
              if Normalize(NAME_CAP, text) == [] then None else Some((Normalize(NAME_CAP, text), root + 5))
  {
    hide WalkLabels, Normalize;
  }

  /** Parsing a printed query gives back the normalized name, for every name the
      printer accepts; where the name does not normalize the parser refuses it. */
  lemma QuestionRoundTrip(txid: nat, name: seq<byte>)
    requires txid < 0x1_0000 && QueryBytes(txid, name).Some?
    ensures var q := QueryBytes(txid, name).value;
            Question(q, 12) ==
            if Normalize(NAME_CAP, name) == [] then None else Some((Normalize(NAME_CAP, name), |q|))
  {
    hide *;
    QueryLayout(txid, name);
    NameCapIs();
    var q := QueryBytes(txid, name).value;
    WalkOfEncoding(q, 12, [], name);
    TextOfName(name);
    NormalizeStripped(name);
    WalkedQuestion(q, 12, name);
  }

  lemma NameCapIs()
    ensures NAME_CAP == 256
  {
  }

  lemma WalkedQuestion(q: seq<byte>, off: nat, name: seq<byte>)
    requires WalksTo(q, off, [], name) && Encode(name).Some? && off + |Encode(name).value| + 4 == |q|
    ensures var text := TextAfter([], name);
            Question(q, off) ==
            if |text| >= NAME_CAP || Normalize(NAME_CAP, text) == [] then None
            else Some((Normalize(NAME_CAP, text), |q|))
  {
    hide Encode, WalkLabels, TextAfter, Normalize, Question;
    QuestionOfWalk(q, off);
  }

  lemma TextOfName(name: seq<byte>)
    requires Encode(name).Some?
    ensures TextAfter([], name) == StripDots(name)
  {
    hide Encode;
    TextIsStripped([], name);
    assert JoinLabel([], StripDots(name)) == StripDots(name);
    StripEmpty();
  }

  lemma NormalizeStripped(name: seq<byte>)
    ensures Normalize(NAME_CAP, StripDots(name)) == Normalize(NAME_CAP, name)
    ensures |StripDots(name)| >= NAME_CAP ==> Normalize(NAME_CAP, name) == []
  {
    StripDotsIdempotent(name);
    hide StripDots;
  }

  lemma StripDotsIdempotent(s: seq<byte>)
    ensures StripDots(StripDots(s)) == StripDots(s)
  {
    StripDotsEnds(s);
  }

  lemma StripEmpty()
    ensures StripDots([]) == []
  {
  }

  /** The same, on the names the documentation has in mind: accepted by the printer,
      not empty, and at most 255 bytes without the trailing dot. */
  lemma AcceptedNamesRoundTrip(txid: nat, name: seq<byte>)
    requires txid < 0x1_0000 && QueryBytes(txid, name).Some? && name != [] && |StripDots(name)| <= 255
    ensures var q := QueryBytes(txid, name).value;
            Question(q, 12) == Some((LowerAll(StripDots(name)), |q|))
  {
    hide QueryBytes, Question, Encode, TextAfter, StripDots;
    QueryLayout(txid, name);
    QuestionRoundTrip(txid, name);
    TextIsStripped([], name);
  }
}
