/** The rule grammar of main/domain.c: one list line into block, allow and rejected rules;
    and the custom rules text of main/blocklist.c, whose dry run must promise exactly what
    the parse then stores. */
module Rules {
  import opened Bytes
  import opened Domain
  import Verdict
  import BlLoad
  import Records

  const TOKEN_MAX: nat := 253
  const CUSTOM_MAX: nat := 256
  const ENTRY_CAP: nat := 64

  datatype Reason = Regex | Wildcard | Modifier | Cosmetic | Cidr | TooWide | Malformed

  datatype Parsed = Accept(allow: bool, exact: bool, important: bool, tok: seq<byte>) | Reject(reason: Reason)

  predicate Blank(c: byte) {
    c == 32 || c == 9
  }

  predicate Digit(c: byte) {
    48 <= c <= 57
  }

  /** tok_char_ok: letters, digits, and ". _ -". */
  predicate TokChar(c: byte) {
    IsLetter(c) || Digit(c) || c == DOT || c == 95 || c == 45
  }

  // ---------- Tokens

  /** tok_is_address: digits and dots only, or any colon. */
  ghost predicate IsAddress(t: seq<byte>) {
    58 in t || (t != [] && forall i :: 0 <= i < |t| ==> Digit(t[i]) || t[i] == DOT)
  }

  method TokIsAddress(t: seq<byte>) returns (b: bool)
    ensures b <==> IsAddress(t)
  {
    b := |t| > 0;
    for i := 0 to |t|
      invariant 58 !in t[..i]
      invariant b <==> |t| > 0 && forall k :: 0 <= k < i ==> Digit(t[k]) || t[k] == DOT
    {
      if t[i] == 58 {
        return true;
      }
      assert t[..i + 1] == t[..i] + [t[i]];
      if !(Digit(t[i]) || t[i] == DOT) {
        b := false;
      }
    }
    assert t[..|t|] == t;
  }

  function CountOf(t: seq<byte>, c: byte): nat {
    if t == [] then 0 else CountOf(t[..|t| - 1], c) + if t[|t| - 1] == c then 1 else 0
  }

  /** The index of the last c, or |t|. */
  function LastOf(t: seq<byte>, c: byte): (i: nat)
    ensures i <= |t| && (i < |t| ==> t[i] == c)
  {
    if t == [] then 0
    else if t[|t| - 1] == c then |t| - 1
    else
      var i := LastOf(t[..|t| - 1], c);
      if i == |t| - 1 then |t| else i
  }

  ghost predicate AllDigits(t: seq<byte>) {
    forall i :: 0 <= i < |t| ==> Digit(t[i])
  }

  /** strip_port: the length without a ":port" that no IPv6 colon can be mistaken for. */
  ghost function PortStripped(t: seq<byte>): (n: nat)
    ensures n <= |t|
  {
    var colon := LastOf(t, 58);
    if colon == |t| then |t|
    else
      var port := t[colon + 1..];
      if |port| == 0 || |port| > 5 || !AllDigits(port) then |t|
      else if (colon > 0 && t[colon - 1] == 93) || CountOf(t, 58) == 1 then colon else |t|
  }

  method StripPort(t: seq<byte>) returns (n: nat)
    ensures n == PortStripped(t)
  {
    var colon: nat, colons: nat := |t|, 0;
    for i := 0 to |t|
      invariant colons == CountOf(t[..i], 58)
      invariant colon == if LastOf(t[..i], 58) == i then |t| else LastOf(t[..i], 58)
    {
      assert t[..i + 1][..i] == t[..i];
      if t[i] == 58 {
        colon, colons := i, colons + 1;
      }
    }
    assert t[..|t|] == t;
    if colon == |t| {
      return |t|;
    }
    var plen := |t| - colon - 1;
    if plen == 0 || plen > 5 {
      return |t|;
    }
    var port := t[colon + 1..];
    for i := 0 to plen
      invariant forall k :: 0 <= k < i ==> Digit(port[k])
    {
      if !Digit(port[i]) {
        return |t|;
      }
    }
    var bracketed := colon > 0 && t[colon - 1] == 93;
    return if bracketed || colons == 1 then colon else |t|;
  }

  /** strip_brackets. */
  function Unbracketed(t: seq<byte>): seq<byte> {
    if |t| >= 2 && t[0] == 91 && t[|t| - 1] == 93 then t[1..|t| - 1] else t
  }

  /** too_wide: under three characters, or only dots and stars. */
  ghost predicate IsTooWide(t: seq<byte>) {
    |t| < 3 || forall i :: 0 <= i < |t| ==> t[i] == DOT || t[i] == 42
  }

  ghost predicate AllTokChars(t: seq<byte>) {
    forall i :: 0 <= i < |t| ==> TokChar(t[i])
  }

  /** A "*." in front is dropped. */
  function Unstarred(t: seq<byte>): seq<byte> {
    if |t| >= 2 && t[0] == 42 && t[1] == DOT then t[2..] else t
  }

  /** finish_token: the plain domain a token stands for, or why it stands for none. */
  ghost function Finished(t: seq<byte>): Parsed {
    var u := Unstarred(t);
    if 42 in u then Reject(Wildcard)
    else
      var d := StripDots(Unbracketed(u[..PortStripped(u)]));
      if d == [] then Reject(Malformed)
      else if IsAddress(d) then Reject(Cidr)
      else if IsTooWide(d) then Reject(TooWide)
      else if !AllTokChars(d) || |d| > TOKEN_MAX then Reject(Malformed)
      else Accept(false, false, false, d)
  }

  method FinishToken(t: seq<byte>) returns (p: Parsed)
    ensures p == Finished(t)
  {
    var u := Unstarred(t);
    for i := 0 to |u|
      invariant 42 !in u[..i]
    {
      if u[i] == 42 {
        return Reject(Wildcard);
      }
      assert u[..i + 1] == u[..i] + [u[i]];
    }
    assert u[..|u|] == u;
    var n := StripPort(u);
    var d := Unbracketed(u[..n]);
    ghost var whole := d;
    while |d| > 0 && d[|d| - 1] == DOT
      invariant StripDots(whole) == StripDots(d)
    {
      d := d[..|d| - 1];
    }
    if |d| == 0 {
      return Reject(Malformed);
    }
    var address := TokIsAddress(d);
    if address {
      return Reject(Cidr);
    }
    var wide := TokTooWide(d);
    if wide {
      return Reject(TooWide);
    }
    for i := 0 to |d|
      invariant forall k :: 0 <= k < i ==> TokChar(d[k])
    {
      if !TokChar(d[i]) {
        return Reject(Malformed);
      }
    }
    if |d| > 253 {
      return Reject(Malformed);
    }
    return Accept(false, false, false, d);
  }

  method TokTooWide(t: seq<byte>) returns (b: bool)
    ensures b <==> IsTooWide(t)
  {
    if |t| < 3 {
      return true;
    }
    for i := 0 to |t|
      invariant forall k :: 0 <= k < i ==> t[k] == DOT || t[k] == 42
    {
      if t[i] != DOT && t[i] != 42 {
        return false;
      }
    }
    return true;
  }

  /** A domain every accepted rule carries: plain characters, three to 253 of them, no
      trailing dot, and not an address. */
  ghost predicate Plain(d: seq<byte>) {
    3 <= |d| <= TOKEN_MAX && AllTokChars(d) && d[|d| - 1] != DOT && !IsAddress(d) && !IsTooWide(d)
  }

  lemma AcceptedIsPlain(t: seq<byte>)
    ensures Finished(t).Accept? ==> Plain(Finished(t).tok)
  {
    var u := Unstarred(t);
    StripDotsEnds(Unbracketed(u[..PortStripped(u)]));
  }

  /** A plain domain stands for itself. */
  lemma PlainFinishes(d: seq<byte>)
    requires Plain(d)
    ensures Finished(d) == Accept(false, false, false, d)
  {
    assert d[0] != 42 && d[0] != 91;
    assert 42 !in d && 58 !in d;
    NoneLast(d, 58);
    assert d[..|d|] == d;
  }

  lemma {:induction false} NoneLast(t: seq<byte>, c: byte)
    requires c !in t
    ensures LastOf(t, c) == |t|
  {
    if t != [] {
      assert t[|t| - 1] in t;
      NoneLast(t[..|t| - 1], c);
    }
  }

  // ---------- Lines

  const IMPORTANT: seq<byte> := [105, 109, 112, 111, 114, 116, 97, 110, 116]

  predicate At(s: seq<byte>, p: nat, w: seq<byte>) {
    p + |w| <= |s| && s[p..p + |w|] == w
  }

  function SkipBlanks(s: seq<byte>, i: nat): (j: nat)
    requires i <= |s|
    ensures i <= j <= |s| && (j < |s| ==> !Blank(s[j]))
    decreases |s| - i
  {
    if i == |s| || !Blank(s[i]) then i else SkipBlanks(s, i + 1)
  }

  function TokenEnd(s: seq<byte>, i: nat): (j: nat)
    requires i <= |s|
    ensures i <= j <= |s| && (i < |s| && !Blank(s[i]) ==> i < j)
    decreases |s| - i
  {
    if i == |s| || Blank(s[i]) then i else TokenEnd(s, i + 1)
  }

  /** The index of the first c, or |t|. */
  function FirstOf(t: seq<byte>, c: byte): (i: nat)
    ensures i <= |t|
  {
    if t == [] || t[0] == c then 0 else 1 + FirstOf(t[1..], c)
  }

  function TrimRight(t: seq<byte>): (r: seq<byte>)
    ensures r <= t
  {
    if t != [] && Blank(t[|t| - 1]) then TrimRight(t[..|t| - 1]) else t
  }

  predicate HasCosmetic(s: seq<byte>) {
    exists i :: 0 <= i < |s| - 1 && s[i] == 35 && s[i + 1] == 35
  }

  /** What stands in front of the pattern: exception and anchor marks. */
  datatype Head = Head(p: nat, allow: bool, anchored: bool, exact: bool)

  function HeadOf(s: seq<byte>): (h: Head)
    ensures h.p <= |s|
  {
    var p0 := SkipBlanks(s, 0);
    var allow := At(s, p0, [64, 64]);
    var p := if allow then p0 + 2 else p0;
    if At(s, p, [124, 124]) then Head(p + 2, allow, true, false)
    else if At(s, p, [124]) then Head(p + 1, allow, true, true)
    else Head(p, allow, false, allow)
  }

  /** A scheme in front, in any case, is dropped; the longest of the four that fits. */
  function Unschemed(t: seq<byte>): (u: seq<byte>)
    ensures |u| <= |t|
  {
    if |t| >= 8 && LowerAll(t[..8]) == [104, 116, 116, 112, 115, 58, 47, 47] then t[8..]
    else if |t| >= 7 && LowerAll(t[..7]) == [104, 116, 116, 112, 58, 47, 47] then t[7..]
    else if |t| >= 3 && t[..3] == [58, 47, 47] then t[3..]
    else if |t| >= 2 && t[..2] == [47, 47] then t[2..]
    else t
  }

  function Unslashed(t: seq<byte>): seq<byte> {
    if t != [] && t[|t| - 1] == 47 then t[..|t| - 1] else t
  }

  predicate IsRegex(t: seq<byte>) {
    |t| >= 2 && t[0] == 47 && t[|t| - 1] == 47
  }

  /** The text of the pattern: in front of the modifiers, and of "^" where anchored. */
  function PatternText(s: seq<byte>, anchored: bool): seq<byte> {
    var body := s[..LastOf(s, 36)];
    TrimRight(if anchored then body[..FirstOf(body, 94)] else body)
  }

  /** A rule that is not of the hosts form. */
  ghost function PatternRule(s: seq<byte>, h: Head): Parsed {
    var dollar := LastOf(s, 36);
    if dollar < |s| && s[dollar + 1..] != IMPORTANT then Reject(Modifier)
    else
      var text := PatternText(s, h.anchored);
      var bare := Unslashed(Unschemed(text));
      if IsRegex(text) then Reject(Regex)
      else if 47 in bare then Reject(Malformed)
      else
        match Finished(bare)
        case Reject(r) => Reject(r)
        case Accept(_, _, _, d) => Accept(h.allow, h.exact, dollar < |s|, d)
  }

  /** The next token of a hosts line, always a plain block rule or a rejected one. */
  ghost function HostsNext(s: seq<byte>, c: nat): (r: (Option<Parsed>, nat))
    requires c <= |s|
    ensures r.1 <= |s| && (r.0.Some? ==> c < r.1)
  {
    var p := SkipBlanks(s, c);
    if p == |s| then (None, |s|) else (Some(Finished(s[p..TokenEnd(s, p)])), TokenEnd(s, p))
  }

  ghost predicate IsHosts(s: seq<byte>) {
    var h := HeadOf(s);
    var t := TokenEnd(s, h.p);
    !h.allow && !h.anchored && IsAddress(s[h.p..t]) && t < |s|
  }

  predicate IsComment(s: seq<byte>) {
    s != [] && (s[0] == 33 || (s[0] == 35 && (|s| < 2 || s[1] != 35)))
  }

  /** rule_parse_next: the rule at a cursor, if any, and the cursor behind it. */
  ghost function ParseNext(s: seq<byte>, c: nat): (r: (Option<Parsed>, nat))
    ensures r.0.Some? ==> c < r.1 <= |s|
  {
    if s == [] || c >= |s| then (None, c)
    else if c != 0 then HostsNext(s, c)
    else if IsComment(s) then (None, |s|)
    else if HasCosmetic(s) then (Some(Reject(Cosmetic)), |s|)
    else if IsHosts(s) then
      var t := TokenEnd(s, HeadOf(s).p);
      if 36 in s[t..] then (Some(Reject(Modifier)), |s|) else HostsNext(s, t)
    else (Some(PatternRule(s[HeadOf(s).p..], HeadOf(s))), |s|)
  }

  /** Every rule of a line, in order. */
  ghost function RulesFrom(s: seq<byte>, c: nat): seq<Parsed>
    decreases |s| - c
  {
    var (r, next) := ParseNext(s, c);
    match r
    case None => []
    case Some(p) => [p] + RulesFrom(s, next)
  }

  // ---------- The parser as the program runs it

  method Blanks(s: seq<byte>, i: nat) returns (j: nat)
    requires i <= |s|
    ensures j == SkipBlanks(s, i)
  {
    j := i;
    while j < |s| && Blank(s[j])
      invariant i <= j <= |s| && SkipBlanks(s, i) == SkipBlanks(s, j)
    {
      j := j + 1;
    }
  }

  method NonBlanks(s: seq<byte>, i: nat) returns (j: nat)
    requires i <= |s|
    ensures j == TokenEnd(s, i)
  {
    j := i;
    while j < |s| && !Blank(s[j])
      invariant i <= j <= |s| && TokenEnd(s, i) == TokenEnd(s, j)
    {
      j := j + 1;
    }
  }

  /** hosts_token_next. */
  method HostsTokenNext(s: seq<byte>, c: nat) returns (r: Option<Parsed>, next: nat)
    requires c <= |s|
    ensures (r, next) == HostsNext(s, c)
  {
    var p := Blanks(s, c);
    if p >= |s| {
      return None, |s|;
    }
    var t := NonBlanks(s, p);
    var f := FinishToken(s[p..t]);
    return Some(f), t;
  }

  /** parse_modifiers: of the comma-separated list only the one word, once. */
  method ParseModifiers(m: seq<byte>) returns (ok: bool)
    ensures ok <==> m == IMPORTANT
  {
    if |m| == 0 {
      return false;
    }
    var p: nat, seen := 0, false;
    while true
      invariant p <= |m|
      invariant !seen ==> p == 0
      invariant seen ==> p > 9 && m[..9] == IMPORTANT
      decreases |m| - p
    {
      var comma := p;
      while comma < |m| && m[comma] != 44
        invariant p <= comma <= |m| && 44 !in m[p..comma]
      {
        assert m[p..comma + 1] == m[p..comma] + [m[comma]];
        comma := comma + 1;
      }
      var word := m[p..comma];
      if |word| != 9 || word != IMPORTANT {
        if !seen && m == IMPORTANT {
          NoCommaInside(m, comma);
        }
        return false;
      }
      if seen {
        return false;
      }
      seen := true;
      if comma == |m| {
        break;
      }
      p := comma + 1;
    }
    return true;
  }

  /** The word has no comma, so the first segment of it is all of it. */
  lemma NoCommaInside(m: seq<byte>, comma: nat)
    requires m == IMPORTANT && comma <= |m|
    ensures comma < |m| ==> m[comma] != 44
  {
  }

  /** The pattern text by index: the "^" cut and the trailing blanks. */
  method CutPattern(body: seq<byte>, anchored: bool) returns (text: seq<byte>)
    ensures text == TrimRight(if anchored then body[..FirstOf(body, 94)] else body)
  {
    var tend: nat := |body|;
    if anchored {
      tend := 0;
      while tend < |body| && body[tend] != 94
        invariant tend <= |body| && FirstOf(body, 94) == tend + FirstOf(body[tend..], 94)
      {
        assert body[tend..][1..] == body[tend + 1..];
        tend := tend + 1;
      }
    }
    ghost var cut := body[..tend];
    assert cut == if anchored then body[..FirstOf(body, 94)] else body;
    while tend > 0 && Blank(body[tend - 1])
      invariant tend <= |body| && TrimRight(cut) == TrimRight(body[..tend])
    {
      assert body[..tend][..tend - 1] == body[..tend - 1];
      tend := tend - 1;
    }
    text := body[..tend];
  }

  method Contains(t: seq<byte>, c: byte) returns (b: bool)
    ensures b <==> c in t
  {
    for i := 0 to |t|
      invariant c !in t[..i]
    {
      if t[i] == c {
        return true;
      }
      assert t[..i + 1] == t[..i] + [t[i]];
    }
    assert t[..|t|] == t;
    return false;
  }

  /** The last dollar sign, or |s|. */
  method LastDollar(s: seq<byte>) returns (i: nat)
    ensures i == LastOf(s, 36)
  {
    i := |s|;
    assert s[..|s|] == s;
    while i > 0 && s[i - 1] != 36
      invariant i <= |s|
      invariant LastOf(s, 36) == if LastOf(s[..i], 36) == i then |s| else LastOf(s[..i], 36)
    {
      assert s[..i][..i - 1] == s[..i - 1];
      i := i - 1;
    }
    i := if i > 0 then i - 1 else |s|;
  }

  /** The part of rule_parse_next behind the hosts test. */
  method ParsePattern(s: seq<byte>, h: Head) returns (r: Parsed)
    ensures r == PatternRule(s, h)
  {
    hide Finished, Unslashed, Unschemed, IsRegex, LastOf;
    var dollar := LastDollar(s);
    var important := dollar < |s|;
    if important {
      var ok := ParseModifiers(s[dollar + 1..]);
      if !ok {
        return Reject(Modifier);
      }
    }
    var text := CutPattern(s[..dollar], h.anchored);
    if IsRegex(text) {
      return Reject(Regex);
    }
    var bare := Unslashed(Unschemed(text));
    var slash := Contains(bare, 47);
    if slash {
      return Reject(Malformed);
    }
    var f := FinishToken(bare);
    match f {
      case Reject(reason) => r := Reject(reason);
      case Accept(_, _, _, d) => r := Accept(h.allow, h.exact, important, d);
    }
  }

  /** rule_parse_next. */
  method RuleParseNext(s: seq<byte>, c: nat) returns (r: Option<Parsed>, next: nat)
    ensures (r, next) == ParseNext(s, c)
  {
    hide SkipBlanks, PatternRule, Finished, IsAddress;
    if |s| == 0 || c >= |s| {
      return None, c;
    }
    if c != 0 {
      r, next := HostsTokenNext(s, c);
      return;
    }
    if s[0] == 33 || (s[0] == 35 && (|s| < 2 || s[1] != 35)) {
      return None, |s|;
    }
    for i := 0 to |s| - 1
      invariant forall k :: 0 <= k < i ==> !(s[k] == 35 && s[k + 1] == 35)
    {
      if s[i] == 35 && s[i + 1] == 35 {
        return Some(Reject(Cosmetic)), |s|;
      }
    }
    assert !HasCosmetic(s);
    var h := HeadOf(s);
    if !h.allow && !h.anchored {
      var t := NonBlanks(s, h.p);
      var address := TokIsAddress(s[h.p..t]);
      if address && t < |s| {
        var modified := Contains(s[t..], 36);
        if modified {
          return Some(Reject(Modifier)), |s|;
        }
        r, next := HostsTokenNext(s, t);
        return;
      }
    }
    var p := ParsePattern(s[h.p..], h);
    return Some(p), |s|;
  }

  // ---------- What a line yields

  lemma PatternIsPlain(s: seq<byte>, h: Head)
    ensures PatternRule(s, h).Accept? ==> Plain(PatternRule(s, h).tok)
  {
    AcceptedIsPlain(Unslashed(Unschemed(PatternText(s, h.anchored))));
    hide Finished, Plain;
  }

  lemma HostsIsPlain(s: seq<byte>, c: nat)
    requires c <= |s|
    ensures HostsNext(s, c).0.Some? && HostsNext(s, c).0.value.Accept? ==>
              var p := HostsNext(s, c).0.value;
              Plain(p.tok) && !p.allow && !p.exact && !p.important
  {
    var p := SkipBlanks(s, c);
    AcceptedIsPlain(s[p..TokenEnd(s, p)]);
    hide Plain;
  }

  ghost predicate AllPlain(ps: seq<Parsed>) {
    forall p :: p in ps && p.Accept? ==> Plain(p.tok)
  }

  /** Plain block rules: no exception, no flag. */
  ghost predicate AllBare(ps: seq<Parsed>) {
    forall p :: p in ps && p.Accept? ==> !p.allow && !p.exact && !p.important
  }

  lemma RulesFromUnfold(s: seq<byte>, c: nat)
    ensures var (r, next) := ParseNext(s, c);
            RulesFrom(s, c) == (if r.None? then [] else [r.value] + RulesFrom(s, next))
    ensures c >= |s| ==> RulesFrom(s, c) == []
  {
    hide HostsNext, PatternRule, IsHosts, IsComment, HasCosmetic;
  }

  /** A rule in front of the rest. */
  lemma PlainFirst(p: Parsed, ps: seq<Parsed>)
    requires AllPlain(ps) && (p.Accept? ==> Plain(p.tok))
    ensures AllPlain([p] + ps) && AllPlain([])
  {
    hide Plain;
  }

  lemma BareFirst(p: Parsed, ps: seq<Parsed>)
    requires AllBare(ps) && (p.Accept? ==> !p.allow && !p.exact && !p.important)
    ensures AllBare([p] + ps) && AllBare([])
  {
  }

  /** What one step yields: a plain domain; and more can follow only in the hosts form. */
  lemma StepYields(s: seq<byte>, c: nat)
    ensures var (r, next) := ParseNext(s, c);
            r.Some? ==>
              c < next <= |s| && (r.value.Accept? ==> Plain(r.value.tok)) &&
              (c > 0 || next < |s| ==> r.value.Accept? ==> !r.value.allow && !r.value.exact && !r.value.important)
  {
    if c <= |s| {
      HostsIsPlain(s, c);
    }
    HostsIsPlain(s, TokenEnd(s, HeadOf(s).p));
    PatternIsPlain(s[HeadOf(s).p..], HeadOf(s));
    hide Plain, PatternRule, HostsNext, IsHosts, IsComment, HasCosmetic;
  }

  /** Every accepted rule of a line names a plain domain, and a line with more than one
      rule is of the hosts form: plain block rules, with no flag. */
  lemma {:induction false} LineYieldsPlainRules(s: seq<byte>, c: nat)
    ensures AllPlain(RulesFrom(s, c))
    ensures c > 0 || |RulesFrom(s, c)| > 1 ==> AllBare(RulesFrom(s, c))
    decreases |s| - c
  {
    hide *;
    var (r, next) := ParseNext(s, c);
    RulesFromUnfold(s, c);
    NoneOfNone();
    if r.Some? {
      StepYields(s, c);
      RulesFromUnfold(s, next);
      LineYieldsPlainRules(s, next);
      PlainFirst(r.value, RulesFrom(s, next));
      if c > 0 || next < |s| {
        BareFirst(r.value, RulesFrom(s, next));
      }
    }
  }

  lemma NoneOfNone()
    ensures AllPlain([]) && AllBare([])
  {
  }

  // ---------- Printing a rule and reading it back

  /** The canonical text of a rule. */
  function Print(allow: bool, exact: bool, important: bool, d: seq<byte>): seq<byte> {
    Marks(allow, exact) + Tail(d, important)
  }

  function Marks(allow: bool, exact: bool): (m: seq<byte>)
    ensures |m| > 0
  {
    (if allow then [64, 64] else []) + (if exact then [124] else [124, 124])
  }

  function Tail(d: seq<byte>, important: bool): (r: seq<byte>)
    ensures |r| > |d| && r[..|d|] == d
  {
    d + [94] + if important then [36] + IMPORTANT else []
  }

  /** Parsing a printed rule gives back exactly that rule, and nothing else. */
  lemma PrintedRuleReadsBack(allow: bool, exact: bool, important: bool, d: seq<byte>)
    requires Plain(d)
    ensures RulesFrom(Print(allow, exact, important, d), 0) == [Accept(allow, exact, important, d)]
  {
    hide *;
    var s := Print(allow, exact, important, d);
    PrintSplits(allow, exact, important, d);
    PrintedHead(allow, exact, d, Tail(d, important));
    PrintedPattern(Tail(d, important), HeadOf(s), important, d);
    PrintedIsPattern(allow, exact, important, d);
    PatternIsAll(s);
    RulesFromUnfold(s, 0);
    RulesFromUnfold(s, |s|);
  }

  lemma PrintSplits(allow: bool, exact: bool, important: bool, d: seq<byte>)
    ensures var s := Print(allow, exact, important, d);
            s == Marks(allow, exact) + Tail(d, important) && s[|Marks(allow, exact)|..] == Tail(d, important)
  {
    hide Marks, Tail;
  }

  lemma PatternIsAll(s: seq<byte>)
    requires s != [] && !IsComment(s) && !HasCosmetic(s) && !IsHosts(s)
    ensures HeadOf(s).p <= |s| && ParseNext(s, 0) == (Some(PatternRule(s[HeadOf(s).p..], HeadOf(s))), |s|)
  {
    hide PatternRule, IsHosts, IsComment, HasCosmetic;
  }

  lemma PrintedIsPattern(allow: bool, exact: bool, important: bool, d: seq<byte>)
    requires Plain(d)
    ensures var s := Print(allow, exact, important, d);
            s != [] && !IsComment(s) && !HasCosmetic(s) && !IsHosts(s)
  {
    var s := Print(allow, exact, important, d);
    assert s[0] == 64 || s[0] == 124;
    forall i | 0 <= i < |s| ensures s[i] != 35 {
      var m := Marks(allow, exact);
      if |m| <= i < |m| + |d| {
        assert s[i] == d[i - |m|];
      }
    }
    PrintedHead(allow, exact, d, Tail(d, important));
    hide Plain, HeadOf;
  }

  lemma PrintedHead(allow: bool, exact: bool, d: seq<byte>, rest: seq<byte>)
    requires Plain(d) && |rest| > |d| && rest[..|d|] == d
    ensures HeadOf(Marks(allow, exact) + rest) == Head(|Marks(allow, exact)|, allow, true, exact)
  {
    var front := Marks(allow, exact);
    var s := front + rest;
    assert rest[0] == d[0] && TokChar(d[0]);
    var p: nat := if allow then 2 else 0;
    assert s[p] == 124;
    assert s[p + 1] == if exact then d[0] else 124;
    assert SkipBlanks(s, 0) == 0;
  }

  lemma PrintedPattern(rest: seq<byte>, h: Head, important: bool, d: seq<byte>)
    requires Plain(d) && h.anchored && rest == Tail(d, important)
    ensures PatternRule(rest, h) == Accept(h.allow, h.exact, important, d)
  {
    assert 36 !in d && 94 !in d && 47 !in d;
    var body := d + [94];
    if important {
      assert rest == body + [36] + IMPORTANT;
      NotInWord();
      LastIn(body, IMPORTANT, 36);
      assert rest[|body| + 1..] == IMPORTANT;
      assert rest[..|body|] == body;
    } else {
      assert rest == body;
      NoneLast(rest, 36);
      assert rest[..|rest|] == body;
    }
    FirstBehind(d, 94);
    assert body[..|d|] == d;
    assert !Blank(d[|d| - 1]);
    assert PatternText(rest, true) == d;
    assert d[0] != 47 && d[|d| - 1] != 47 && d[0] != 58;
    NoScheme(d);
    PlainFinishes(d);
  }

  lemma NotInWord()
    ensures 36 !in IMPORTANT
  {
  }

  lemma {:induction false} LastIn(a: seq<byte>, b: seq<byte>, c: byte)
    requires c !in b
    ensures LastOf(a + [c] + b, c) == |a|
  {
    var s := a + [c] + b;
    if b == [] {
      assert s == a + [c];
    } else {
      var n := |b| - 1;
      assert b[n] in b;
      assert s[..|s| - 1] == a + [c] + b[..n];
      LastIn(a, b[..n], c);
    }
  }

  lemma {:induction false} FirstBehind(a: seq<byte>, c: byte)
    requires c !in a
    ensures FirstOf(a + [c], c) == |a|
  {
    if a != [] {
      assert a[0] in a;
      assert (a + [c])[1..] == a[1..] + [c];
      FirstBehind(a[1..], c);
    }
  }

  lemma NoScheme(d: seq<byte>)
    requires Plain(d)
    ensures Unslashed(Unschemed(d)) == d && 47 !in d
  {
    assert forall i :: 0 <= i < |d| ==> TokChar(d[i]);
    if |d| >= 8 {
      assert LowerAll(d[..8])[6] != 47;
    }
    if |d| >= 7 {
      assert LowerAll(d[..7])[5] != 47;
    }
    assert d[..3][1] == d[1] && d[..2][1] == d[1];
  }

  // ---------- Rules in a feed

  function FeedRule(p: Parsed): BlLoad.Rule {
    match p
    case Reject(_) => BlLoad.Rule(BlLoad.RejectKind, [], Verdict.Flags(false, false))
    case Accept(allow, exact, important, d) =>
      BlLoad.Rule(if allow then BlLoad.AllowKind else BlLoad.BlockKind, d, Verdict.Flags(exact, important))
  }

  function FeedRules(ps: seq<Parsed>): (r: seq<BlLoad.Rule>)
    ensures |r| == |ps| && forall i :: 0 <= i < |ps| ==> r[i] == FeedRule(ps[i])
  {
    seq(|ps|, i requires 0 <= i < |ps| => FeedRule(ps[i]))
  }

  /** A printed block rule in a feed puts its domain in the block set, whether exact or
      not, unless it is a bare TLD; an important one is refused. */
  lemma PrintedBlockIsLoaded(hash: seq<byte> -> Records.Rec, exact: bool, important: bool, d: seq<byte>)
    requires Plain(d)
    ensures BlLoad.BlockHashes(hash, FeedRules(RulesFrom(Print(false, exact, important, d), 0))) ==
            if important || IsBareTld(LowerAll(d)) then {} else {hash(LowerAll(d))}
  {
    PrintedRuleReadsBack(false, exact, important, d);
    var rs := FeedRules([Accept(false, exact, important, d)]);
    assert StripDots(d) == d;
    hide RulesFrom, Print;
    assert rs == [FeedRule(Accept(false, exact, important, d))];
    assert rs[..0] == [];
    assert BlLoad.BlockHashes(hash, []) == {};
  }

  // ---------- The custom rules text

  function LineEnd(s: seq<byte>, p: nat): (e: nat)
    requires p <= |s|
    ensures p <= e <= |s|
    decreases |s| - p
  {
    if p == |s| || s[p] == 10 then p else LineEnd(s, p + 1)
  }

  function TrimLine(l: seq<byte>): (r: seq<byte>)
    ensures r <= l
  {
    if l != [] && (l[|l| - 1] == 13 || l[|l| - 1] == 32) then TrimLine(l[..|l| - 1]) else l
  }

  function Accepted(ps: seq<Parsed>): (r: seq<Parsed>)
    ensures forall p :: p in r ==> p.Accept?
  {
    if ps == [] then [] else (if ps[0].Accept? then [ps[0]] else []) + Accepted(ps[1..])
  }

  /** The accepted rules of the text from p on, in order. */
  ghost function TextRules(s: seq<byte>, p: nat): (r: seq<Parsed>)
    ensures forall p :: p in r ==> p.Accept?
    decreases |s| - p
  {
    if p >= |s| then []
    else
      var e := LineEnd(s, p);
      Accepted(RulesFrom(TrimLine(s[p..e]), 0)) + TextRules(s, e + 1)
  }

  /** The token fits a 64-byte entry with its terminator. */
  predicate Fits(p: Parsed) {
    p.Accept? && |p.tok| < ENTRY_CAP
  }

  function Entry(p: Parsed): Verdict.CustomRule
    requires p.Accept?
  {
    Verdict.CustomRule(LowerAll(p.tok), Verdict.RuleRank(p.allow, p.important), p.exact)
  }

  /** What custom_parse keeps of a list of accepted rules, with room for so many more. */
  function Stored(ps: seq<Parsed>, room: nat): (r: seq<Verdict.CustomRule>)
    ensures |r| <= room && |r| <= |ps|
  {
    if ps == [] || room == 0 then []
    else if Fits(ps[0]) then [Entry(ps[0])] + Stored(ps[1..], room - 1)
    else Stored(ps[1..], room)
  }

  ghost predicate AllFit(ps: seq<Parsed>) {
    forall p :: p in ps ==> Fits(p)
  }

  /** custom_validate: the count, or None where the save is refused. */
  ghost function Validated(s: seq<byte>): Option<nat> {
    var ps := TextRules(s, 0);
    if AllFit(ps) && |ps| <= CUSTOM_MAX then Some(|ps|) else None
  }

  /** One line cut out of the text: where the next one starts, and the line trimmed. */
  method NextLine(s: seq<byte>, p: nat) returns (line: seq<byte>, next: nat)
    requires p < |s|
    ensures line == TrimLine(s[p..LineEnd(s, p)]) && next == LineEnd(s, p) + 1
  {
    var e := p;
    while e < |s| && s[e] != 10
      invariant p <= e <= |s| && LineEnd(s, p) == LineEnd(s, e)
    {
      e := e + 1;
    }
    var l := s[p..e];
    line := l;
    while |line| > 0 && (line[|line| - 1] == 13 || line[|line| - 1] == 32)
      invariant TrimLine(l) == TrimLine(line)
    {
      line := line[..|line| - 1];
    }
    next := e + 1;
  }

  /** What the text has still to give, at cursor c of a line whose successor starts at next. */
  ghost function Rest(s: seq<byte>, line: seq<byte>, c: nat, next: nat): (r: seq<Parsed>)
    ensures forall p :: p in r ==> p.Accept?
  {
    Accepted(RulesFrom(line, c)) + TextRules(s, next)
  }

  lemma RestStep(s: seq<byte>, line: seq<byte>, c: nat, next: nat)
    ensures var (r, c') := ParseNext(line, c);
            Rest(s, line, c, next) ==
            (if r.None? then TextRules(s, next)
             else if r.value.Accept? then [r.value] + Rest(s, line, c', next) else Rest(s, line, c', next))
  {
    RulesFromUnfold(line, c);
    var (r, c') := ParseNext(line, c);
    hide ParseNext, TextRules;
    if r.Some? {
      var ps := [r.value] + RulesFrom(line, c');
      assert ps[1..] == RulesFrom(line, c');
    }
  }

  lemma TextUnfold(s: seq<byte>, p: nat)
    ensures TextRules(s, p) ==
            if p >= |s| then [] else Rest(s, TrimLine(s[p..LineEnd(s, p)]), 0, LineEnd(s, p) + 1)
  {
    hide RulesFrom, Accepted;
  }

  lemma CursorMoves(line: seq<byte>, c: nat)
    ensures var (r, c') := ParseNext(line, c);
            r.Some? ==> c < c' <= |line|
  {
  }

  /** done followed by the rest is the whole text, and everything done fits. */
  ghost predicate ValidatedTo(s: seq<byte>, done: seq<Parsed>, rest: seq<Parsed>) {
    TextRules(s, 0) == done + rest && AllFit(done)
  }

  lemma ValidateStep(s: seq<byte>, done: seq<Parsed>, p: Parsed, rest: seq<Parsed>)
    requires ValidatedTo(s, done, [p] + rest)
    ensures Fits(p) ==> ValidatedTo(s, done + [p], rest)
    ensures !Fits(p) ==> Validated(s) == None
  {
    assert done + ([p] + rest) == (done + [p]) + rest;
    assert p in TextRules(s, 0);
    hide TextRules;
  }

  /** custom_validate. */
  method CustomValidate(s: seq<byte>) returns (r: Option<nat>)
    ensures r == Validated(s)
  {
    hide TextRules, ParseNext, Rest, ValidatedTo, Validated, LineEnd, TrimLine;
    var count: nat := 0;
    ghost var done: seq<Parsed> := [];
    var p: nat := 0;
    ValidateStart(s);
    while p < |s|
      invariant ValidatedTo(s, done, TextRules(s, p)) && count == |done|
      decreases |s| - p
    {
      TextUnfold(s, p);
      LineEndAhead(s, p);
      var line, next := NextLine(s, p);
      var c: nat, more := 0, true;
      while more
        invariant ValidatedTo(s, done, if more then Rest(s, line, c, next) else TextRules(s, next)) && count == |done|
        decreases more, |line| - c
      {
        RestStep(s, line, c, next);
        CursorMoves(line, c);
        var rule, c' := RuleParseNext(line, c);
        if rule.None? {
          more := false;
        } else {
          if rule.value.Accept? {
            ValidateStep(s, done, rule.value, Rest(s, line, c', next));
            if |rule.value.tok| >= 64 {
              return None;
            }
            count, done := count + 1, done + [rule.value];
          }
          c := c';
        }
      }
      p := next;
    }
    TextUnfold(s, p);
    ValidateEnd(s, done);
    return if count > CUSTOM_MAX then None else Some(count);
  }

  lemma LineEndAhead(s: seq<byte>, p: nat)
    requires p < |s|
    ensures LineEnd(s, p) + 1 > p
  {
  }

  lemma ValidateStart(s: seq<byte>)
    ensures ValidatedTo(s, [], TextRules(s, 0))
  {
    assert [] + TextRules(s, 0) == TextRules(s, 0);
    hide TextRules;
  }

  lemma ValidateEnd(s: seq<byte>, done: seq<Parsed>)
    requires ValidatedTo(s, done, [])
    ensures Validated(s) == if |done| > CUSTOM_MAX then None else Some(|done|)
  {
    assert done + [] == done;
    hide TextRules;
  }

  /** The entries so far and what the rest will add are what the whole text stores. */
  ghost predicate StoredTo(s: seq<byte>, entries: seq<Verdict.CustomRule>, rest: seq<Parsed>) {
    |entries| <= CUSTOM_MAX && Stored(TextRules(s, 0), CUSTOM_MAX) == entries + Stored(rest, CUSTOM_MAX - |entries|)
  }

  lemma StoreStep(s: seq<byte>, entries: seq<Verdict.CustomRule>, p: Parsed, rest: seq<Parsed>)
    requires p.Accept? && StoredTo(s, entries, [p] + rest) && |entries| < CUSTOM_MAX
    ensures Fits(p) ==> StoredTo(s, entries + [Entry(p)], rest)
    ensures !Fits(p) ==> StoredTo(s, entries, rest)
  {
    var ps := [p] + rest;
    assert ps[1..] == rest;
    hide TextRules;
    if Fits(p) {
      var room := CUSTOM_MAX - |entries|;
      assert Stored(ps, room) == [Entry(p)] + Stored(rest, room - 1);
      assert entries + ([Entry(p)] + Stored(rest, room - 1)) == (entries + [Entry(p)]) + Stored(rest, room - 1);
    }
  }

  lemma StoreFull(s: seq<byte>, entries: seq<Verdict.CustomRule>, rest: seq<Parsed>)
    requires StoredTo(s, entries, rest) && (|entries| == CUSTOM_MAX || rest == [])
    ensures entries == Stored(TextRules(s, 0), CUSTOM_MAX)
  {
    hide TextRules;
  }

  lemma StoreStart(s: seq<byte>)
    ensures StoredTo(s, [], TextRules(s, 0))
  {
    hide TextRules, Stored;
  }

  /** No entry ranks above top, which is one of their ranks, or 0. */
  ghost predicate TopOf(entries: seq<Verdict.CustomRule>, top: nat) {
    (forall e :: e in entries ==> e.rank <= top) && (top == 0 || exists e :: e in entries && e.rank == top)
  }

  lemma TopOfMore(entries: seq<Verdict.CustomRule>, top: nat, e: Verdict.CustomRule)
    requires TopOf(entries, top)
    ensures TopOf(entries + [e], if e.rank > top then e.rank else top)
  {
    var more := entries + [e];
    assert e in more;
    if e.rank <= top && top != 0 {
      var w :| w in entries && w.rank == top;
      assert w in more;
    }
  }

  /** custom_parse. */
  method CustomParse(s: seq<byte>) returns (entries: seq<Verdict.CustomRule>, top: nat)
    ensures entries == Stored(TextRules(s, 0), CUSTOM_MAX) && TopOf(entries, top)
  {
    hide TextRules, ParseNext, Rest, StoredTo, TopOf, Stored, LineEnd, TrimLine, Entry;
    entries, top := [], 0;
    var p: nat := 0;
    StoreStart(s);
    NoneOnTop();
    while p < |s| && |entries| < CUSTOM_MAX
      invariant |entries| <= CUSTOM_MAX && TopOf(entries, top)
      invariant |entries| < CUSTOM_MAX ==> StoredTo(s, entries, TextRules(s, p))
      invariant |entries| == CUSTOM_MAX ==> entries == Stored(TextRules(s, 0), CUSTOM_MAX)
      decreases |s| - p
    {
      TextUnfold(s, p);
      LineEndAhead(s, p);
      var line, next := NextLine(s, p);
      var c: nat, more := 0, true;
      while more && |entries| < CUSTOM_MAX
        invariant |entries| <= CUSTOM_MAX && TopOf(entries, top)
        invariant StoredTo(s, entries, if more then Rest(s, line, c, next) else TextRules(s, next))
        decreases more, |line| - c
      {
        RestStep(s, line, c, next);
        CursorMoves(line, c);
        var rule, c' := RuleParseNext(line, c);
        if rule.None? {
          more := false;
        } else {
          if rule.value.Accept? {
            StoreStep(s, entries, rule.value, Rest(s, line, c', next));
            if |rule.value.tok| < 64 {
              var e := Entry(rule.value);
              TopOfMore(entries, top, e);
              entries := entries + [e];
              if e.rank > top {
                top := e.rank;
              }
            }
          }
          c := c';
        }
      }
      if |entries| == CUSTOM_MAX {
        StoreFull(s, entries, if more then Rest(s, line, c, next) else TextRules(s, next));
      }
      p := next;
    }
    TextUnfold(s, p);
    if |entries| < CUSTOM_MAX {
      StoreFull(s, entries, TextRules(s, p));
    }
  }

  lemma NoneOnTop()
    ensures TopOf([], 0)
  {
  }

  lemma {:induction false} StoredAll(ps: seq<Parsed>, room: nat)
    requires forall p :: p in ps ==> p.Accept?
    ensures |Stored(ps, room)| == |ps| <==> AllFit(ps) && |ps| <= room
    ensures AllFit(ps) && |ps| <= room ==> forall i :: 0 <= i < |ps| ==> Stored(ps, room)[i] == Entry(ps[i])
    decreases |ps|
  {
    if ps != [] {
      assert ps == [ps[0]] + ps[1..];
      assert ps[0] in ps;
      if room > 0 {
        StoredAll(ps[1..], if Fits(ps[0]) then room - 1 else room);
      }
    }
  }

  /** The dry run is right in both directions: it accepts a text exactly when the parse
      stores every rule of it, each as itself and in order, and then it says how many. */
  lemma ValidatedExactlyWhenLossless(s: seq<byte>)
    ensures var ps, stored := TextRules(s, 0), Stored(TextRules(s, 0), CUSTOM_MAX);
            (Validated(s).Some? <==> |stored| == |ps|) &&
            (Validated(s).Some? ==>
               Validated(s).value == |stored| &&
               forall i :: 0 <= i < |ps| ==> ps[i].Accept? && stored[i] == Entry(ps[i]))
  {
    StoredAll(TextRules(s, 0), CUSTOM_MAX);
    hide TextRules, Stored;
  }
}
