/** The TTL passes of main/dns_wire.c: how long a reply may be cached, and the TTLs a
    stale reply is served with. */
module Ttl {
  import opened Bytes
  import opened Domain
  import opened Wire
  import opened CaseScrub

  const NO_TTL: nat := 0xFFFF_FFFF

  function Get32(p: seq<byte>, off: nat): (v: nat)
    requires off + 4 <= |p|
    ensures v <= NO_TTL
  {
    p[off] as int * 0x100_0000 + p[off + 1] as int * 0x1_0000 + p[off + 2] as int * 0x100 + p[off + 3] as int
  }

  function Put32(v: nat): (p: seq<byte>)
    requires v <= NO_TTL
    ensures |p| == 4
  {
    [v / 0x100_0000, v / 0x1_0000 % 256, v / 0x100 % 256, v % 256]
  }

  function Min(a: nat, b: nat): nat {
    if a < b then a else b
  }

  // ---------- The least TTL

  /** The least TTL of the n records from off on, and m. */
  function LeastAnswer(p: seq<byte>, off: nat, n: nat, m: nat): nat
    decreases n
  {
    if n == 0 || SkipName(p, off).None? || SkipName(p, off).value + 10 > |p| then m
    else
      var e := SkipName(p, off).value;
      LeastAnswer(p, e + 10 + Get16(p, e + 8), n - 1, Min(m, Get32(p, e + 4)))
  }

  /** The negative TTL an SOA record whose fixed fields start at e grants, or NO_TTL. */
  function SoaTtl(p: seq<byte>, e: nat): nat
    requires e + 10 <= |p|
  {
    var rdlen := Get16(p, e + 8);
    if Get16(p, e) != 6 || rdlen < 20 then NO_TTL
    else
      match SkipName(p, e + 10)
      case None => NO_TTL
      case Some(m) =>
        match SkipName(p, m)
        case None => NO_TTL
        case Some(r) =>
          if r + 20 <= e + 10 + rdlen && r + 20 <= |p| then Min(Get32(p, e + 4), Get32(p, r + 16)) else NO_TTL
  }

  function LeastSoa(p: seq<byte>, off: nat, n: nat, m: nat): nat
    decreases n
  {
    if n == 0 || SkipName(p, off).None? || SkipName(p, off).value + 10 > |p| then m
    else
      var e := SkipName(p, off).value;
      LeastSoa(p, e + 10 + Get16(p, e + 8), n - 1, Min(m, SoaTtl(p, e)))
  }

  /** Where the records start, or None where the question does not parse. */
  function RecordsStart(p: seq<byte>): Option<nat> {
    match SkipName(p, 12)
    case None => None
    case Some(e) => if e + 4 > |p| then None else Some(e + 4)
  }

  function Clamp(v: nat, lo: nat, hi: nat): nat {
    var w := if v < lo then lo else v;
    if w > hi then hi else w
  }

  function RespMinTtl(p: seq<byte>, deflt: nat, lo: nat, hi: nat): nat {
    if |p| < 12 || RecordsStart(p).None? then deflt
    else
      var off := RecordsStart(p).value;
      var m := if Get16(p, 6) > 0 then LeastAnswer(p, off, Get16(p, 6), NO_TTL)
               else LeastSoa(p, off, Get16(p, 8), NO_TTL);
      if m == NO_TTL then deflt else Clamp(m, lo, hi)
  }

  /** The SOA step of dns_resp_min_ttl. */
  method SoaStep(pkt: array<byte>, len: nat, e: nat, least: nat) returns (m: nat)
    requires len <= pkt.Length && e + 10 <= len
    ensures m == Min(least, SoaTtl(pkt[..len], e))
    ensures least <= NO_TTL ==> m <= NO_TTL
  {
    m := least;
    ghost var p := pkt[..len];
    var rtype := pkt[e] as int * 256 + pkt[e + 1];
    var rttl := Get32(pkt[..len], e + 4);
    var rdlen := pkt[e + 8] as int * 256 + pkt[e + 9];
    if rtype == 6 && rdlen >= 20 {
      var ok, roff := DnsSkipName(pkt, len, e + 10);
      if ok {
        ok, roff := DnsSkipName(pkt, len, roff);
        if ok && roff + 20 <= e + 10 + rdlen && roff + 20 <= len {
          var soaMin := Get32(pkt[..len], roff + 16);
          var neg := if rttl < soaMin then rttl else soaMin;
          if neg < m {
            m := neg;
          }
          return;
        }
      }
    }
    assert SoaTtl(p, e) == NO_TTL;
    if NO_TTL < m {
      m := NO_TTL;
    }
  }

  lemma LeastAnswerUnfold(p: seq<byte>, off: nat, n: nat, m: nat)
    ensures LeastAnswer(p, off, n, m) ==
            if n == 0 || SkipName(p, off).None? || SkipName(p, off).value + 10 > |p| then m
            else
              var e := SkipName(p, off).value;
              LeastAnswer(p, e + 10 + Get16(p, e + 8), n - 1, Min(m, Get32(p, e + 4)))
  {
    hide SkipName, Min, Get32;
  }

  lemma LeastSoaUnfold(p: seq<byte>, off: nat, n: nat, m: nat)
    ensures LeastSoa(p, off, n, m) ==
            if n == 0 || SkipName(p, off).None? || SkipName(p, off).value + 10 > |p| then m
            else
              var e := SkipName(p, off).value;
              LeastSoa(p, e + 10 + Get16(p, e + 8), n - 1, Min(m, SoaTtl(p, e)))
  {
    hide SkipName, Min, SoaTtl;
  }

  /** The answer loop of dns_resp_min_ttl. */
  method LeastOfAnswers(pkt: array<byte>, len: nat, start: nat, count: nat) returns (least: nat)
    requires len <= pkt.Length
    ensures least == LeastAnswer(pkt[..len], start, count, NO_TTL)
  {
    hide LeastAnswer, SkipName, Get32, Min;
    ghost var p := pkt[..len];
    least := NO_TTL;
    var off: nat, i: nat := start, 0;
    while i < count
      invariant i <= count && LeastAnswer(p, start, count, NO_TTL) == LeastAnswer(p, off, count - i, least)
    {
      LeastAnswerUnfold(p, off, count - i, least);
      var ok, e := DnsSkipName(pkt, len, off);
      if !ok || e + 10 > len {
        return;
      }
      least := Min(least, Get32(pkt[..len], e + 4));
      off := e + 10 + (pkt[e + 8] as int * 256 + pkt[e + 9]);
      i := i + 1;
    }
    LeastAnswerUnfold(p, off, 0, least);
  }

  /** The authority loop of dns_resp_min_ttl. */
  method LeastOfSoas(pkt: array<byte>, len: nat, start: nat, count: nat) returns (least: nat)
    requires len <= pkt.Length
    ensures least == LeastSoa(pkt[..len], start, count, NO_TTL)
  {
    hide LeastSoa, SkipName, SoaTtl, Min;
    ghost var p := pkt[..len];
    least := NO_TTL;
    var off: nat, i: nat := start, 0;
    while i < count
      invariant i <= count && LeastSoa(p, start, count, NO_TTL) == LeastSoa(p, off, count - i, least)
    {
      LeastSoaUnfold(p, off, count - i, least);
      var ok, e := DnsSkipName(pkt, len, off);
      if !ok || e + 10 > len {
        return;
      }
      least := SoaStep(pkt, len, e, least);
      off := e + 10 + (pkt[e + 8] as int * 256 + pkt[e + 9]);
      i := i + 1;
    }
    LeastSoaUnfold(p, off, 0, least);
  }

  /** dns_resp_min_ttl. */
  method DnsRespMinTtl(pkt: array<byte>, len: nat, deflt: nat, lo: nat, hi: nat) returns (ttl: nat)
    requires len <= pkt.Length
    ensures ttl == RespMinTtl(pkt[..len], deflt, lo, hi)
  {
    hide LeastAnswer, LeastSoa, SkipName;
    if len < 12 {
      return deflt;
    }
    var ancount := pkt[6] as int * 256 + pkt[7];
    var nscount := pkt[8] as int * 256 + pkt[9];
    var ok, off := DnsSkipName(pkt, len, 12);
    if !ok || off + 4 > len {
      return deflt;
    }
    off := off + 4;
    var least: nat;
    if ancount > 0 {
      least := LeastOfAnswers(pkt, len, off, ancount);
    } else {
      least := LeastOfSoas(pkt, len, off, nscount);
    }
    if least == NO_TTL {
      return deflt;
    }
    ttl := Clamp(least, lo, hi);
  }

  // ---------- What the result means

  /** What each record the walk reads grants, in order: its TTL in the answer section, its
      negative TTL (NO_TTL for none) in the authority section. */
  function Granted(p: seq<byte>, off: nat, n: nat, soa: bool): seq<nat>
    decreases n
  {
    if n == 0 || SkipName(p, off).None? || SkipName(p, off).value + 10 > |p| then []
    else
      var e := SkipName(p, off).value;
      [if soa then SoaTtl(p, e) else Get32(p, e + 4)] + Granted(p, e + 10 + Get16(p, e + 8), n - 1, soa)
  }

  lemma GrantedUnfold(p: seq<byte>, off: nat, n: nat, soa: bool)
    ensures Granted(p, off, n, soa) ==
            if n == 0 || SkipName(p, off).None? || SkipName(p, off).value + 10 > |p| then []
            else
              var e := SkipName(p, off).value;
              [if soa then SoaTtl(p, e) else Get32(p, e + 4)] + Granted(p, e + 10 + Get16(p, e + 8), n - 1, soa)
  {
    hide SkipName, SoaTtl, Get32;
  }

  /** least is the least of ts and m. */
  ghost predicate IsLeast(least: nat, ts: seq<nat>, m: nat) {
    least <= m && (least == m || least in ts) && forall t :: t in ts ==> least <= t
  }

  lemma LeastOfMore(least: nat, t: nat, ts: seq<nat>, m: nat)
    requires IsLeast(least, ts, Min(m, t))
    ensures IsLeast(least, [t] + ts, m)
  {
  }

  lemma {:induction false} LeastAnswerIsLeast(p: seq<byte>, off: nat, n: nat, m: nat)
    ensures IsLeast(LeastAnswer(p, off, n, m), Granted(p, off, n, false), m)
    decreases n
  {
    hide LeastAnswer, Granted, SkipName, Get32, Min;
    LeastAnswerUnfold(p, off, n, m);
    GrantedUnfold(p, off, n, false);
    if n > 0 && SkipName(p, off).Some? && SkipName(p, off).value + 10 <= |p| {
      var e := SkipName(p, off).value;
      LeastAnswerIsLeast(p, e + 10 + Get16(p, e + 8), n - 1, Min(m, Get32(p, e + 4)));
      LeastOfMore(LeastAnswer(p, off, n, m), Get32(p, e + 4), Granted(p, e + 10 + Get16(p, e + 8), n - 1, false), m);
    }
  }

  lemma {:induction false} LeastSoaIsLeast(p: seq<byte>, off: nat, n: nat, m: nat)
    ensures IsLeast(LeastSoa(p, off, n, m), Granted(p, off, n, true), m)
    decreases n
  {
    hide LeastSoa, Granted, SkipName, SoaTtl, Min;
    LeastSoaUnfold(p, off, n, m);
    GrantedUnfold(p, off, n, true);
    if n > 0 && SkipName(p, off).Some? && SkipName(p, off).value + 10 <= |p| {
      var e := SkipName(p, off).value;
      LeastSoaIsLeast(p, e + 10 + Get16(p, e + 8), n - 1, Min(m, SoaTtl(p, e)));
      LeastOfMore(LeastSoa(p, off, n, m), SoaTtl(p, e), Granted(p, e + 10 + Get16(p, e + 8), n - 1, true), m);
    }
  }

  /** What the section that decides grants: the answers if there are any, else the authority
      section's SOA records. */
  function Grants(p: seq<byte>): seq<nat>
    requires |p| >= 12 && RecordsStart(p).Some?
  {
    var off := RecordsStart(p).value;
    if Get16(p, 6) > 0 then Granted(p, off, Get16(p, 6), false) else Granted(p, off, Get16(p, 8), true)
  }

  lemma {:induction false} GrantedFit(p: seq<byte>, off: nat, n: nat, soa: bool)
    ensures forall t :: t in Granted(p, off, n, soa) ==> t <= NO_TTL
    decreases n
  {
    hide Granted, SkipName;
    GrantedUnfold(p, off, n, soa);
    if n > 0 && SkipName(p, off).Some? && SkipName(p, off).value + 10 <= |p| {
      var e := SkipName(p, off).value;
      GrantedFit(p, e + 10 + Get16(p, e + 8), n - 1, soa);
    }
  }

  /** How long a reply is cached: the default exactly where nothing grants a time, else the
      least time granted, which some record grants, inside the bounds. */
  lemma CachedForLeastGranted(p: seq<byte>, deflt: nat, lo: nat, hi: nat)
    requires |p| >= 12 && RecordsStart(p).Some?
    ensures var r, ts := RespMinTtl(p, deflt, lo, hi), Grants(p);
            if forall t :: t in ts ==> t == NO_TTL then r == deflt
            else exists t :: t in ts && r == Clamp(t, lo, hi) && forall u :: u in ts ==> t <= u
  {
    var off := RecordsStart(p).value;
    var ts := Grants(p);
    LeastAnswerIsLeast(p, off, Get16(p, 6), NO_TTL);
    LeastSoaIsLeast(p, off, Get16(p, 8), NO_TTL);
    GrantedFit(p, off, Get16(p, 6), false);
    GrantedFit(p, off, Get16(p, 8), true);
    hide LeastAnswer, LeastSoa, Granted, SkipName, RecordsStart;
    var m := if Get16(p, 6) > 0 then LeastAnswer(p, off, Get16(p, 6), NO_TTL)
             else LeastSoa(p, off, Get16(p, 8), NO_TTL);
    if t :| t in ts && t != NO_TTL {
      assert m <= t < NO_TTL && m in ts;
    }
  }

  lemma TtlOf(p: seq<byte>, start: nat, e: nat)
    requires Continues(p, e)
    ensures |RrAt(p, start, e).ttl| == 4 && Get32(RrAt(p, start, e).ttl, 0) == Get32(p, e + 4)
  {
  }

  ghost predicate AllIn(rs: seq<Rr>, ts: seq<nat>) {
    forall r :: r in rs ==> |r.ttl| == 4 && Get32(r.ttl, 0) in ts
  }

  lemma AllInMore(r: Rr, rs: seq<Rr>, t: nat, ts: seq<nat>)
    requires AllIn(rs, ts)
    ensures AllIn([], [t] + ts)
    ensures |r.ttl| == 4 && Get32(r.ttl, 0) == t ==> AllIn([r] + rs, [t] + ts)
  {
  }

  lemma {:induction false} RecordsGrant(p: seq<byte>, off: nat, n: nat)
    ensures AllIn(Records(p, off, n), Granted(p, off, n, false))
    decreases n
  {
    hide *;
    NoRecords(p, off);
    GrantedUnfold(p, off, n, false);
    if n == 0 || SkipName(p, off).None? || SkipName(p, off).value + 10 > |p| {
      NoneIn(p, off, n);
    } else {
      RecordsUnfold(p, off, n);
      var e := SkipName(p, off).value;
      var next := e + 10 + Get16(p, e + 8);
      RecordsGrant(p, next, n - 1);
      if Continues(p, e) {
        TtlOf(p, off, e);
        RecordEndIs(p, e);
        AllInMore(RrAt(p, off, e), Records(p, next, n - 1), Get32(p, e + 4), Granted(p, next, n - 1, false));
      } else {
        AllInMore(Rr(0, 0, 0, 0, [], []), Records(p, next, n - 1), Get32(p, e + 4), Granted(p, next, n - 1, false));
      }
    }
  }

  lemma RecordEndIs(p: seq<byte>, e: nat)
    requires Continues(p, e)
    ensures RecordEnd(p, e) == e + 10 + Get16(p, e + 8)
  {
  }

  lemma NoneIn(p: seq<byte>, off: nat, n: nat)
    requires n == 0 || SkipName(p, off).None? || SkipName(p, off).value + 10 > |p|
    ensures Records(p, off, n) == [] && AllIn([], [])
  {
    hide SkipName;
  }

  /** Some answer has a TTL, other than the one that stands for none. */
  ghost predicate SomeTtl(rs: seq<Rr>) {
    exists r :: r in rs && |r.ttl| == 4 && Get32(r.ttl, 0) != NO_TTL
  }

  /** No reply is cached beyond the TTL of any of its answers, the floor excepted: the default
      is for replies whose answers all lack a time. */
  lemma CachedNoLongerThanAnyAnswer(p: seq<byte>, deflt: nat, lo: nat, hi: nat)
    requires lo <= hi && |p| >= 12 && RecordsStart(p).Some?
    ensures var r, rs := RespMinTtl(p, deflt, lo, hi), Records(p, RecordsStart(p).value, Get16(p, 6));
            SomeTtl(rs) ==>
              lo <= r <= hi &&
              forall a :: a in rs ==> |a.ttl| == 4 && r <= if Get32(a.ttl, 0) < lo then lo else Get32(a.ttl, 0)
  {
    var off, n := RecordsStart(p).value, Get16(p, 6);
    var rs := Records(p, off, n);
    CachedForLeastGranted(p, deflt, lo, hi);
    RecordsGrant(p, off, n);
    NoRecords(p, off);
    hide Granted, Records, SkipName, Get32, RecordsStart, RespMinTtl;
    if SomeTtl(rs) {
      var a :| a in rs && |a.ttl| == 4 && Get32(a.ttl, 0) != NO_TTL;
      assert n > 0 && Get32(a.ttl, 0) in Grants(p);
    }
  }

  /** The RDATA of a record at e is an SOA's: two names, then five words inside it. */
  ghost predicate SoaAt(p: seq<byte>, e: nat, words: nat) {
    e + 10 <= |p| && Get16(p, e) == 6 && Get16(p, e + 8) >= 20 && SkipName(p, e + 10).Some? &&
    SkipName(p, SkipName(p, e + 10).value) == Some(words) && words + 20 <= e + 10 + Get16(p, e + 8) && words + 20 <= |p|
  }

  /** A negative reply, one without answers, is cached as its SOA says: no longer than the
      record's own TTL or its MINIMUM field (section 5 of RFC 2308), the floor excepted. */
  lemma NegativeTtl(p: seq<byte>, deflt: nat, lo: nat, hi: nat, e: nat, words: nat)
    requires |p| >= 12 && RecordsStart(p).Some? && Get16(p, 6) == 0 && Get16(p, 8) > 0
    requires SkipName(p, RecordsStart(p).value) == Some(e) && SoaAt(p, e, words)
    ensures var ttl, minimum := Get32(p, e + 4), Get32(p, words + 16);
            ttl < NO_TTL || minimum < NO_TTL ==>
              RespMinTtl(p, deflt, lo, hi) <= Clamp(Min(ttl, minimum), lo, hi)
    ensures Get16(p, 8) == 1 && (Get32(p, e + 4) < NO_TTL || Get32(p, words + 16) < NO_TTL) ==>
              RespMinTtl(p, deflt, lo, hi) == Clamp(Min(Get32(p, e + 4), Get32(p, words + 16)), lo, hi)
  {
    var off := RecordsStart(p).value;
    GrantedUnfold(p, off, Get16(p, 8), true);
    GrantedUnfold(p, e + 10 + Get16(p, e + 8), 0, true);
    SoaGrants(p, e, words);
    CachedForLeastGranted(p, deflt, lo, hi);
    hide Granted, SkipName, Get32, RecordsStart, RespMinTtl, SoaTtl;
    assert SoaTtl(p, e) in Grants(p);
  }

  lemma SoaGrants(p: seq<byte>, e: nat, words: nat)
    requires SoaAt(p, e, words)
    ensures SoaTtl(p, e) == Min(Get32(p, e + 4), Get32(p, words + 16)) <= NO_TTL
  {
    hide SkipName, Get32;
  }

  // ---------- Rewriting every TTL

  function WithTtl(p: seq<byte>, e: nat, ttl: nat): (q: seq<byte>)
    requires e + 10 <= |p| && ttl <= NO_TTL
    ensures |q| == |p|
  {
    p[..e + 4] + Put32(ttl) + p[e + 8..]
  }

  function RewriteTtls(p: seq<byte>, off: nat, n: nat, ttl: nat): (q: seq<byte>)
    requires ttl <= NO_TTL
    ensures |q| == |p|
    decreases n
  {
    if n == 0 || off > |p| || SkipName(p, off).None? || SkipName(p, off).value + 10 > |p| then p
    else
      var e := SkipName(p, off).value;
      var p1 := WithTtl(p, e, ttl);
      RewriteTtls(p1, e + 10 + Get16(p1, e + 8), n - 1, ttl)
  }

  function RewriteAnswerTtls(p: seq<byte>, ttl: nat): (q: seq<byte>)
    requires ttl <= NO_TTL
    ensures |q| == |p|
  {
    if |p| < 12 || SkipName(p, 12).None? then p
    else RewriteTtls(p, SkipName(p, 12).value + 4, RecordCount(p), ttl)
  }

  /** dns_rewrite_answer_ttls on a packet that fills its buffer. */
  method DnsRewriteAnswerTtls(pkt: array<byte>, ttl: nat)
    requires ttl <= NO_TTL
    modifies pkt
    ensures pkt[..] == RewriteAnswerTtls(old(pkt[..]), ttl)
  {
    hide RewriteTtls, SkipName;
    var len := pkt.Length;
    if len < 12 {
      return;
    }
    ghost var p := pkt[..];
    var rrs: nat := (pkt[6] as int * 256 + pkt[7]) + (pkt[8] as int * 256 + pkt[9]) + (pkt[10] as int * 256 + pkt[11]);
    assert rrs == RecordCount(p);
    assert pkt[..len] == p;
    var ok, start := DnsSkipName(pkt, len, 12);
    if !ok {
      return;
    }
    var off: nat := start + 4;
    var i: nat := 0;
    while i < rrs
      invariant i <= rrs && RewriteTtls(p, start + 4, rrs, ttl) == RewriteTtls(pkt[..], off, rrs - i, ttl)
    {
      ghost var cur := pkt[..];
      RewriteUnfold(cur, off, rrs - i, ttl);
      if off > len {
        return;
      }
      assert pkt[..len] == cur;
      var good, e := DnsSkipName(pkt, len, off);
      if !good || e + 10 > len {
        return;
      }
      pkt[e + 4] := ttl / 0x100_0000;
      pkt[e + 5] := ttl / 0x1_0000 % 256;
      pkt[e + 6] := ttl / 0x100 % 256;
      pkt[e + 7] := ttl % 256;
      assert pkt[..] == WithTtl(cur, e, ttl);
      off := e + 10 + (pkt[e + 8] as int * 256 + pkt[e + 9]);
      i := i + 1;
    }
    RewriteNone(pkt[..], off, ttl);
  }

  lemma RewriteNone(p: seq<byte>, off: nat, ttl: nat)
    requires ttl <= NO_TTL
    ensures RewriteTtls(p, off, 0, ttl) == p
  {
  }

  lemma RewriteUnfold(p: seq<byte>, off: nat, n: nat, ttl: nat)
    requires ttl <= NO_TTL && n > 0
    ensures RewriteTtls(p, off, n, ttl) ==
            if off > |p| || SkipName(p, off).None? || SkipName(p, off).value + 10 > |p| then p
            else
              var e := SkipName(p, off).value;
              var p1 := WithTtl(p, e, ttl);
              RewriteTtls(p1, e + 10 + Get16(p1, e + 8), n - 1, ttl)
  {
    hide SkipName, WithTtl;
  }

  /** q equals p in front of off. */
  ghost predicate AgreeBefore(p: seq<byte>, q: seq<byte>, off: nat) {
    |p| == |q| && forall i: nat :: i < off && i < |p| ==> p[i] == q[i]
  }

  lemma {:induction false} SkipBefore(p: seq<byte>, q: seq<byte>, off: nat)
    requires SkipName(p, off).Some? && AgreeBefore(p, q, SkipName(p, off).value)
    ensures SkipName(q, off) == SkipName(p, off)
    decreases |p| - off
  {
    if 0 < p[off] < 64 {
      SkipBefore(p, q, off + 1 + p[off]);
    }
  }

  lemma TtlStands(p: seq<byte>, off: nat, e: nat, ttl: nat)
    requires e + 10 <= |p| && ttl <= NO_TTL && off <= e
    ensures AgreeBefore(p, WithTtl(p, e, ttl), off)
  {
  }

  lemma AgreeBeforeTwice(p: seq<byte>, q: seq<byte>, r: seq<byte>, off: nat, far: nat)
    requires AgreeBefore(p, q, off) && AgreeBefore(q, r, far) && off <= far
    ensures AgreeBefore(p, r, off)
  {
  }

  lemma AgreesWithItself(p: seq<byte>, off: nat)
    ensures AgreeBefore(p, p, off)
  {
  }

  lemma {:induction false} RewriteKeepsFront(p: seq<byte>, off: nat, n: nat, ttl: nat)
    requires ttl <= NO_TTL
    ensures AgreeBefore(p, RewriteTtls(p, off, n, ttl), off)
    decreases n
  {
    hide *;
    AgreesWithItself(p, off);
    if n == 0 {
      RewriteNone(p, off, ttl);
    } else {
      RewriteUnfold(p, off, n, ttl);
      if off <= |p| && SkipName(p, off).Some? && SkipName(p, off).value + 10 <= |p| {
        var e := SkipName(p, off).value;
        var p1 := WithTtl(p, e, ttl);
        var next := e + 10 + Get16(p1, e + 8);
        TtlStands(p, off, e, ttl);
        RewriteKeepsFront(p1, next, n - 1, ttl);
        AgreeBeforeTwice(p, p1, RewriteTtls(p1, next, n - 1, ttl), off, next);
      }
    }
  }

  /** The same records with one TTL for all. */
  function AllTtls(rs: seq<Rr>, ttl: nat): (t: seq<Rr>)
    requires ttl <= NO_TTL
  {
    if rs == [] then [] else [rs[0].(ttl := Put32(ttl))] + AllTtls(rs[1..], ttl)
  }

  lemma RewrittenRecord(p: seq<byte>, q: seq<byte>, start: nat, e: nat, ttl: nat)
    requires Continues(p, e) && ttl <= NO_TTL && AgreeBefore(WithTtl(p, e, ttl), q, RecordEnd(p, e))
    ensures Continues(q, e) && RecordEnd(q, e) == RecordEnd(p, e)
    ensures RrAt(q, start, e) == RrAt(p, start, e).(ttl := Put32(ttl))
  {
    var p1 := WithTtl(p, e, ttl);
    assert forall i :: 0 <= i < |p| && !(e + 4 <= i < e + 8) ==> p1[i] == p[i];
    assert q[e] == p[e] && q[e + 1] == p[e + 1] && q[e + 2] == p[e + 2] && q[e + 3] == p[e + 3];
    assert q[e + 8] == p[e + 8] && q[e + 9] == p[e + 9];
    assert p1[e + 4..e + 8] == Put32(ttl);
    assert q[e + 4..e + 8] == p1[e + 4..e + 8];
    assert q[e + 10..RecordEnd(p, e)] == p[e + 10..RecordEnd(p, e)];
  }

  /** Whatever the packet, the rewrite changes the TTL of every record and nothing else a
      record says. */
  lemma {:induction false} RewriteChangesOnlyTtls(p: seq<byte>, off: nat, n: nat, ttl: nat)
    requires ttl <= NO_TTL
    ensures Records(RewriteTtls(p, off, n, ttl), off, n) == AllTtls(Records(p, off, n), ttl)
    decreases n
  {
    hide *;
    var q := RewriteTtls(p, off, n, ttl);
    if n == 0 {
      NoRecords(p, off);
      NoRecords(q, off);
      NoTtls(ttl);
    } else {
      RewriteUnfold(p, off, n, ttl);
      RecordsUnfold(p, off, n);
      RecordsUnfold(q, off, n);
      SkipPast(p, off);
      NoTtls(ttl);
      if SkipName(p, off).Some? {
        var e := SkipName(p, off).value;
        NotContinued(p, e);
        if e + 10 <= |p| {
          var p1 := WithTtl(p, e, ttl);
          WithTtlLocal(p, e, ttl);
          var next := e + 10 + Get16(p1, e + 8);
          RewriteKeepsFront(p1, next, n - 1, ttl);
          FrontAgrees(p, p1, q, e, next);
          SkipBefore(p, q, off);
          if Continues(p, e) {
            RewrittenRecord(p, q, off, e, ttl);
            RewriteChangesOnlyTtls(p1, next, n - 1, ttl);
            FromLater(p, p1, e + 8, next);
            RecordsLocal(p, p1, next, n - 1);
            TtlsOfFirst(RrAt(p, off, e), Records(p, next, n - 1), ttl);
          } else {
            StillShort(p, q, e);
          }
        }
      }
    }
  }

  lemma NoRecords(p: seq<byte>, off: nat)
    ensures Records(p, off, 0) == []
  {
  }

  lemma NoTtls(ttl: nat)
    requires ttl <= NO_TTL
    ensures AllTtls([], ttl) == []
  {
  }

  lemma TtlsOfFirst(r: Rr, rs: seq<Rr>, ttl: nat)
    requires ttl <= NO_TTL
    ensures AllTtls([r] + rs, ttl) == [r.(ttl := Put32(ttl))] + AllTtls(rs, ttl)
  {
    assert ([r] + rs)[1..] == rs;
  }

  lemma SkipPast(p: seq<byte>, off: nat)
    ensures off >= |p| ==> SkipName(p, off).None?
  {
  }

  lemma NotContinued(p: seq<byte>, e: nat)
    ensures e + 10 > |p| ==> !Continues(p, e)
  {
  }

  lemma WithTtlLocal(p: seq<byte>, e: nat, ttl: nat)
    requires e + 10 <= |p| && ttl <= NO_TTL
    ensures var p1 := WithTtl(p, e, ttl);
            AgreeBefore(p, p1, e) && AgreeFrom(p, p1, e + 8) && Get16(p1, e + 8) == Get16(p, e + 8) &&
            (Continues(p, e) ==> RecordEnd(p, e) == e + 10 + Get16(p1, e + 8))
  {
  }

  lemma FrontAgrees(p: seq<byte>, p1: seq<byte>, q: seq<byte>, e: nat, next: nat)
    requires AgreeBefore(p, p1, e) && AgreeBefore(p1, q, next) && AgreeFrom(p, p1, e + 8) && e + 10 <= next &&
             e + 10 <= |p|
    ensures AgreeBefore(p, q, e) && p[e + 8] == q[e + 8] && p[e + 9] == q[e + 9]
  {
  }

  lemma StillShort(p: seq<byte>, q: seq<byte>, e: nat)
    requires |p| == |q| && e + 10 <= |p| && p[e + 8] == q[e + 8] && p[e + 9] == q[e + 9] && !Continues(p, e)
    ensures !Continues(q, e)
  {
  }
}
