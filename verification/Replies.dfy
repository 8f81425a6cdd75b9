/** The replies the device builds itself: blocked and rewritten answers of the socket
    path (main/dns_server.cpp, main/dns_server.h) and the blocked answer the L2 hook
    builds on its own (main/dns_sink.cpp). */
module Replies {
  import opened Bytes
  import opened Domain
  import opened Wire
  import opened CaseScrub
  import opened Ttl

  const BLOCKED_TTL: nat := 10
  const REWRITE_TTL: nat := 300
  const NXDOMAIN_FLAGS: nat := 0x8403

  // ---------- The flags word

  /** dns_resp_flags. */
  function RespFlags(q: nat, rcode: nat): (f: nat)
    requires q < 0x1_0000 && rcode < 16
    ensures f < 0x1_0000
  {
    0x8000 + q / 0x800 % 16 * 0x800 + 0x400 + q / 0x100 % 2 * 0x100 + 0x80 + rcode
  }

  /** A response, authoritative and not truncated, with recursion available, and with the
      query's opcode and recursion-desired bit. */
  lemma FlagsEchoTheQuery(q: nat, rcode: nat)
    requires q < 0x1_0000 && rcode < 16
    ensures var f := RespFlags(q, rcode);
            f / 0x8000 == 1 && f / 0x400 % 2 == 1 && f / 0x200 % 2 == 0 && f / 0x80 % 2 == 1 &&
            f / 0x800 % 16 == q / 0x800 % 16 && f / 0x100 % 2 == q / 0x100 % 2 && f % 16 == rcode
  {
    var op, rd := q / 0x800 % 16, q / 0x100 % 2;
    var f := RespFlags(q, rcode);
    var low := 0x400 + rd * 0x100 + 0x80 + rcode;
    assert f == (16 + op) * 0x800 + low;
    hide RespFlags;
    Quotient(f, 0x800, 16 + op, low);
    Quotient(f, 0x400, (16 + op) * 2 + 1, low - 0x400);
    Quotient(f, 0x200, (16 + op) * 4 + 2, low - 0x400);
    Quotient(f, 0x100, (16 + op) * 8 + 4 + rd, 0x80 + rcode);
    Quotient(f, 0x80, (16 + op) * 16 + 8 + 2 * rd + 1, rcode);
    Quotient(f, 16, (16 + op) * 128 + 64 + 16 * rd + 8, rcode);
  }

  lemma Quotient(f: nat, m: nat, x: nat, r: nat)
    requires m in {0x800, 0x400, 0x200, 0x100, 0x80, 16} && f == x * m + r && r < m
    ensures f / m == x && f % m == r
  {
  }

  // ---------- Blocked and rewritten answers

  /** The header and question of a query with new flags and counts. */
  function WithHeader(q: seq<byte>, flags: nat, answers: nat): (r: seq<byte>)
    requires |q| >= 12 && flags < 0x1_0000 && answers < 0x1_0000
    ensures |r| == |q|
  {
    q[..2] + Put16(flags) + q[4..6] + Put16(answers) + [0, 0, 0, 0] + q[12..]
  }

  /** One record that names the question by a pointer. */
  function AnswerRr(qtype: nat, ttl: nat, rdata: seq<byte>): (r: seq<byte>)
    requires qtype < 0x1_0000 && ttl <= NO_TTL && |rdata| < 0x1_0000
    ensures |r| == 12 + |rdata|
  {
    [0xC0, 0x0C] + Put16(qtype) + [0, 1] + Put32(ttl) + Put16(|rdata|) + rdata
  }

  function Answered(q: seq<byte>, qtype: nat, ttl: nat, rdata: seq<byte>): (r: seq<byte>)
    requires |q| >= 12 && qtype < 0x1_0000 && ttl <= NO_TTL && |rdata| < 0x1_0000
    ensures |r| == |q| + 12 + |rdata|
  {
    WithHeader(q, RespFlags(Get16(q, 2), 0), 1) + AnswerRr(qtype, ttl, rdata)
  }

  /** How many zero bytes stand for "nowhere" in a record of this type. */
  function Nowhere(qtype: nat): nat {
    if qtype == 28 then 16 else 4
  }

  /** The blocked reply to a query cut behind its question. */
  function Blocked(q: seq<byte>, qtype: nat): seq<byte>
    requires |q| >= 12
  {
    if qtype == 1 || qtype == 28 then Answered(q, qtype, BLOCKED_TTL, Zeros(Nowhere(qtype)))
    else WithHeader(q, NXDOMAIN_FLAGS, 0)
  }

  /** The same, or None where it does not fit. */
  function BlockedWithin(q: seq<byte>, qtype: nat, cap: nat): Option<seq<byte>> {
    if |q| < 12 || |Blocked(q, qtype)| > cap then None else Some(Blocked(q, qtype))
  }

  function Address(ip: nat): (a: seq<byte>)
    requires ip <= NO_TTL
    ensures |a| == 4
  {
    Put32(ip)
  }

  function RewrittenWithin(q: seq<byte>, ip: nat, cap: nat): Option<seq<byte>>
    requires ip <= NO_TTL
  {
    if |q| < 12 || |q| + 16 > cap then None else Some(Answered(q, 1, REWRITE_TTL, Address(ip)))
  }

  /** Writes s into out at an offset. */
  method Copy(out: array<byte>, at: nat, s: seq<byte>)
    requires at + |s| <= out.Length
    modifies out
    ensures out[..at] == old(out[..at]) && out[at..at + |s|] == s
    ensures out[at + |s|..] == old(out[at + |s|..])
  {
    forall i | 0 <= i < |s| {
      out[at + i] := s[i];
    }
  }

  lemma WithHeaderAt(q: seq<byte>, flags: nat, answers: nat, i: nat)
    requires |q| >= 12 && flags < 0x1_0000 && answers < 0x1_0000 && i < |q|
    ensures WithHeader(q, flags, answers)[i] ==
            if i == 2 then flags / 256 else if i == 3 then flags % 256
            else if i == 6 then answers / 256 else if i == 7 then answers % 256
            else if 8 <= i < 12 then 0 else q[i]
  {
  }

  /** Sets the flags and the counts of the n-byte message at at, in place. */
  method PutHeader(out: array<byte>, at: nat, n: nat, flags: nat, answers: nat)
    requires n >= 12 && at + n <= out.Length && flags < 0x1_0000 && answers < 0x1_0000
    modifies out
    ensures out[..at] == old(out[..at]) && out[at..at + n] == WithHeader(old(out[at..at + n]), flags, answers)
  {
    ghost var q := out[at..at + n];
    out[at + 2], out[at + 3] := flags / 256, flags % 256;
    out[at + 6], out[at + 7] := answers / 256, answers % 256;
    out[at + 8], out[at + 9], out[at + 10], out[at + 11] := 0, 0, 0, 0;
    hide WithHeader;
    forall i | 0 <= i < n ensures out[at..at + n][i] == WithHeader(q, flags, answers)[i] {
      WithHeaderAt(q, flags, answers, i);
    }
  }

  lemma Joined(s: seq<byte>, lo: nat, mid: nat, hi: nat)
    requires lo <= mid <= hi <= |s|
    ensures s[lo..hi] == s[lo..mid] + s[mid..hi]
  {
  }

  /** build_blocked_a and build_blocked_aaaa. The new length, or -1. */
  method BuildBlockedAddress(query: array<byte>, qlen: nat, qtype: nat, out: array<byte>, cap: nat) returns (n: int)
    requires query != out && qlen <= query.Length && cap <= out.Length && (qtype == 1 || qtype == 28)
    modifies out
    ensures n < 0 <==> BlockedWithin(query[..qlen], qtype, cap).None?
    ensures n >= 0 ==> n <= out.Length && BlockedWithin(query[..qlen], qtype, cap) == Some(out[..n])
  {
    hide WithHeader, AnswerRr, RespFlags;
    var rdlen := if qtype == 28 then 16 else 4;
    if qlen < 12 || cap < qlen + 12 + rdlen {
      return -1;
    }
    Copy(out, 0, query[..qlen]);
    PutHeader(out, 0, qlen, RespFlags(query[2] as int * 256 + query[3], 0), 1);
    Copy(out, qlen, AnswerRr(qtype, BLOCKED_TTL, Zeros(rdlen)));
    n := qlen + 12 + rdlen;
    Joined(out[..], 0, qlen, n);
  }

  /** build_blocked_any: an address of nowhere, or NXDOMAIN for other types. */
  method BuildBlockedAny(query: array<byte>, qend: nat, qtype: nat, out: array<byte>, cap: nat) returns (n: int)
    requires query != out && qend <= query.Length && cap <= out.Length
    modifies out
    ensures n < 0 <==> BlockedWithin(query[..qend], qtype, cap).None?
    ensures n >= 0 ==> n <= out.Length && BlockedWithin(query[..qend], qtype, cap) == Some(out[..n])
  {
    hide WithHeader, AnswerRr, RespFlags;
    if qtype == 1 || qtype == 28 {
      n := BuildBlockedAddress(query, qend, qtype, out, cap);
      return;
    }
    if qend < 12 || qend > cap {
      return -1;
    }
    Copy(out, 0, query[..qend]);
    PutHeader(out, 0, qend, NXDOMAIN_FLAGS, 0);
    n := qend;
  }

  /** build_rewrite_a. */
  method BuildRewriteA(query: array<byte>, qend: nat, ip: nat, out: array<byte>, cap: nat) returns (n: int)
    requires query != out && qend <= query.Length && cap <= out.Length && ip <= NO_TTL
    modifies out
    ensures n < 0 <==> RewrittenWithin(query[..qend], ip, cap).None?
    ensures n >= 0 ==> n <= out.Length && RewrittenWithin(query[..qend], ip, cap) == Some(out[..n])
  {
    hide WithHeader, AnswerRr, RespFlags, Address;
    if qend < 12 || qend + 16 > cap {
      return -1;
    }
    Copy(out, 0, query[..qend]);
    PutHeader(out, 0, qend, RespFlags(query[2] as int * 256 + query[3], 0), 1);
    Copy(out, qend, AnswerRr(1, REWRITE_TTL, Address(ip)));
    n := qend + 16;
    Joined(out[..], 0, qend, n);
  }

  /** The record l2_input_cb writes byte by byte behind the question. */
  function L2Record(qtype: nat): (r: seq<byte>)
    requires qtype == 1 || qtype == 28
    ensures r == AnswerRr(qtype, BLOCKED_TTL, Zeros(Nowhere(qtype)))
  {
    [0xC0, 0x0C, qtype / 256, qtype % 256, 0, 1, 0, 0, 0, 10, Nowhere(qtype) / 256, Nowhere(qtype) % 256] +
    Zeros(Nowhere(qtype))
  }

  /** The blocked answer of l2_input_cb: built in place behind the copied frame headers,
      in tx, for the DNS message at dns. The frame length, or -1 where it does not fit. */
  method BuildBlockedFrame(buf: array<byte>, dns: nat, qend: nat, qtype: nat, tx: array<byte>) returns (frame: int)
    requires buf != tx && 12 <= qend && dns + qend <= buf.Length && (qtype == 1 || qtype == 28)
    modifies tx
    ensures frame < 0 <==> dns + |Blocked(buf[dns..dns + qend], qtype)| > tx.Length
    ensures frame >= 0 ==>
              dns <= frame <= tx.Length && tx[..dns] == buf[..dns] &&
              tx[dns..frame] == Blocked(buf[dns..dns + qend], qtype)
  {
    hide WithHeader, AnswerRr, RespFlags, L2Record;
    var rdlen := if qtype == 28 then 16 else 4;
    frame := dns + qend + 12 + rdlen;
    if frame > tx.Length {
      return -1;
    }
    var flags := RespFlags(buf[dns + 2] as int * 256 + buf[dns + 3], 0);
    ghost var q := buf[dns..dns + qend];
    assert q[2] == buf[dns + 2] && q[3] == buf[dns + 3];
    Copy(tx, 0, buf[..dns + qend]);
    ghost var copied := tx[..];
    PutHeader(tx, dns, qend, flags, 1);
    ghost var headed := tx[..];
    Copy(tx, dns + qend, L2Record(qtype));
    FrameParts(copied, headed, tx[..], buf[..], dns, qend, WithHeader(q, flags, 1), L2Record(qtype));
  }

  lemma FrameParts(copied: seq<byte>, headed: seq<byte>, done: seq<byte>, buf: seq<byte>, dns: nat, qend: nat,
                   h: seq<byte>, rr: seq<byte>)
    requires |copied| == |headed| == |done| && dns + qend <= |buf| && |h| == qend && dns + qend + |rr| <= |done|
    requires copied[0..dns + qend] == buf[..dns + qend]
    requires headed[..dns] == copied[..dns] && headed[dns..dns + qend] == h
    requires done[..dns + qend] == headed[..dns + qend] && done[dns + qend..dns + qend + |rr|] == rr
    ensures copied[dns..dns + qend] == buf[dns..dns + qend]
    ensures done[..dns] == buf[..dns] && done[dns..dns + qend + |rr|] == h + rr
  {
    SliceOfSlice(copied, 0, dns + qend, dns, dns + qend);
    SliceOfSlice(buf, 0, dns + qend, dns, dns + qend);
    SliceOfSlice(copied, 0, dns + qend, 0, dns);
    SliceOfSlice(buf, 0, dns + qend, 0, dns);
    SliceOfSlice(done, 0, dns + qend, dns, dns + qend);
    SliceOfSlice(headed, 0, dns + qend, dns, dns + qend);
    SliceOfSlice(done, 0, dns + qend, 0, dns);
    SliceOfSlice(headed, 0, dns + qend, 0, dns);
    Joined(done, dns, dns + qend, dns + qend + |rr|);
  }

  // ---------- What a built answer says

  lemma {:induction false} WalkStands(p: seq<byte>, q: seq<byte>, off: nat, raw: seq<byte>)
    requires WalkLabels(p, off, raw).Some?
    requires WalkLabels(p, off, raw).value.1 < |q|
    requires forall i :: off <= i <= WalkLabels(p, off, raw).value.1 ==> q[i] == p[i]
    ensures WalkLabels(q, off, raw) == WalkLabels(p, off, raw)
    decreases |p| - off
  {
    var l: int := p[off];
    if l != 0 {
      assert p[off + 1..off + 1 + l] == q[off + 1..off + 1 + l];
      WalkStands(p, q, off + 1 + l, JoinLabel(raw, p[off + 1..off + 1 + l]));
    }
  }

  /** A packet with the same bytes where the question stands asks the same. */
  lemma QuestionStands(p: seq<byte>, q: seq<byte>, off: nat)
    requires Question(p, off).Some? && Question(p, off).value.1 <= |q|
    requires forall i :: off <= i < Question(p, off).value.1 ==> q[i] == p[i]
    ensures Question(q, off) == Question(p, off)
  {
    WalkStands(p, q, off, []);
    hide WalkLabels;
  }

  lemma {:induction false} WalkExpands(p: seq<byte>, at: nat, jumps: nat, end: nat, raw: seq<byte>)
    requires WalkLabels(p, at, raw).Some? && jumps <= MAX_JUMPS
    ensures Expand(p, at, jumps, Some(end), raw) == Some((WalkLabels(p, at, raw).value.0, end))
    decreases |p| - at
  {
    var l: int := p[at];
    if l != 0 {
      WalkExpands(p, at + 1 + l, jumps, end, JoinLabel(raw, p[at + 1..at + 1 + l]));
    }
  }

  /** A pointer to the question reads as the question's name. */
  lemma PointerReadsQuestion(p: seq<byte>, at: nat)
    requires Question(p, 12).Some? && 12 < at && at + 2 <= |p| && p[at] == 0xC0 && p[at + 1] == 0x0C
    ensures Decompress(p, at) == Some((Question(p, 12).value.0, at + 2))
  {
    assert Target(p, at) == 12;
    WalkExpands(p, 12, 1, at + 2, []);
    hide WalkLabels;
    assert Expand(p, at, 0, None, []) == Expand(p, 12, 1, Some(at + 2), []);
  }

  lemma AnswerRrFields(qtype: nat, ttl: nat, rdata: seq<byte>)
    requires qtype < 0x1_0000 && ttl <= NO_TTL && |rdata| < 0x1_0000
    ensures var rr := AnswerRr(qtype, ttl, rdata);
            rr[0] == 0xC0 && rr[1] == 0x0C && Get16(rr, 2) == qtype && Get16(rr, 4) == 1 &&
            rr[6..10] == Put32(ttl) && Get16(rr, 10) == |rdata| && rr[12..12 + |rdata|] == rdata
  {
    hide Put32;
  }

  lemma RrSpliced(r: seq<byte>, n: nat, rr: seq<byte>)
    requires n + |rr| == |r| && r[n..] == rr && |rr| >= 12 && rr[0] >= 192
    requires |rr| == 12 + Get16(rr, 10)
    ensures SkipName(r, n) == Some(n + 2)
    ensures Records(r, n, 1) == [Rr(n, n + 2, Get16(rr, 2), Get16(rr, 4), rr[6..10], rr[12..|rr|])]
  {
    assert forall i :: 0 <= i < |rr| ==> r[n + i] == rr[i];
    assert SkipName(r, n) == Some(n + 2);
    hide SkipName;
    assert Get16(r, n + 10) == Get16(rr, 10);
    assert Continues(r, n + 2) && RecordEnd(r, n + 2) == |r|;
    RecordsUnfold(r, n, 1);
    NoRecords(r, |r|);
    assert r[n + 6..n + 10] == rr[6..10];
    assert r[n + 12..|r|] == rr[12..|rr|];
  }

  /** A built answer repeats the question and holds one record: owned by the question's
      name, of the type asked, with the TTL and data given. */
  lemma AnswerSaysWhatItMeans(q: seq<byte>, qtype: nat, ttl: nat, rdata: seq<byte>)
    requires Question(q, 12).Some? && Question(q, 12).value.1 == |q|
    requires qtype < 0x1_0000 && ttl <= NO_TTL && |rdata| < 0x1_0000
    ensures var r := Answered(q, qtype, ttl, rdata);
            r[..2] == q[..2] && Question(r, 12) == Question(q, 12) &&
            Decompress(r, |q|) == Some((Question(q, 12).value.0, |q| + 2)) &&
            Get16(r, 6) == 1 && Records(r, |q|, 1) == [Rr(|q|, |q| + 2, qtype, 1, Put32(ttl), rdata)]
  {
    assert NO_TTL == 0xFFFF_FFFF;
    hide *;
    var flags := RespFlags(Get16(q, 2), 0);
    var h, rr := WithHeader(q, flags, 1), AnswerRr(qtype, ttl, rdata);
    AnsweredIs(q, qtype, ttl, rdata);
    HeaderKeepsQuestion(q, flags, 1);
    AnswerRrFields(qtype, ttl, rdata);
    SplicedQuestion(q, h, rr);
    RrSpliced(h + rr, |q|, rr);
  }

  lemma AnsweredIs(q: seq<byte>, qtype: nat, ttl: nat, rdata: seq<byte>)
    requires |q| >= 12 && qtype < 0x1_0000 && ttl <= NO_TTL && |rdata| < 0x1_0000
    ensures Answered(q, qtype, ttl, rdata) ==
            WithHeader(q, RespFlags(Get16(q, 2), 0), 1) + AnswerRr(qtype, ttl, rdata)
  {
  }

  lemma HeaderKeepsQuestion(q: seq<byte>, flags: nat, answers: nat)
    requires |q| >= 12 && flags < 0x1_0000 && answers < 0x1_0000
    ensures var h := WithHeader(q, flags, answers);
            h[..2] == q[..2] && h[12..] == q[12..] && Get16(h, 6) == answers
  {
  }

  lemma SplicedQuestion(q: seq<byte>, h: seq<byte>, rr: seq<byte>)
    requires Question(q, 12).Some? && Question(q, 12).value.1 == |q| == |h| && |rr| >= 12
    requires h[..2] == q[..2] && h[12..] == q[12..] && rr[0] == 0xC0 && rr[1] == 0x0C
    ensures var r := h + rr;
            r[..2] == q[..2] && r[|q|..] == rr && Get16(r, 6) == Get16(h, 6) &&
            Question(r, 12) == Question(q, 12) && Decompress(r, |q|) == Some((Question(q, 12).value.0, |q| + 2))
  {
    var r := h + rr;
    forall i | 12 <= i < |q| ensures r[i] == q[i] {
      assert h[12..][i - 12] == q[12..][i - 12];
    }
    hide Question, Decompress;
    QuestionStands(q, r, 12);
    PointerReadsQuestion(r, |q|);
  }

  /** What every blocked reply tells the client. */
  lemma BlockedSaysNowhere(q: seq<byte>, qtype: nat)
    requires Question(q, 12).Some? && Question(q, 12).value.1 == |q|
    ensures var r := Blocked(q, qtype);
            |r| >= 12 && r[..2] == q[..2] && Question(r, 12) == Question(q, 12) &&
            (qtype == 1 || qtype == 28 ==>
               Get16(r, 6) == 1 && Records(r, |q|, 1) ==
                 [Rr(|q|, |q| + 2, qtype, 1, Put32(10), Zeros(Nowhere(qtype)))]) &&
            (qtype != 1 && qtype != 28 ==> Get16(r, 6) == 0 && r[3] % 16 == 3)
  {
    hide Question, WithHeader, Answered, Records, WalkLabels;
    if qtype == 1 || qtype == 28 {
      AnswerSaysWhatItMeans(q, qtype, BLOCKED_TTL, Zeros(Nowhere(qtype)));
    } else {
      var r := WithHeader(q, NXDOMAIN_FLAGS, 0);
      HeaderKeepsQuestion(q, NXDOMAIN_FLAGS, 0);
      WithHeaderAt(q, NXDOMAIN_FLAGS, 0, 3);
      forall i | 12 <= i < |q| ensures r[i] == q[i] {
        assert r[12..][i - 12] == q[12..][i - 12];
      }
      QuestionStands(q, r, 12);
    }
  }
}
