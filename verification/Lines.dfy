/** The carry-buffer line splitter of main/http_fetch.c: which lines a byte stream
    dispatches, and when that depends on how the stream was cut into chunks. */
module Lines {
  import opened Bytes

  const CARRY_SIZE: nat := 256
  const NL: byte := 10
  const CR: byte := 13
  const SPACE: byte := 32

  // ---------- dispatch_line

  function StripEnd(s: seq<byte>): (t: seq<byte>)
    ensures t <= s
  {
    if s != [] && (s[|s| - 1] == CR || s[|s| - 1] == SPACE) then StripEnd(s[..|s| - 1]) else s
  }

  predicate IsSkipped(line: seq<byte>) {
    line == [] || line[0] == 33 || line[0] == 35
  }

  /** What the callback receives for one line: nothing, or one stripped line. */
  function Deliver(line: seq<byte>): seq<seq<byte>> {
    if IsSkipped(line) || StripEnd(line) == [] then [] else [StripEnd(line)]
  }

  /** The part of a line that fits the carry buffer. */
  function Cut(s: seq<byte>): seq<byte> {
    if |s| < CARRY_SIZE then s else s[..CARRY_SIZE - 1]
  }

  // ---------- What the handler computes

  function FirstNl(s: seq<byte>): (n: nat)
    ensures n <= |s| && (n < |s| ==> s[n] == NL)
  {
    if s == [] || s[0] == NL then 0 else FirstNl(s[1..]) + 1
  }

  /** One chunk: the carry it leaves and the lines it delivers. */
  function FeedChunk(carry: seq<byte>, s: seq<byte>): (seq<byte>, seq<seq<byte>>)
    decreases |s|
  {
    var n := FirstNl(s);
    if n == |s| then (Cut(carry + s), [])
    else
      var line := if carry == [] then s[..n] else Cut(carry + s[..n]);
      var (c, out) := FeedChunk([], s[n + 1..]);
      (c, Deliver(line) + out)
  }

  function FeedAll(carry: seq<byte>, chunks: seq<seq<byte>>): (seq<byte>, seq<seq<byte>>)
    decreases |chunks|
  {
    if chunks == [] then (carry, [])
    else
      var (c, out) := FeedChunk(carry, chunks[0]);
      var (d, more) := FeedAll(c, chunks[1..]);
      (d, out + more)
  }

  /** A whole fetch: every chunk, then the unterminated last line. */
  function Dispatched(chunks: seq<seq<byte>>): seq<seq<byte>> {
    var (carry, out) := FeedAll([], chunks);
    out + Deliver(carry)
  }

  /** The lines of what was received: the last one only if the transfer ended well. */
  function Received(chunks: seq<seq<byte>>, ok: bool): seq<seq<byte>> {
    if ok then Dispatched(chunks) else FeedAll([], chunks).1
  }

  /** The lines the callback is called with, if it asks to stop at its call number stopAt. */
  function Heard(all: seq<seq<byte>>, stopAt: nat): (r: seq<seq<byte>>)
    ensures r <= all
  {
    if |all| <= stopAt then all else all[..stopAt + 1]
  }

  // ---------- The handler

  /** With start lines delivered before the chunk, the handler has come as far as
      carried and lines, and rest is still to be looked at. */
  ghost predicate Midway(carry: seq<byte>, chunk: seq<byte>, start: seq<seq<byte>>,
                         carried: seq<byte>, lines: seq<seq<byte>>, rest: seq<byte>) {
    FeedChunk(carried, rest).0 == FeedChunk(carry, chunk).0 &&
    lines + FeedChunk(carried, rest).1 == start + FeedChunk(carry, chunk).1
  }

  /** The line a newline at n ends. */
  function EndedLine(carried: seq<byte>, rest: seq<byte>, n: nat): seq<byte>
    requires n <= |rest|
  {
    if carried == [] then rest[..n] else Cut(carried + rest[..n])
  }

  lemma MidwayStart(carry: seq<byte>, chunk: seq<byte>, start: seq<seq<byte>>)
    ensures Midway(carry, chunk, start, carry, start, chunk)
  {
  }

  lemma MidwayEnd(carry: seq<byte>, chunk: seq<byte>, start: seq<seq<byte>>, carried: seq<byte>, lines: seq<seq<byte>>)
    requires Midway(carry, chunk, start, carried, lines, []) && |carried| < CARRY_SIZE
    ensures FeedChunk(carry, chunk).0 == carried && lines == start + FeedChunk(carry, chunk).1
  {
    assert FirstNl([]) == 0 && carried + [] == carried;
    MidwayRest(carry, chunk, start, carried, lines, []);
  }

  lemma MidwayLine(carry: seq<byte>, chunk: seq<byte>, start: seq<seq<byte>>,
                   carried: seq<byte>, lines: seq<seq<byte>>, rest: seq<byte>)
    requires Midway(carry, chunk, start, carried, lines, rest) && FirstNl(rest) < |rest|
    ensures var n := FirstNl(rest);
            Midway(carry, chunk, start, [], lines + Deliver(EndedLine(carried, rest, n)), rest[n + 1..])
  {
    hide FeedChunk, FirstNl, Deliver, EndedLine;
    FeedUnfold(carried, rest);
    var n := FirstNl(rest);
    Reassociate(lines, Deliver(EndedLine(carried, rest, n)), FeedChunk([], rest[n + 1..]).1);
  }

  lemma Reassociate<T>(a: seq<T>, b: seq<T>, c: seq<T>)
    ensures a + (b + c) == (a + b) + c
  {
  }

  lemma FeedUnfold(carry: seq<byte>, s: seq<byte>)
    ensures var n := FirstNl(s);
            FeedChunk(carry, s) ==
            if n == |s| then (Cut(carry + s), [])
            else (FeedChunk([], s[n + 1..]).0, Deliver(EndedLine(carry, s, n)) + FeedChunk([], s[n + 1..]).1)
  {
    hide FirstNl, Deliver;
  }

  lemma MidwayRest(carry: seq<byte>, chunk: seq<byte>, start: seq<seq<byte>>,
                   carried: seq<byte>, lines: seq<seq<byte>>, rest: seq<byte>)
    requires Midway(carry, chunk, start, carried, lines, rest) && FirstNl(rest) == |rest|
    ensures FeedChunk(carry, chunk).0 == Cut(carried + rest)
    ensures lines == start + FeedChunk(carry, chunk).1
  {
    hide FeedChunk, FirstNl;
    FeedUnfold(carried, rest);
    assert lines + [] == lines;
  }

  /** What handling a chunk comes to: the lines the callback hears, and the carry unless it
      asked to stop. */
  ghost predicate Handled(carry: seq<byte>, chunk: seq<byte>, start: seq<seq<byte>>,
                          carried: seq<byte>, lines: seq<seq<byte>>, stopAt: nat) {
    var (c, out) := FeedChunk(carry, chunk);
    lines == Heard(start + out, stopAt) && (|lines| <= stopAt ==> carried == c)
  }

  lemma HandledRest(carry: seq<byte>, chunk: seq<byte>, start: seq<seq<byte>>,
                    carried: seq<byte>, lines: seq<seq<byte>>, rest: seq<byte>, stopAt: nat)
    requires Midway(carry, chunk, start, carried, lines, rest) && FirstNl(rest) == |rest| && |lines| <= stopAt
    ensures Handled(carry, chunk, start, Cut(carried + rest), lines, stopAt)
  {
    hide FeedChunk, FirstNl, Midway;
    MidwayRest(carry, chunk, start, carried, lines, rest);
  }

  lemma HandledEnd(carry: seq<byte>, chunk: seq<byte>, start: seq<seq<byte>>, carried: seq<byte>,
                   lines: seq<seq<byte>>, rest: seq<byte>, stopAt: nat)
    requires Midway(carry, chunk, start, carried, lines, rest) && |carried| < CARRY_SIZE && |lines| <= stopAt + 1
    requires |lines| <= stopAt ==> rest == []
    ensures Handled(carry, chunk, start, carried, lines, stopAt)
  {
    hide FeedChunk;
    if |lines| <= stopAt {
      MidwayEnd(carry, chunk, start, carried, lines);
    }
  }

  /** stopAt is the call at which the callback asks to stop. */
  class Splitter {
    const carry: array<byte>
    const stopAt: nat
    var carryLen: nat
    var lines: seq<seq<byte>>
    var aborted: bool

    ghost predicate Valid()
      reads this, carry
    {
      carry.Length == CARRY_SIZE && carryLen < CARRY_SIZE && |lines| <= stopAt + 1 &&
      (aborted <==> |lines| > stopAt)
    }

    ghost function Carried(): seq<byte>
      requires Valid()
      reads this, carry
    {
      carry[..carryLen]
    }

    constructor (stopAt: nat)
      ensures Valid() && Carried() == [] && lines == [] && !aborted && this.stopAt == stopAt && fresh(carry)
    {
      this.stopAt := stopAt;
      carry := new byte[CARRY_SIZE];
      carryLen, lines, aborted := 0, [], false;
    }

    method DispatchLine(line: seq<byte>)
      requires Valid() && !aborted
      modifies this`lines, this`aborted
      ensures Valid() && lines == old(lines) + Deliver(line)
    {
      if |line| == 0 || line[0] == 33 || line[0] == 35 {
        return;
      }
      var n := |line|;
      assert line[..n] == line;
      while n > 0 && (line[n - 1] == CR || line[n - 1] == SPACE)
        invariant 0 <= n <= |line| && StripEnd(line) == StripEnd(line[..n])
      {
        assert line[..n][..n - 1] == line[..n - 1];
        n := n - 1;
      }
      if n == 0 {
        return;
      }
      lines := lines + [line[..n]];
      if |lines| > stopAt {
        aborted := true;
      }
    }

    /** Appends s to the carry, as far as it fits. */
    method Append(s: seq<byte>)
      requires Valid()
      modifies this`carryLen, carry
      ensures Valid() && Carried() == Cut(old(Carried()) + s)
    {
      ghost var before := Carried();
      var take := |s|;
      if carryLen + take >= CARRY_SIZE {
        take := CARRY_SIZE - carryLen - 1;
      }
      forall i | 0 <= i < take {
        carry[carryLen + i] := s[i];
      }
      carryLen := carryLen + take;
      assert carry[..carryLen] == before + s[..take];
    }

    /** A newline at n: the carry, if any, and the bytes before the newline make a line. */
    method EndLine(rest: seq<byte>, n: nat)
      requires Valid() && !aborted && n <= |rest|
      modifies this, carry
      ensures Valid() && Carried() == [] && lines == old(lines) + Deliver(EndedLine(old(Carried()), rest, n))
    {
      hide Deliver;
      if carryLen > 0 {
        Append(rest[..n]);
        DispatchLine(carry[..carryLen]);
        carryLen := 0;
      } else {
        DispatchLine(rest[..n]);
      }
    }

    /** The data event of http_event_handler: nothing more once the callback asked to stop. */
    method OnData(chunk: seq<byte>)
      requires Valid()
      modifies this, carry
      ensures Valid()
      ensures old(aborted) ==> aborted && lines == old(lines)
      ensures !old(aborted) ==> Handled(old(Carried()), chunk, old(lines), Carried(), lines, stopAt)
    {
      if aborted {
        return;
      }
      ghost var carry0, start := Carried(), lines;
      hide *;
      MidwayStart(carry0, chunk, start);
      var rest := chunk;
      while |rest| > 0 && !aborted
        invariant Valid() && Midway(carry0, chunk, start, Carried(), lines, rest)
        decreases |rest|
      {
        var n := FirstNl(rest);
        if n == |rest| {
          HandledRest(carry0, chunk, start, Carried(), lines, rest, stopAt);
          Append(rest);
          return;
        }
        MidwayLine(carry0, chunk, start, Carried(), lines, rest);
        EndLine(rest, n);
        rest := rest[n + 1..];
      }
      HandledEnd(carry0, chunk, start, Carried(), lines, rest, stopAt);
    }

    /** The flush of an unterminated last line. */
    method Flush()
      requires Valid()
      modifies this
      ensures Valid() && lines == old(lines) + if old(aborted) then [] else Deliver(old(Carried()))
    {
      if carryLen > 0 && !aborted {
        DispatchLine(carry[..carryLen]);
      }
    }
  }

  // ---------- A whole fetch

  /** With the first chunks of all behind it, the handler has delivered lines and holds
      carried, or was stopped. */
  ghost predicate FedTo(all: seq<seq<byte>>, carried: seq<byte>, lines: seq<seq<byte>>, rest: seq<seq<byte>>,
                        stopAt: nat)
  {
    var (c, out) := FeedAll([], all);
    var (d, more) := FeedAll(carried, rest);
    if |lines| > stopAt then lines == Heard(out, stopAt) && |out| > stopAt else c == d && out == lines + more
  }

  lemma FedStart(all: seq<seq<byte>>, stopAt: nat)
    ensures FedTo(all, [], [], all, stopAt)
  {
    hide FeedAll;
  }

  lemma FedStep(all: seq<seq<byte>>, carried: seq<byte>, lines: seq<seq<byte>>, rest: seq<seq<byte>>, stopAt: nat,
                carried': seq<byte>, lines': seq<seq<byte>>)
    requires FedTo(all, carried, lines, rest, stopAt) && |lines| <= stopAt && rest != []
    requires Handled(carried, rest[0], lines, carried', lines', stopAt)
    ensures FedTo(all, carried', lines', rest[1..], stopAt)
  {
    var (c, out) := FeedChunk(carried, rest[0]);
    var (d, more) := FeedAll(c, rest[1..]);
    assert FeedAll(carried, rest) == (d, out + more);
    hide FeedAll, FeedChunk;
    Reassociate(lines, out, more);
    assert |lines + out| > stopAt ==> (lines + out + more)[..stopAt + 1] == (lines + out)[..stopAt + 1];
  }

  lemma FedEnd(all: seq<seq<byte>>, carried: seq<byte>, lines: seq<seq<byte>>, stopAt: nat)
    requires FedTo(all, carried, lines, [], stopAt)
    ensures var (c, out) := FeedAll([], all);
            if |lines| > stopAt then lines == Heard(out, stopAt) && |out| > stopAt else c == carried && out == lines
  {
    assert FeedAll(carried, []) == (carried, []);
    assert lines + [] == lines;
    hide FeedAll;
  }

  /** http_fetch_lines_ex on the chunks a transfer delivers; ok is that it ended with
      status 200. */
  method FetchLines(chunks: seq<seq<byte>>, ok: bool, stopAt: nat) returns (lines: seq<seq<byte>>, good: bool)
    ensures lines == Heard(Received(chunks, ok), stopAt)
    ensures good == (ok && |Received(chunks, ok)| <= stopAt)
  {
    hide FeedAll, FeedChunk, FedTo, Deliver, Handled;
    var s := new Splitter(stopAt);
    FedStart(chunks, stopAt);
    assert chunks[0..] == chunks;
    for i := 0 to |chunks|
      invariant s.Valid() && fresh(s) && fresh(s.carry) && s.stopAt == stopAt
      invariant FedTo(chunks, s.Carried(), s.lines, chunks[i..], stopAt)
    {
      ghost var carried, before := s.Carried(), s.lines;
      ghost var stopped := s.aborted;
      s.OnData(chunks[i]);
      assert chunks[i..][1..] == chunks[i + 1..];
      if stopped {
        FedStopped(chunks, carried, before, chunks[i..], stopAt, s.Carried(), chunks[i + 1..]);
      } else {
        FedStep(chunks, carried, before, chunks[i..], stopAt, s.Carried(), s.lines);
      }
    }
    assert chunks[|chunks|..] == [];
    FedEnd(chunks, s.Carried(), s.lines, stopAt);
    if !ok {
      return s.lines, false;
    }
    ghost var before := s.lines;
    s.Flush();
    LastHeard(chunks, before, stopAt);
    return s.lines, !s.aborted;
  }

  lemma FedStopped(all: seq<seq<byte>>, carried: seq<byte>, lines: seq<seq<byte>>, rest: seq<seq<byte>>, stopAt: nat,
                   carried': seq<byte>, rest': seq<seq<byte>>)
    requires FedTo(all, carried, lines, rest, stopAt) && |lines| > stopAt
    ensures FedTo(all, carried', lines, rest', stopAt)
  {
    hide FeedAll;
  }

  /** The last line, behind everything delivered. */
  lemma LastHeard(chunks: seq<seq<byte>>, lines: seq<seq<byte>>, stopAt: nat)
    requires var (c, out) := FeedAll([], chunks);
             if |lines| > stopAt then lines == Heard(out, stopAt) && |out| > stopAt else out == lines
    ensures var (c, out) := FeedAll([], chunks);
            if |lines| > stopAt then lines == Heard(Dispatched(chunks), stopAt) && |Dispatched(chunks)| > stopAt
            else lines + Deliver(c) == Heard(Dispatched(chunks), stopAt)
  {
    hide FeedAll;
    var (c, out) := FeedAll([], chunks);
    assert |Deliver(c)| <= 1;
    assert |out| > stopAt ==> (out + Deliver(c))[..stopAt + 1] == out[..stopAt + 1];
    assert |out + Deliver(c)| == stopAt + 1 ==> (out + Deliver(c))[..stopAt + 1] == out + Deliver(c);
  }

  // ---------- What a stream means, whatever the chunks

  /** Unbounded splitting: the unterminated text so far, and the lines delivered. */
  function Emit(pending: seq<byte>, s: seq<byte>): (seq<byte>, seq<seq<byte>>)
    decreases |s|
  {
    var n := FirstNl(s);
    if n == |s| then (pending + s, [])
    else
      var (p, out) := Emit([], s[n + 1..]);
      (p, Deliver(pending + s[..n]) + out)
  }

  /** A line whose delivery does not depend on whether the carry cut it: short, a
      comment, or nothing but stripped characters beyond what the carry holds. */
  predicate Robust(line: seq<byte>) {
    |line| < CARRY_SIZE || IsSkipped(line) ||
    forall i :: CARRY_SIZE - 1 <= i < |line| ==> line[i] == CR || line[i] == SPACE
  }

  /** Every line the stream terminates is robust. */
  predicate AllRobust(pending: seq<byte>, s: seq<byte>)
    decreases |s|
  {
    var n := FirstNl(s);
    n == |s| || (Robust(pending + s[..n]) && AllRobust([], s[n + 1..]))
  }

  lemma {:induction false} StripEndSkips(s: seq<byte>, k: nat)
    requires k <= |s| && forall i :: k <= i < |s| ==> s[i] == CR || s[i] == SPACE
    ensures StripEnd(s) == StripEnd(s[..k])
    decreases |s|
  {
    if k < |s| {
      StripEndSkips(s[..|s| - 1], k);
      assert s[..|s| - 1][..k] == s[..k];
    } else {
      assert s[..k] == s;
    }
  }

  lemma {:induction false} StripEndKeeps(s: seq<byte>, i: nat)
    requires i < |s| && s[i] != CR && s[i] != SPACE
    ensures i < |StripEnd(s)|
  {
    if s[|s| - 1] == CR || s[|s| - 1] == SPACE {
      StripEndKeeps(s[..|s| - 1], i);
    }
  }

  /** A line is delivered alike whole and cut exactly when it is robust. */
  lemma RobustIsExact(line: seq<byte>)
    ensures Deliver(Cut(line)) == Deliver(line) <==> Robust(line)
  {
    if |line| >= CARRY_SIZE && !IsSkipped(line) {
      if Robust(line) {
        StripEndSkips(line, CARRY_SIZE - 1);
      } else {
        var i :| CARRY_SIZE - 1 <= i < |line| && line[i] != CR && line[i] != SPACE;
        StripEndKeeps(line, i);
      }
    }
  }

  lemma CutAppend(p: seq<byte>, s: seq<byte>)
    ensures Cut(Cut(p) + s) == Cut(p + s)
  {
    var k := CARRY_SIZE - 1;
    if |p| >= CARRY_SIZE {
      assert (p + s)[..k] == p[..k];
      assert (Cut(p) + s)[..k] == p[..k];
    }
  }

  /** On robust lines the bounded handler follows the unbounded splitting. */
  lemma {:induction false} ChunkFollowsEmit(p: seq<byte>, s: seq<byte>)
    requires AllRobust(p, s)
    ensures FeedChunk(Cut(p), s) == (Cut(Emit(p, s).0), Emit(p, s).1)
    decreases |s|
  {
    var n := FirstNl(s);
    FeedUnfold(Cut(p), s);
    EmitUnfold(p, s);
    if n == |s| {
      CutAppend(p, s);
    } else {
      ChunkFollowsEmit([], s[n + 1..]);
      CutAppend(p, s[..n]);
      RobustIsExact(p + s[..n]);
      assert p == [] ==> p + s[..n] == s[..n];
    }
  }

  lemma {:induction false} FirstNlSplit(s: seq<byte>, t: seq<byte>)
    ensures FirstNl(s + t) == if FirstNl(s) < |s| then FirstNl(s) else |s| + FirstNl(t)
  {
    if s == [] {
      assert s + t == t;
    } else if s[0] != NL {
      FirstNlSplit(s[1..], t);
      assert (s + t)[1..] == s[1..] + t;
    }
  }

  /** Splitting a stream in two and carrying the unterminated text over changes nothing. */
  ghost predicate SplitsAlike(p: seq<byte>, s: seq<byte>, t: seq<byte>) {
    var (q, out) := Emit(p, s);
    Emit(p, s + t) == (Emit(q, t).0, out + Emit(q, t).1) &&
    (AllRobust(p, s + t) <==> AllRobust(p, s) && AllRobust(q, t))
  }

  lemma EmitUnfold(p: seq<byte>, s: seq<byte>)
    ensures var n := FirstNl(s);
            Emit(p, s) == (if n == |s| then (p + s, [])
                           else (Emit([], s[n + 1..]).0, Deliver(p + s[..n]) + Emit([], s[n + 1..]).1)) &&
            (AllRobust(p, s) <==> n == |s| || (Robust(p + s[..n]) && AllRobust([], s[n + 1..])))
  {
    hide FirstNl, Deliver, Robust;
  }

  lemma SplitsInTail(p: seq<byte>, s: seq<byte>, t: seq<byte>)
    requires FirstNl(s) == |s|
    ensures SplitsAlike(p, s, t)
  {
    FirstNlSplit(s, t);
    EmitUnfold(p, s);
    EmitUnfold(p + s, t);
    EmitUnfold(p, s + t);
    hide Emit, AllRobust, FirstNl, Deliver, Robust;
    var m := FirstNl(t);
    assert (s + t)[..|s| + m] == s + t[..m];
    Reassociate(p, s, t[..m]);
    Reassociate(p, s, t);
    assert m < |t| ==> (s + t)[|s| + m + 1..] == t[m + 1..];
    assert [] + Emit(p + s, t).1 == Emit(p + s, t).1;
  }

  lemma SplitsInLine(p: seq<byte>, s: seq<byte>, t: seq<byte>)
    requires FirstNl(s) < |s| && SplitsAlike([], s[FirstNl(s) + 1..], t)
    ensures SplitsAlike(p, s, t)
  {
    FirstNlSplit(s, t);
    EmitUnfold(p, s);
    EmitUnfold(p, s + t);
    hide Emit, AllRobust, FirstNl, Deliver, Robust;
    var n := FirstNl(s);
    assert (s + t)[..n] == s[..n] && (s + t)[n + 1..] == s[n + 1..] + t;
    var (q, out) := Emit([], s[n + 1..]);
    Reassociate(Deliver(p + s[..n]), out, Emit(q, t).1);
  }

  lemma {:induction false} EmitSplits(p: seq<byte>, s: seq<byte>, t: seq<byte>)
    ensures SplitsAlike(p, s, t)
    decreases |s|
  {
    hide *;
    if FirstNl(s) == |s| {
      SplitsInTail(p, s, t);
    } else {
      EmitSplits([], s[FirstNl(s) + 1..], t);
      SplitsInLine(p, s, t);
    }
  }

  function Concat(chunks: seq<seq<byte>>): seq<byte> {
    if chunks == [] then [] else chunks[0] + Concat(chunks[1..])
  }

  lemma {:induction false} AllFollowsEmit(p: seq<byte>, chunks: seq<seq<byte>>)
    requires AllRobust(p, Concat(chunks))
    ensures FeedAll(Cut(p), chunks) == (Cut(Emit(p, Concat(chunks)).0), Emit(p, Concat(chunks)).1)
    decreases |chunks|
  {
    if chunks == [] {
      assert Concat(chunks) == [] && p + [] == p;
    } else {
      hide Emit, AllRobust, FeedChunk;
      EmitSplits(p, chunks[0], Concat(chunks[1..]));
      ChunkFollowsEmit(p, chunks[0]);
      AllFollowsEmit(Emit(p, chunks[0]).0, chunks[1..]);
    }
  }

  /** The lines of a stream: every terminated one, then the last one as the carry
      holds it. */
  function StreamLines(s: seq<byte>): seq<seq<byte>> {
    Emit([], s).1 + Deliver(Cut(Emit([], s).0))
  }

  /** If every terminated line is robust, in particular if none exceeds 255 bytes, all
      chunkings of a stream dispatch the same lines. */
  lemma ChunkingDoesNotMatter(chunks: seq<seq<byte>>)
    requires AllRobust([], Concat(chunks))
    ensures Dispatched(chunks) == StreamLines(Concat(chunks))
  {
    AllFollowsEmit([], chunks);
  }

  // ---------- And when it does

  /** stream is a, then the line bad and its newline, then b; a is empty or ends a line. */
  ghost predicate HasLine(stream: seq<byte>, a: seq<byte>, bad: seq<byte>, b: seq<byte>) {
    stream == a + (bad + [NL] + b) && (a == [] || a[|a| - 1] == NL) && NL !in bad
  }

  lemma {:induction false} FirstNlBefore(s: seq<byte>)
    ensures NL !in s[..FirstNl(s)]
  {
    if s != [] && s[0] != NL {
      FirstNlBefore(s[1..]);
      assert s[..FirstNl(s)] == [s[0]] + s[1..][..FirstNl(s) - 1];
    }
  }

  lemma FirstLine(s: seq<byte>, n: nat)
    requires n == FirstNl(s) < |s|
    ensures HasLine(s, [], s[..n], s[n + 1..])
  {
    FirstNlBefore(s);
    hide FirstNl;
    assert s[n..n + 1] == [NL];
    assert s == s[..n] + s[n..n + 1] + s[n + 1..];
    assert [] + s == s;
  }

  lemma LaterLine(s: seq<byte>, n: nat, a: seq<byte>, bad: seq<byte>, b: seq<byte>)
    requires n < |s| && s[n] == NL && HasLine(s[n + 1..], a, bad, b)
    ensures HasLine(s, s[..n + 1] + a, bad, b)
  {
    var head := s[..n + 1];
    assert s == head + s[n + 1..];
    assert head + (a + (bad + [NL] + b)) == (head + a) + (bad + [NL] + b);
  }

  lemma {:induction false} FindFragileLine(s: seq<byte>) returns (a: seq<byte>, bad: seq<byte>, b: seq<byte>)
    requires !AllRobust([], s)
    ensures HasLine(s, a, bad, b) && !Robust(bad) && bad != []
    decreases |s|
  {
    hide HasLine, FirstNl, Robust;
    var n := FirstNl(s);
    assert n < |s| && (!Robust([] + s[..n]) || !AllRobust([], s[n + 1..]));
    assert [] + s[..n] == s[..n];
    if !Robust(s[..n]) {
      FirstLine(s, n);
      a, bad, b := [], s[..n], s[n + 1..];
      assert bad != [] by {
        RobustIfEmpty();
      }
    } else {
      a, bad, b := FindFragileLine(s[n + 1..]);
      LaterLine(s, n, a, bad, b);
      a := s[..n + 1] + a;
    }
  }

  lemma RobustIfEmpty()
    ensures Robust([])
  {
  }

  lemma {:induction false} FirstNlOfLine(line: seq<byte>, b: seq<byte>)
    requires NL !in line
    ensures FirstNl(line + [NL] + b) == |line| && FirstNl(line) == |line|
  {
    if line != [] {
      FirstNlOfLine(line[1..], b);
      assert (line + [NL] + b)[1..] == line[1..] + [NL] + b;
      assert line[0] in line;
    }
  }

  lemma FeedLine(carry: seq<byte>, line: seq<byte>, b: seq<byte>)
    requires NL !in line
    ensures FeedChunk(carry, line + [NL] + b) ==
            (FeedChunk([], b).0, Deliver(if carry == [] then line else Cut(carry + line)) + FeedChunk([], b).1)
  {
    FirstNlOfLine(line, b);
    FeedUnfold(carry, line + [NL] + b);
    assert (line + [NL] + b)[..|line|] == line && (line + [NL] + b)[|line| + 1..] == b;
  }

  /** A chunk that ends a line leaves no carry. */
  lemma {:induction false} LineEndClearsCarry(a: seq<byte>)
    requires a == [] || a[|a| - 1] == NL
    ensures FeedChunk([], a).0 == []
    decreases |a|
  {
    FeedUnfold([], a);
    FirstNlBefore(a);
    assert a != [] ==> a[|a| - 1] in a;
    var n := FirstNl(a);
    if n == |a| {
      assert a[..n] == a;
      assert [] + a == [];
    } else {
      LineEndClearsCarry(a[n + 1..]);
    }
  }

  lemma DispatchedThree(a: seq<byte>, s: seq<byte>, t: seq<byte>)
    requires FeedChunk([], a).0 == []
    ensures var (c, out) := FeedChunk([], s);
            Dispatched([a, s, t]) == FeedChunk([], a).1 + (out + (FeedChunk(c, t).1 + Deliver(FeedChunk(c, t).0)))
  {
    hide FeedChunk, Deliver;
    var (c, out) := FeedChunk([], s);
    var (d, more) := FeedChunk(c, t);
    assert [a, s, t][1..] == [s, t] && [s, t][1..] == [t] && [t][1..] == [];
    assert FeedAll(d, []) == (d, []);
    assert more + [] == more;
    assert FeedAll(c, [t]) == (d, more);
    assert FeedAll([], [s, t]) == (d, out + more);
    Reassociate(FeedChunk([], a).1, out, more);
    Reassociate(FeedChunk([], a).1, out + more, Deliver(d));
    Reassociate(out, more, Deliver(d));
  }

  lemma CancelMiddle(x: seq<seq<byte>>, d: seq<seq<byte>>, e: seq<seq<byte>>, y: seq<seq<byte>>)
    requires x + (d + y) == x + (e + y)
    ensures d == e
  {
    assert (x + (d + y))[|x|..] == d + y && (x + (e + y))[|x|..] == e + y;
    assert |d| == |e|;
    assert (d + y)[..|d|] == d && (e + y)[..|e|] == e;
  }

  /** Two chunkings of the same stream, one of which cuts inside the line bad. */
  lemma FragileLineShows(a: seq<byte>, bad: seq<byte>, b: seq<byte>)
    requires HasLine(a + (bad + [NL] + b), a, bad, b) && !Robust(bad)
    ensures Concat([a, [], bad + [NL] + b]) == Concat([a, bad[..1], bad[1..] + [NL] + b]) == a + (bad + [NL] + b)
    ensures Dispatched([a, [], bad + [NL] + b]) != Dispatched([a, bad[..1], bad[1..] + [NL] + b])
  {
    ThreeChunks(a, [], bad + [NL] + b);
    ThreeChunks(a, bad[..1], bad[1..] + [NL] + b);
    assert bad[..1] + (bad[1..] + [NL] + b) == bad + [NL] + b;
    assert [] + (bad + [NL] + b) == bad + [NL] + b;
    WholeSide(a, bad, b);
    CutSide(a, bad, b);
    RobustIsExact(bad);
    var x, y := FeedChunk([], a).1, FeedChunk([], b).1 + Deliver(FeedChunk([], b).0);
    hide FeedChunk, Dispatched, Deliver, Cut, Robust;
    if x + (Deliver(bad) + y) == x + (Deliver(Cut(bad)) + y) {
      CancelMiddle(x, Deliver(bad), Deliver(Cut(bad)), y);
    }
  }

  lemma WholeSide(a: seq<byte>, bad: seq<byte>, b: seq<byte>)
    requires (a == [] || a[|a| - 1] == NL) && NL !in bad
    ensures Dispatched([a, [], bad + [NL] + b]) ==
            FeedChunk([], a).1 + (Deliver(bad) + (FeedChunk([], b).1 + Deliver(FeedChunk([], b).0)))
  {
    FeedUnfold([], []);
    assert Cut([] + []) == [] && FirstNl([]) == 0;
    hide FeedChunk, Dispatched, Deliver;
    LineEndClearsCarry(a);
    DispatchedThree(a, [], bad + [NL] + b);
    FeedLine([], bad, b);
    var (c, out) := FeedChunk([], b);
    Reassociate(Deliver(bad), out, Deliver(c));
    assert [] + (Deliver(bad) + out + Deliver(c)) == Deliver(bad) + out + Deliver(c);
  }

  lemma CutSide(a: seq<byte>, bad: seq<byte>, b: seq<byte>)
    requires (a == [] || a[|a| - 1] == NL) && NL !in bad && bad != []
    ensures Dispatched([a, bad[..1], bad[1..] + [NL] + b]) ==
            FeedChunk([], a).1 + (Deliver(Cut(bad)) + (FeedChunk([], b).1 + Deliver(FeedChunk([], b).0)))
  {
    assert NL !in bad[..1] && NL !in bad[1..];
    FirstNlOfLine(bad[..1], b);
    FeedUnfold([], bad[..1]);
    assert [] + bad[..1] == bad[..1] && bad[..1] + bad[1..] == bad;
    assert Cut(bad[..1]) == bad[..1];
    hide FeedChunk, Dispatched, Deliver, FirstNl;
    LineEndClearsCarry(a);
    DispatchedThree(a, bad[..1], bad[1..] + [NL] + b);
    FeedLine(bad[..1], bad[1..], b);
    var (c, out) := FeedChunk([], b);
    Reassociate(Deliver(Cut(bad)), out, Deliver(c));
    assert [] + (Deliver(Cut(bad)) + out + Deliver(c)) == Deliver(Cut(bad)) + out + Deliver(c);
  }

  lemma ThreeChunks(a: seq<byte>, s: seq<byte>, t: seq<byte>)
    ensures Concat([a, s, t]) == a + (s + t)
  {
    assert [a, s, t][1..] == [s, t] && [s, t][1..] == [t] && [t][1..] == [];
    assert Concat([]) == [] && t + [] == t;
    assert Concat([t]) == t + Concat([]);
    assert Concat([s, t]) == s + Concat([t]);
  }

  /** The dispatched lines of a stream are independent of its chunking if and only if
      every line it terminates is robust. */
  lemma ChunkIndependenceIsExact(stream: seq<byte>)
    ensures AllRobust([], stream) <==>
            forall c, d :: Concat(c) == stream && Concat(d) == stream ==> Dispatched(c) == Dispatched(d)
  {
    hide Dispatched, AllRobust, Robust;
    if AllRobust([], stream) {
      forall c, d | Concat(c) == stream && Concat(d) == stream ensures Dispatched(c) == Dispatched(d) {
        ChunkingDoesNotMatter(c);
        ChunkingDoesNotMatter(d);
      }
    } else {
      var a, bad, b := FindFragileLine(stream);
      FragileLineShows(a, bad, b);
      var c, d := [a, [], bad + [NL] + b], [a, bad[..1], bad[1..] + [NL] + b];
      assert Concat(c) == stream && Concat(d) == stream && Dispatched(c) != Dispatched(d);
    }
  }
}
