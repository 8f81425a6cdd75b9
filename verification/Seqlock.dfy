/** The seqlock between dns_task, the only writer of the forward cache, and the receive
    task's reader on the other core (main/dns_server.cpp). Every field and every reply
    byte is written and read in a step of its own, in any interleaving. */
module Seqlock {
  import opened Bytes
  import opened Domain
  import opened Cache
  import opened CacheMap

  // ---------- The writer, one field or byte at a time

  datatype Write =
    | WHash(v: nat) | WQtype(v: nat) | WBlocked(b: bool) | WValid | WLen(v: nat)
    | WByte(at: nat, c: byte) | WQnLen(v: nat) | WDeadline(v: nat) | WRefresh(v: nat) | WGen(v: nat, auth: nat)

  predicate Fits(w: Write) {
    match w
    case WLen(v) => v <= RESP_MAX
    case WByte(at, _) => at < RESP_MAX
    case WQnLen(v) => 12 + v <= RESP_MAX
    case _ => true
  }

  ghost predicate AllFit(ws: seq<Write>) {
    forall i :: 0 <= i < |ws| ==> Fits(ws[i])
  }

  function Do(e: Entry, w: Write): (r: Entry)
    requires Sized(e) && Fits(w)
    ensures Sized(r)
  {
    match w
    case WHash(v) => e.(hash := v)
    case WQtype(v) => e.(qtype := v)
    case WBlocked(b) => e.(blocked := b)
    case WValid => e.(valid := true)
    case WLen(v) => e.(respLen := v)
    case WByte(at, c) => e.(resp := e.resp[at := c])
    case WQnLen(v) => e.(qnLen := v)
    case WDeadline(v) => e.(deadline := v)
    case WRefresh(v) => e.(refreshAfter := v)
    case WGen(v, a) => e.(gen := v, auth := a)
  }

  ghost function DoAll(e: Entry, ws: seq<Write>): (r: Entry)
    requires Sized(e) && AllFit(ws)
    ensures Sized(r)
    decreases |ws|
  {
    if ws == [] then e else DoAll(Do(e, ws[0]), ws[1..])
  }

  function Copying(at: nat, bs: seq<byte>): (ws: seq<Write>)
    requires at + |bs| <= RESP_MAX
    ensures AllFit(ws) && |ws| == |bs|
  {
    seq(|bs|, i requires 0 <= i < |bs| => WByte(at + i, bs[i]))
  }

  /** The stores of cache_store_blocked and cache_store_resp, in their order. */
  function Program(op: Op): (ws: seq<Write>)
    requires Meant(op).Some?
    ensures AllFit(ws)
  {
    match op
    case PutBlocked(k, ttl, now, gen, auth) =>
      [WHash(k.hash), WQtype(k.qtype), WBlocked(true), WValid, WLen(0)] + Copying(12, k.name) +
      [WQnLen(|k.name|), WDeadline(now + 1000 * ttl), WGen(gen, auth)]
    case PutReply(h, t, resp, ttl, now, gen, auth) =>
      [WHash(h), WQtype(t), WBlocked(false), WValid, WLen(|resp|)] + Copying(0, resp) +
      [WQnLen(|ReplyKey(h, t, resp).name|), WDeadline(now + 1000 * ttl), WRefresh(0), WGen(gen, auth)]
  }

  function KeyWritten(op: Op): Key
    requires Meant(op).Some?
  {
    match op
    case PutBlocked(k, _, _, _, _) => k
    case PutReply(h, t, resp, _, _, _, _) => ReplyKey(h, t, resp)
  }

  lemma CopyingUnfold(at: nat, bs: seq<byte>, rest: seq<Write>)
    requires at + |bs| <= RESP_MAX && AllFit(rest)
    ensures var ws := Copying(at, bs) + rest;
            AllFit(ws) && if bs == [] then ws == rest
                          else ws != [] && ws[0] == WByte(at, bs[0]) && ws[1..] == Copying(at + 1, bs[1..]) + rest
  {
    var ws := Copying(at, bs) + rest;
    if bs == [] {
      assert ws == rest;
    } else {
      assert ws[1..] == Copying(at + 1, bs[1..]) + rest;
    }
  }

  lemma OverlayUnfold(p: seq<byte>, at: nat, bs: seq<byte>)
    requires at + |bs| <= |p|
    ensures Overlay(p, at, bs) == if bs == [] then p else Overlay(p[at := bs[0]], at + 1, bs[1..])
  {
    if bs == [] {
      assert Overlay(p, at, bs) == p;
    } else {
      assert Overlay(p, at, bs) == Overlay(p[at := bs[0]], at + 1, bs[1..]);
    }
  }

  lemma {:induction false} CopyingOverlays(e: Entry, at: nat, bs: seq<byte>, rest: seq<Write>)
    requires Sized(e) && at + |bs| <= RESP_MAX && AllFit(rest)
    ensures AllFit(Copying(at, bs) + rest)
    ensures DoAll(e, Copying(at, bs) + rest) == DoAll(e.(resp := Overlay(e.resp, at, bs)), rest)
    decreases |bs|
  {
    hide Copying, Overlay, AllFit;
    CopyingUnfold(at, bs, rest);
    OverlayUnfold(e.resp, at, bs);
    if bs != [] {
      CopyingOverlays(e.(resp := e.resp[at := bs[0]]), at + 1, bs[1..], rest);
    }
  }

  lemma FiveFirst(e: Entry, h: nat, t: nat, b: bool, n: nat, rest: seq<Write>)
    requires Sized(e) && n <= RESP_MAX && AllFit(rest)
    ensures var ws := [WHash(h), WQtype(t), WBlocked(b), WValid, WLen(n)] + rest;
            AllFit(ws) &&
            DoAll(e, ws) == DoAll(e.(hash := h, qtype := t, blocked := b, valid := true, respLen := n), rest)
  {
    var ws := [WHash(h), WQtype(t), WBlocked(b), WValid, WLen(n)] + rest;
    assert ws[1..] == [WQtype(t), WBlocked(b), WValid, WLen(n)] + rest;
    assert ws[1..][1..] == [WBlocked(b), WValid, WLen(n)] + rest;
    assert ws[1..][1..][1..] == [WValid, WLen(n)] + rest;
    assert ws[1..][1..][1..][1..] == [WLen(n)] + rest;
    assert ws[1..][1..][1..][1..][1..] == rest;
    var e5 := e.(hash := h, qtype := t, blocked := b, valid := true, respLen := n);
    assert DoAll(e, ws) == DoAll(Do(e, ws[0]), ws[1..]);
    var e1 := e.(hash := h);
    assert DoAll(e1, ws[1..]) == DoAll(e1.(qtype := t), ws[1..][1..]);
    var e2 := e1.(qtype := t);
    assert DoAll(e2, ws[1..][1..]) == DoAll(e2.(blocked := b), ws[1..][1..][1..]);
    var e3 := e2.(blocked := b);
    assert DoAll(e3, ws[1..][1..][1..]) == DoAll(e3.(valid := true), ws[1..][1..][1..][1..]);
    var e4 := e3.(valid := true);
    assert DoAll(e4, ws[1..][1..][1..][1..]) == DoAll(e4.(respLen := n), rest);
  }

  lemma Tail3(e: Entry, a: Write, b: Write, c: Write)
    requires Sized(e) && Fits(a) && Fits(b) && Fits(c)
    ensures DoAll(e, [a, b, c]) == Do(Do(Do(e, a), b), c)
  {
    assert [a, b, c][1..] == [b, c] && [b, c][1..] == [c] && [c][1..] == [];
    assert DoAll(Do(Do(Do(e, a), b), c), []) == Do(Do(Do(e, a), b), c);
    assert DoAll(Do(Do(e, a), b), [c]) == DoAll(Do(Do(Do(e, a), b), c), []);
  }

  lemma Tail4(e: Entry, a: Write, b: Write, c: Write, d: Write)
    requires Sized(e) && Fits(a) && Fits(b) && Fits(c) && Fits(d)
    ensures DoAll(e, [a, b, c, d]) == Do(Do(Do(Do(e, a), b), c), d)
  {
    assert [a, b, c, d][1..] == [b, c, d];
    Tail3(Do(e, a), b, c, d);
  }

  lemma BlockedProgram(e: Entry, op: Op)
    requires Sized(e) && op.PutBlocked? && Meant(op).Some?
    ensures DoAll(e, Program(op)) == BlockedEntry(e, op.key, op.ttl, op.now, op.gen, op.auth)
  {
    hide DoAll, Overlay, Copying;
    var k := op.key;
    var a, b, c := WQnLen(|k.name|), WDeadline(op.now + 1000 * op.ttl), WGen(op.gen, op.auth);
    var tail := Copying(12, k.name) + [a, b, c];
    assert Program(op) == [WHash(k.hash), WQtype(k.qtype), WBlocked(true), WValid, WLen(0)] + tail;
    FiveFirst(e, k.hash, k.qtype, true, 0, tail);
    var e5 := e.(hash := k.hash, qtype := k.qtype, blocked := true, valid := true, respLen := 0);
    CopyingOverlays(e5, 12, k.name, [a, b, c]);
    Tail3(e5.(resp := Overlay(e5.resp, 12, k.name)), a, b, c);
  }

  lemma ReplyProgram(e: Entry, op: Op, k: Key)
    requires Sized(e) && op.PutReply? && Meant(op).Some? && k == ReplyKey(op.hash, op.qtype, op.resp)
    ensures DoAll(e, Program(op)) == ReplyEntry(e, k, op.resp, op.ttl, op.now, op.gen, op.auth)
  {
    hide DoAll, Overlay, WireLen;
    assert k.hash == op.hash && k.qtype == op.qtype;
    var n := |op.resp|;
    var a, b, c, d := WQnLen(|k.name|), WDeadline(op.now + 1000 * op.ttl), WRefresh(0), WGen(op.gen, op.auth);
    var tail := Copying(0, op.resp) + [a, b, c, d];
    assert Program(op) == [WHash(op.hash), WQtype(op.qtype), WBlocked(false), WValid, WLen(n)] + tail;
    hide Program, ReplyKey;
    FiveFirst(e, op.hash, op.qtype, false, n, tail);
    var e5 := e.(hash := op.hash, qtype := op.qtype, blocked := false, valid := true, respLen := n);
    CopyingOverlays(e5, 0, op.resp, [a, b, c, d]);
    hide Copying;
    Tail4(e5.(resp := Overlay(e5.resp, 0, op.resp)), a, b, c, d);
  }

  /** All the writes of a store together are the store. */
  lemma ProgramIsStore(es: seq<Entry>, op: Op)
    requires WellPlaced(es) && Meant(op).Some?
    ensures var v := Victim(es, KeyWritten(op));
            Sized(es[v]) && Apply(es, op) == es[v := DoAll(es[v], Program(op))]
  {
    var v := Victim(es, KeyWritten(op));
    PlacedSized(es, v);
    hide Victim, WellPlaced, WireLen, DoAll, Program, BlockedEntry, ReplyEntry;
    if op.PutBlocked? {
      BlockedProgram(es[v], op);
    } else {
      assert op.PutReply?;
      ReplyProgram(es[v], op, KeyWritten(op));
    }
  }

  // ---------- The reader, one read at a time

  datatype Query = Query(key: Key, cap: nat, now: nat)

  datatype Pc =
    | AtGen | AtSeq
    | AtValid(w: nat) | AtBlocked(w: nat) | AtHash(w: nat) | AtQtype(w: nat) | AtQnLen(w: nat)
    | AtName(w: nat, i: nat) | AtDeadline(w: nat) | AtStamp(w: nat) | AtLen(w: nat)
    | AtCopy(w: nat, l: nat) | AtCheck
    | Returned(reply: Option<seq<byte>>)

  /** The locals of one call of dns_cache_l2_get. */
  datatype Reader = Reader(q: Query, pc: Pc, gen: nat, s1: nat, out: seq<byte>)

  /** The next way, or a miss behind the last one. */
  function NextWay(r: Reader, w: nat): (n: Reader)
    ensures InBounds(r) ==> InBounds(n)
  {
    r.(pc := if w + 1 < WAYS then AtValid(w + 1) else Returned(None))
  }

  predicate InBounds(r: Reader) {
    12 + |r.q.key.name| <= RESP_MAX &&
    match r.pc
    case AtValid(w) => w < WAYS
    case AtBlocked(w) => w < WAYS
    case AtHash(w) => w < WAYS
    case AtQtype(w) => w < WAYS
    case AtQnLen(w) => w < WAYS
    case AtName(w, i) => w < WAYS && i <= |r.q.key.name|
    case AtDeadline(w) => w < WAYS
    case AtStamp(w) => w < WAYS
    case AtLen(w) => w < WAYS
    case AtCopy(w, l) => w < WAYS && |r.out| <= l <= RESP_MAX
    case _ => true
  }

  function Way(mem: seq<Entry>, r: Reader, w: nat): (e: Entry)
    requires AllSized(mem) && w < WAYS
    ensures Sized(e)
  {
    mem[Base(r.q.key) + w]
  }

  /** The next byte of the name, without case, or the deadline behind the last one. */
  function CompareByte(r: Reader, mem: seq<Entry>, w: nat, i: nat): (n: Reader)
    requires AllSized(mem) && InBounds(r) && r.pc == AtName(w, i)
    ensures InBounds(n) && n.q == r.q
  {
    if i == |r.q.key.name| then r.(pc := AtDeadline(w))
    else if Lower(Way(mem, r, w).resp[12 + i]) == Lower(r.q.key.name[i]) then r.(pc := AtName(w, i + 1))
    else NextWay(r, w)
  }

  /** One field of the way compared: on to the next read, or to the next way. */
  function Check(r: Reader, w: nat, ok: bool, next: Pc): (n: Reader)
    requires InBounds(r) && InBounds(r.(pc := next))
    ensures InBounds(n) && n.q == r.q
  {
    if ok then r.(pc := next) else NextWay(r, w)
  }

  /** One read of dns_cache_l2_get. */
  function Read(r: Reader, mem: seq<Entry>, sq: nat, gen: nat): (n: Reader)
    requires AllSized(mem) && InBounds(r)
    ensures InBounds(n) && n.q == r.q
  {
    var k := r.q.key;
    match r.pc
    case AtGen => r.(gen := gen, pc := AtSeq)
    case AtSeq => if sq % 2 == 1 then r.(pc := Returned(None)) else r.(s1 := sq, pc := AtValid(0))
    case AtValid(w) => Check(r, w, Way(mem, r, w).valid, AtBlocked(w))
    case AtBlocked(w) => Check(r, w, !Way(mem, r, w).blocked, AtHash(w))
    case AtHash(w) => Check(r, w, Way(mem, r, w).hash == k.hash, AtQtype(w))
    case AtQtype(w) => Check(r, w, Way(mem, r, w).qtype == k.qtype, AtQnLen(w))
    case AtQnLen(w) => Check(r, w, Way(mem, r, w).qnLen == |k.name|, AtName(w, 0))
    case AtName(w, i) => CompareByte(r, mem, w, i)
    case AtDeadline(w) => Check(r, w, Way(mem, r, w).deadline > r.q.now, AtStamp(w))
    case AtStamp(w) => Check(r, w, Way(mem, r, w).gen == r.gen, AtLen(w))
    case AtLen(w) =>
      var l := Way(mem, r, w).respLen;
      if l == 0 || l > r.q.cap || l > RESP_MAX then NextWay(r, w) else r.(pc := AtCopy(w, l), out := [])
    case AtCopy(w, l) =>
      if |r.out| == l then r.(pc := AtCheck) else r.(out := r.out + [Way(mem, r, w).resp[|r.out|]])
    case AtCheck => r.(pc := Returned(if sq == r.s1 then Some(r.out) else None))
    case Returned(_) => r
  }

  // ---------- The system

  /** mem is what both tasks see; writes are those still to come of the store in
      progress, at way at; ops are the stores completed or in progress. */
  datatype Sys = Sys(mem: seq<Entry>, sq: nat, writes: seq<Write>, at: nat, ops: seq<Op>, gen: nat, r: Reader)

  datatype Step =
    | Begin(op: Op)
    | WriteOne
    | End
    | Gate(at: nat, refreshAfter: nat)
    | BumpGen
    | ReadOne
    | Call(q: Query)

  /** Whether a step can be taken. dns_task is one thread: it starts a store, or touches a
      refresh gate, only when no store is in progress. */
  ghost predicate Enabled(s: Sys, step: Step) {
    match step
    case Begin(op) => s.sq % 2 == 0 && Meant(op).Some?
    case WriteOne => s.writes != []
    case End => s.sq % 2 == 1 && s.writes == []
    case Gate(_, _) => s.sq % 2 == 0
    case BumpGen => true
    case ReadOne => true
    case Call(q) => s.r.pc.Returned? && 12 + |q.key.name| <= RESP_MAX
  }

  ghost predicate Legal(s: Sys) {
    AllSized(s.mem) && s.at < ENTRIES && InBounds(s.r) && AllFit(s.writes)
  }

  ghost function Next(s: Sys, step: Step): (n: Sys)
    requires Legal(s) && Enabled(s, step)
    ensures Legal(n)
  {
    match step
    case Begin(op) =>
      s.(sq := s.sq + 1, writes := Program(op), at := Victim(s.mem, KeyWritten(op)), ops := s.ops + [op])
    case WriteOne =>
      s.(mem := s.mem[s.at := Do(s.mem[s.at], s.writes[0])], writes := s.writes[1..])
    case End => s.(sq := s.sq + 1)
    case Gate(at, after) => s.(mem := Apply(s.mem, Touch(at, after)), ops := s.ops + [Touch(at, after)])
    case BumpGen => s.(gen := s.gen + 1)
    case ReadOne => s.(r := Read(s.r, s.mem, s.sq, s.gen))
    case Call(q) => s.(r := Reader(q, AtGen, 0, 0, []))
  }

  /** The array is what the operations so far make it, or will be once the writes still
      to come are done. */
  ghost predicate Consistent(s: Sys, init: seq<Entry>) {
    WellPlaced(init) && Legal(s) &&
    (s.sq % 2 == 0 ==> s.writes == []) &&
    s.mem[s.at := DoAll(s.mem[s.at], s.writes)] == Run(init, s.ops)
  }

  // ---------- What the reader knows while the sequence number has not moved

  /** The replies of the ways from w on, as dns_cache_l2_get would pick. */
  ghost predicate SkippedTo(mem: seq<Entry>, r: Reader, w: nat)
    requires AllSized(mem)
  {
    forall j {:trigger Way(mem, r, j)} :: 0 <= j < w && j < WAYS ==>
      !Replayable(Way(mem, r, j), r.q.key, r.q.now, r.gen, r.q.cap)
  }

  /** What the checks passed so far say about the way under inspection. */
  ghost predicate Passed(e: Entry, r: Reader)
    requires Sized(e)
  {
    var k := r.q.key;
    match r.pc
    case AtValid(_) => true
    case AtBlocked(_) => e.valid
    case AtHash(_) => e.valid && !e.blocked
    case AtQtype(_) => e.valid && !e.blocked && e.hash == k.hash
    case AtQnLen(_) => e.valid && !e.blocked && e.hash == k.hash && e.qtype == k.qtype
    case AtName(_, i) =>
      e.valid && !e.blocked && e.hash == k.hash && e.qtype == k.qtype && e.qnLen == |k.name| &&
      forall j :: 0 <= j < i && j < |k.name| && 12 + j < |e.resp| ==> Lower(e.resp[12 + j]) == Lower(k.name[j])
    case AtDeadline(_) => Owns(e, k) && !e.blocked
    case AtStamp(_) => Owns(e, k) && !e.blocked && e.deadline > r.q.now
    case AtLen(_) => Fresh(e, k, r.q.now, r.gen) && !e.blocked
    case AtCopy(_, l) =>
      Replayable(e, k, r.q.now, r.gen, r.q.cap) && l == e.respLen &&
      |r.out| <= |e.resp| && r.out == e.resp[..|r.out|]
    case _ => true
  }

  function WayOf(pc: Pc): Option<nat> {
    match pc
    case AtValid(w) => Some(w)
    case AtBlocked(w) => Some(w)
    case AtHash(w) => Some(w)
    case AtQtype(w) => Some(w)
    case AtQnLen(w) => Some(w)
    case AtName(w, _) => Some(w)
    case AtDeadline(w) => Some(w)
    case AtStamp(w) => Some(w)
    case AtLen(w) => Some(w)
    case AtCopy(w, _) => Some(w)
    case _ => None
  }

  /** Everything read since the sequence number was sampled is true of mem. */
  ghost predicate Truthful(r: Reader, mem: seq<Entry>)
    requires AllSized(mem) && InBounds(r)
  {
    (WayOf(r.pc).Some? ==> SkippedTo(mem, r, WayOf(r.pc).value) && Passed(Way(mem, r, WayOf(r.pc).value), r)) &&
    (r.pc == AtCheck ==> L2Get(mem, r.q.key, r.q.cap, r.q.now, r.gen) == Some(r.out))
  }

  /** The reader past its sample: the number it saw is even and not ahead, and if it has
      not moved then what was read is true. */
  ghost predicate ReaderOk(s: Sys)
    requires AllSized(s.mem) && InBounds(s.r)
  {
    s.r.pc != AtGen && s.r.pc != AtSeq && !s.r.pc.Returned? ==>
      s.r.s1 % 2 == 0 && s.r.s1 <= s.sq && (s.r.s1 == s.sq ==> Truthful(s.r, s.mem))
  }

  ghost predicate Inv(s: Sys, init: seq<Entry>) {
    Consistent(s, init) && ReaderOk(s)
  }

  // ---------- Every step keeps the invariant

  lemma BeginKeeps(s: Sys, init: seq<Entry>, op: Op)
    requires Inv(s, init) && Enabled(s, Begin(op))
    ensures Inv(Next(s, Begin(op)), init)
  {
    hide Run, Program, DoAll, Victim, Apply, Truthful;
    NothingToWrite(s.mem, s.at);
    ProgramIsStore(s.mem, op);
    RunOnce(init, s.ops, op);
  }

  lemma NothingToWrite(mem: seq<Entry>, at: nat)
    requires AllSized(mem) && at < |mem|
    ensures mem[at := DoAll(mem[at], [])] == mem
  {
  }

  lemma RunOnce(init: seq<Entry>, ops: seq<Op>, op: Op)
    requires WellPlaced(init)
    ensures Run(init, ops + [op]) == Apply(Run(init, ops), op)
  {
    assert (ops + [op])[..|ops|] == ops;
    hide Apply;
  }

  lemma WriteKeeps(s: Sys, init: seq<Entry>)
    requires Inv(s, init) && Enabled(s, WriteOne)
    ensures Inv(Next(s, WriteOne), init)
  {
    hide Run, Truthful, Fits;
    var n := Next(s, WriteOne);
    assert n.mem[n.at := DoAll(n.mem[n.at], n.writes)] == s.mem[s.at := DoAll(s.mem[s.at], s.writes)];
  }

  lemma EndKeeps(s: Sys, init: seq<Entry>)
    requires Inv(s, init) && Enabled(s, End)
    ensures Inv(Next(s, End), init)
  {
    hide Run, Truthful;
  }

  lemma GateKeeps(s: Sys, init: seq<Entry>, at: nat, after: nat)
    requires Inv(s, init) && Enabled(s, Gate(at, after))
    ensures Inv(Next(s, Gate(at, after)), init)
  {
    assert s.mem[s.at := DoAll(s.mem[s.at], [])] == s.mem;
    var op := Touch(at, after);
    ApplyKeepsPlaces(s.mem, op);
    RunOnce(init, s.ops, op);
    var n := Next(s, Gate(at, after));
    assert n.mem[n.at := DoAll(n.mem[n.at], [])] == n.mem;
    if s.r.s1 == s.sq && s.r.pc != AtGen && s.r.pc != AtSeq && !s.r.pc.Returned? {
      GateKeepsTruth(s.r, s.mem, at, after);
    }
    hide Run, Truthful, Apply, DoAll, WellPlaced;
  }

  /** The reader never looks at a refresh gate. */
  lemma GateKeepsTruth(r: Reader, mem: seq<Entry>, at: nat, after: nat)
    requires WellPlaced(mem) && InBounds(r) && Truthful(r, mem)
    requires AllSized(Apply(mem, Touch(at, after)))
    ensures Truthful(r, Apply(mem, Touch(at, after)))
  {
    var mem' := Apply(mem, Touch(at, after));
    forall i | 0 <= i < |mem| ensures Seen(mem'[i]) == Seen(mem[i]) {
    }
    forall w | 0 <= w < WAYS ensures Seen(Way(mem', r, w)) == Seen(Way(mem, r, w)) {
    }
    forall w | 0 <= w < WAYS
      ensures Passed(Way(mem', r, w), r) == Passed(Way(mem, r, w), r)
      ensures Replayable(Way(mem', r, w), r.q.key, r.q.now, r.gen, r.q.cap) ==
              Replayable(Way(mem, r, w), r.q.key, r.q.now, r.gen, r.q.cap)
    {
      SeenDecides(Way(mem', r, w), Way(mem, r, w), r);
    }
    hide Passed, Replayable, WellPlaced;
    if WayOf(r.pc).Some? {
      assert SkippedTo(mem', r, WayOf(r.pc).value);
    }
    if r.pc == AtCheck {
      SameWaysSameReply(mem, mem', r);
    }
  }

  /** Everything but the refresh gate. */
  function Seen(e: Entry): Entry {
    e.(refreshAfter := 0)
  }

  lemma SeenDecides(a: Entry, b: Entry, r: Reader)
    requires Sized(a) && Sized(b) && Seen(a) == Seen(b)
    ensures Passed(a, r) == Passed(b, r)
    ensures Replayable(a, r.q.key, r.q.now, r.gen, r.q.cap) == Replayable(b, r.q.key, r.q.now, r.gen, r.q.cap)
  {
    assert a == b.(refreshAfter := a.refreshAfter);
  }

  lemma SameWaysSameReply(mem: seq<Entry>, mem': seq<Entry>, r: Reader)
    requires AllSized(mem) && AllSized(mem') && forall i :: 0 <= i < |mem| ==> Seen(mem'[i]) == Seen(mem[i])
    ensures L2Get(mem', r.q.key, r.q.cap, r.q.now, r.gen) == L2Get(mem, r.q.key, r.q.cap, r.q.now, r.gen)
  {
    var k := r.q.key;
    var p := (e: Entry) => Replayable(e, k, r.q.now, r.gen, r.q.cap);
    forall i | 0 <= i < |mem| ensures p(mem[i]) == p(mem'[i]) {
      SeenDecides(mem[i], mem'[i], r);
    }
    SameTestSameWay(mem, mem', Base(k), 0, p);
    forall i | 0 <= i < |mem| ensures mem'[i].resp == mem[i].resp && mem'[i].respLen == mem[i].respLen {
      assert Seen(mem'[i]).resp == Seen(mem[i]).resp && Seen(mem'[i]).respLen == Seen(mem[i]).respLen;
    }
    assert FindReplayable(mem, k, r.q.now, r.gen, r.q.cap) == FindReplayable(mem', k, r.q.now, r.gen, r.q.cap);
  }

  lemma {:induction false} SameTestSameWay(a: seq<Entry>, b: seq<Entry>, base: nat, w: nat, p: Entry -> bool)
    requires |a| == |b| && base + WAYS <= |a| && w <= WAYS
    requires forall i :: 0 <= i < |a| ==> p(a[i]) == p(b[i])
    ensures FirstWay(a, base, w, p) == FirstWay(b, base, w, p)
    decreases WAYS - w
  {
    if w < WAYS {
      SameTestSameWay(a, b, base, w + 1, p);
    }
  }

  /** A way that fails a check is not the reply, and the next one is looked at. */
  lemma SkipKeepsTruth(r: Reader, mem: seq<Entry>, w: nat)
    requires AllSized(mem) && InBounds(r) && w < WAYS && SkippedTo(mem, r, w)
    requires !Replayable(Way(mem, r, w), r.q.key, r.q.now, r.gen, r.q.cap)
    ensures Truthful(NextWay(r, w), mem)
  {
    var n := NextWay(r, w);
    hide Replayable;
    assert forall j :: 0 <= j < WAYS ==> Way(mem, n, j) == Way(mem, r, j);
    if w + 1 < WAYS {
      assert SkippedTo(mem, n, w + 1);
    }
  }

  lemma FoundIsReply(r: Reader, mem: seq<Entry>, w: nat)
    requires AllSized(mem) && InBounds(r) && w < WAYS && SkippedTo(mem, r, w)
    requires Replayable(Way(mem, r, w), r.q.key, r.q.now, r.gen, r.q.cap)
    ensures var e := Way(mem, r, w);
            L2Get(mem, r.q.key, r.q.cap, r.q.now, r.gen) == Some(e.resp[..e.respLen])
  {
    var k := r.q.key;
    var p := (e: Entry) => Replayable(e, k, r.q.now, r.gen, r.q.cap);
    forall i | Base(k) <= i < Base(k) + w ensures !p(mem[i]) {
      assert Way(mem, r, i - Base(k)) == mem[i];
    }
    FirstWayFinds(mem, Base(k), 0, w, p);
    hide Replayable;
    assert FindReplayable(mem, k, r.q.now, r.gen, r.q.cap) == Some(Base(k) + w);
  }

  lemma {:induction false} FirstWayFinds(es: seq<Entry>, b: nat, v: nat, w: nat, p: Entry -> bool)
    requires b + WAYS <= |es| && v <= w < WAYS && p(es[b + w])
    requires forall i :: b + v <= i < b + w ==> !p(es[i])
    ensures FirstWay(es, b, v, p) == w
    decreases w - v
  {
    if v < w {
      FirstWayFinds(es, b, v + 1, w, p);
    }
  }

  /** One read while the number stands still keeps what is known true. */
  lemma ReadKeepsTruth(r: Reader, mem: seq<Entry>, sq: nat, gen: nat)
    requires AllSized(mem) && InBounds(r) && Truthful(r, mem)
    requires r.pc != AtGen && r.pc != AtSeq && !r.pc.Returned?
    ensures Truthful(Read(r, mem, sq, gen), mem)
  {
    var n := Read(r, mem, sq, gen);
    if WayOf(r.pc).Some? {
      var w := WayOf(r.pc).value;
      var e := Way(mem, r, w);
      if n == NextWay(r, w) {
        FailedCheck(r, mem, sq, gen, w);
        SkipKeepsTruth(r, mem, w);
      } else if r.pc.AtCopy? {
        CopyStep(r, mem, sq, gen, w);
      } else {
        PassedCheck(r, mem, sq, gen, w);
      }
    }
  }

  lemma FailedCheck(r: Reader, mem: seq<Entry>, sq: nat, gen: nat, w: nat)
    requires AllSized(mem) && InBounds(r) && WayOf(r.pc) == Some(w) && w < WAYS
    requires Passed(Way(mem, r, w), r) && Read(r, mem, sq, gen) == NextWay(r, w)
    ensures !Replayable(Way(mem, r, w), r.q.key, r.q.now, r.gen, r.q.cap)
  {
    var e, k := Way(mem, r, w), r.q.key;
    if r.pc.AtName? && r.pc.i < |k.name| && e.qnLen == |k.name| {
      var i := r.pc.i;
      assert Name(e)[i] == e.resp[12 + i];
      assert LowerAll(Name(e))[i] == Lower(e.resp[12 + i]) && LowerAll(k.name)[i] == Lower(k.name[i]);
    }
  }

  lemma PassedCheck(r: Reader, mem: seq<Entry>, sq: nat, gen: nat, w: nat)
    requires AllSized(mem) && InBounds(r) && WayOf(r.pc) == Some(w) && w < WAYS && !r.pc.AtCopy?
    requires SkippedTo(mem, r, w) && Passed(Way(mem, r, w), r) && Read(r, mem, sq, gen) != NextWay(r, w)
    ensures Truthful(Read(r, mem, sq, gen), mem)
  {
    var e, k, n := Way(mem, r, w), r.q.key, Read(r, mem, sq, gen);
    assert forall j :: 0 <= j < WAYS ==> Way(mem, n, j) == Way(mem, r, j);
    if r.pc.AtName? && r.pc.i == |k.name| {
      assert LowerAll(Name(e)) == LowerAll(k.name);
    }
    assert WayOf(n.pc) == Some(w) && n.gen == r.gen && n.q == r.q;
    assert Passed(e, n);
    hide Passed, Replayable;
    assert SkippedTo(mem, n, w);
  }

  lemma CopyStep(r: Reader, mem: seq<Entry>, sq: nat, gen: nat, w: nat)
    requires AllSized(mem) && InBounds(r) && WayOf(r.pc) == Some(w) && w < WAYS && r.pc.AtCopy?
    requires SkippedTo(mem, r, w) && Passed(Way(mem, r, w), r)
    ensures Truthful(Read(r, mem, sq, gen), mem)
  {
    var e, n := Way(mem, r, w), Read(r, mem, sq, gen);
    FoundIsReply(r, mem, w);
    assert forall j :: 0 <= j < WAYS ==> Way(mem, n, j) == Way(mem, r, j);
    hide Replayable;
    if |r.out| < r.pc.l {
      assert r.out + [e.resp[|r.out|]] == e.resp[..|r.out| + 1];
      assert SkippedTo(mem, n, w);
    }
  }

  lemma FirstLook(r: Reader, mem: seq<Entry>)
    requires AllSized(mem) && InBounds(r) && r.pc == AtValid(0)
    ensures Truthful(r, mem)
  {
  }

  lemma ReadKeeps(s: Sys, init: seq<Entry>)
    requires Inv(s, init)
    ensures Inv(Next(s, ReadOne), init)
  {
    var n := Next(s, ReadOne);
    assert Consistent(n, init);
    if s.r.pc == AtSeq && s.sq % 2 == 0 {
      FirstLook(n.r, s.mem);
    } else if s.r.pc != AtGen && s.r.pc != AtSeq && !s.r.pc.Returned? && s.r.s1 == s.sq {
      ReadKeepsTruth(s.r, s.mem, s.sq, s.gen);
    }
    SampleStands(s.r, s.mem, s.sq, s.gen);
    hide Truthful, Consistent, Read;
  }

  /** Only the sampling reads change the sample, and no read turns back. */
  lemma SampleStands(r: Reader, mem: seq<Entry>, sq: nat, gen: nat)
    requires AllSized(mem) && InBounds(r)
    ensures var n := Read(r, mem, sq, gen);
            (r.pc == AtGen ==> n.pc == AtSeq) &&
            (r.pc == AtSeq ==> if sq % 2 == 1 then n.pc == Returned(None) else n.s1 == sq && n.pc == AtValid(0)) &&
            (r.pc.Returned? ==> n == r) &&
            (r.pc != AtGen && r.pc != AtSeq ==> n.pc != AtGen && n.pc != AtSeq && n.s1 == r.s1 && n.gen == r.gen)
  {
  }

  lemma InvKept(s: Sys, init: seq<Entry>, step: Step)
    requires Inv(s, init) && Enabled(s, step)
    ensures Inv(Next(s, step), init)
  {
    hide Inv;
    match step
    case Begin(op) => BeginKeeps(s, init, op);
    case WriteOne => WriteKeeps(s, init);
    case End => EndKeeps(s, init);
    case Gate(at, after) => GateKeeps(s, init, at, after);
    case BumpGen => BumpKeeps(s, init);
    case ReadOne => ReadKeeps(s, init);
    case Call(q) => CallKeeps(s, init, q);
  }

  lemma BumpKeeps(s: Sys, init: seq<Entry>)
    requires Inv(s, init)
    ensures Inv(Next(s, BumpGen), init)
  {
    hide Truthful, Run, DoAll;
  }

  lemma CallKeeps(s: Sys, init: seq<Entry>, q: Query)
    requires Inv(s, init) && Enabled(s, Call(q))
    ensures Inv(Next(s, Call(q)), init)
  {
    hide Truthful, Run, DoAll;
  }

  // ---------- Whole runs

  ghost predicate Steps(s: Sys, steps: seq<Step>)
    requires Legal(s)
    decreases |steps|
  {
    steps == [] || (Enabled(s, steps[0]) && Steps(Next(s, steps[0]), steps[1..]))
  }

  ghost function After(s: Sys, steps: seq<Step>): (n: Sys)
    requires Legal(s) && Steps(s, steps)
    ensures Legal(n)
    decreases |steps|
  {
    if steps == [] then s else After(Next(s, steps[0]), steps[1..])
  }

  function Start(init: seq<Entry>, gen: nat): Sys {
    Sys(init, 0, [], 0, [], gen, Reader(Query(Key(0, 0, []), 0, 0), Returned(None), 0, 0, []))
  }

  lemma StartHolds(init: seq<Entry>, gen: nat)
    requires WellPlaced(init)
    ensures Legal(Start(init, gen)) && Inv(Start(init, gen), init)
  {
    PlacedSized(init, 0);
    hide WellPlaced;
    assert init[0 := DoAll(init[0], [])] == init;
  }

  lemma {:induction false} RunKeeps(s: Sys, init: seq<Entry>, steps: seq<Step>)
    requires Inv(s, init) && Steps(s, steps)
    ensures Inv(After(s, steps), init)
    decreases |steps|
  {
    if steps != [] {
      InvKept(s, init, steps[0]);
      hide Inv, Next, Enabled;
      RunKeeps(Next(s, steps[0]), init, steps[1..]);
    }
  }

  /** Only the last check returns a reply, and only while the counter is where it was: then
      no store is in progress, and the reply is what a scan of the committed cache finds. */
  lemma PositiveReadIsCommitted(init: seq<Entry>, gen: nat, steps: seq<Step>)
    requires WellPlaced(init) && Legal(Start(init, gen)) && Steps(Start(init, gen), steps)
    ensures var s := After(Start(init, gen), steps);
            var n := Read(s.r, s.mem, s.sq, s.gen);
            !s.r.pc.Returned? && n.pc.Returned? && n.pc.reply.Some? ==>
              s.r.pc == AtCheck && s.mem == Run(init, s.ops) &&
              L2Get(Run(init, s.ops), s.r.q.key, s.r.q.cap, s.r.q.now, s.r.gen) == n.pc.reply
  {
    hide *;
    StartHolds(init, gen);
    RunKeeps(Start(init, gen), init, steps);
    var s := After(Start(init, gen), steps);
    InvIsLegal(s, init);
    ReturnsAtCheck(s.r, s.mem, s.sq, s.gen);
    if s.r.pc == AtCheck && s.sq == s.r.s1 {
      CommittedAtCheck(s, init);
    }
  }

  lemma InvIsLegal(s: Sys, init: seq<Entry>)
    requires Inv(s, init)
    ensures AllSized(s.mem) && InBounds(s.r)
  {
    hide Run, DoAll, Truthful;
  }

  lemma ReturnsAtCheck(r: Reader, mem: seq<Entry>, sq: nat, gen: nat)
    requires AllSized(mem) && InBounds(r)
    ensures var n := Read(r, mem, sq, gen);
            !r.pc.Returned? && n.pc.Returned? && n.pc.reply.Some? ==>
              r.pc == AtCheck && sq == r.s1 && n.pc.reply == Some(r.out)
  {
  }

  lemma CommittedAtCheck(s: Sys, init: seq<Entry>)
    requires Inv(s, init) && s.r.pc == AtCheck && s.sq == s.r.s1
    ensures s.mem == Run(init, s.ops) && |s.mem| == ENTRIES
    ensures L2Get(Run(init, s.ops), s.r.q.key, s.r.q.cap, s.r.q.now, s.r.gen) == Some(s.r.out)
  {
    hide Run, L2Get;
    assert s.mem[s.at := DoAll(s.mem[s.at], [])] == s.mem;
  }

  /** In every interleaving, when dns_cache_l2_get returns a reply, that reply is the
      whole of the last one stored under its key at that moment, allowed, not expired,
      and of the generation sampled when the call began. */
  lemma PositiveReadIsOneStoredReply(init: seq<Entry>, m: map<Key, Value>, gen: nat, steps: seq<Step>)
    requires WellPlaced(init) && Refines(init, m) && Legal(Start(init, gen)) && Steps(Start(init, gen), steps)
    ensures var s := After(Start(init, gen), steps);
            var n := Read(s.r, s.mem, s.sq, s.gen);
            s.r.pc == AtCheck && n.pc.reply.Some? ==> IsLastStored(s.r, LastStored(m, s.ops), n.pc.reply.value)
  {
    PositiveReadIsCommitted(init, gen, steps);
    var s := After(Start(init, gen), steps);
    hide Steps, After, Run, LastStored, L2Get, FindFresh, Refines;
    if s.r.pc == AtCheck && Read(s.r, s.mem, s.sq, s.gen).pc.reply.Some? {
      var q := s.r.q;
      L2GetIsFreshAllowedHit(s.mem, q.key, q.cap, q.now, s.r.gen);
      var i := FindFresh(s.mem, q.key, q.now, s.r.gen);
      assert i.Some?;
      HitIsLastStored(init, m, s.ops, q.key, q.now, s.r.gen, i.value);
      PlacedSized(s.mem, i.value);
    }
  }

  /** out is the complete allowed reply the map has for the reader's question. */
  ghost predicate IsLastStored(r: Reader, last: map<Key, Value>, out: seq<byte>) {
    var k := Folded(r.q.key);
    k in last && !last[k].blocked && last[k].reply == out && WireEq(last[k].name, r.q.key.name) &&
    last[k].deadline > r.q.now && last[k].gen == r.gen && 0 < |out| <= r.q.cap
  }

  lemma {:induction false} NoneFound(es: seq<Entry>, b: nat, w: nat, p: Entry -> bool)
    requires b + WAYS <= |es| && w <= WAYS && forall i :: b + w <= i < b + WAYS ==> !p(es[i])
    ensures FirstWay(es, b, w, p) == WAYS
    decreases WAYS - w
  {
    if w < WAYS {
      NoneFound(es, b, w + 1, p);
    }
  }

  /** A scan that ends without a match, while the number stands still, was right to. */
  lemma ScanMissIsMiss(r: Reader, mem: seq<Entry>, sq: nat, gen: nat)
    requires AllSized(mem) && InBounds(r) && Truthful(r, mem) && WayOf(r.pc).Some?
    requires Read(r, mem, sq, gen).pc == Returned(None)
    ensures L2Get(mem, r.q.key, r.q.cap, r.q.now, r.gen) == None
  {
    var w := WayOf(r.pc).value;
    assert Read(r, mem, sq, gen) == NextWay(r, w) && w + 1 == WAYS;
    FailedCheck(r, mem, sq, gen, w);
    var k := r.q.key;
    var p := (e: Entry) => Replayable(e, k, r.q.now, r.gen, r.q.cap);
    forall i | Base(k) <= i < Base(k) + WAYS ensures !p(mem[i]) {
      assert Way(mem, r, i - Base(k)) == mem[i];
    }
    hide Replayable, Read;
    NoneFound(mem, Base(k), 0, p);
    assert FindReplayable(mem, k, r.q.now, r.gen, r.q.cap) == None;
  }

  /** The other direction over whole runs: a call that runs out of ways while no store
      intervened misses only because the committed cache holds nothing for it to serve. */
  lemma QuietMissIsMiss(init: seq<Entry>, gen: nat, steps: seq<Step>)
    requires WellPlaced(init) && Legal(Start(init, gen)) && Steps(Start(init, gen), steps)
    ensures var s := After(Start(init, gen), steps);
            WayOf(s.r.pc).Some? && s.r.s1 == s.sq && Read(s.r, s.mem, s.sq, s.gen).pc == Returned(None) ==>
              L2Get(Run(init, s.ops), s.r.q.key, s.r.q.cap, s.r.q.now, s.r.gen) == None
  {
    StartHolds(init, gen);
    RunKeeps(Start(init, gen), init, steps);
    var s := After(Start(init, gen), steps);
    hide Steps, After, Run, L2Get, Read;
    if WayOf(s.r.pc).Some? && s.r.s1 == s.sq && Read(s.r, s.mem, s.sq, s.gen).pc == Returned(None) {
      assert s.mem[s.at := DoAll(s.mem[s.at], [])] == s.mem;
      ScanMissIsMiss(s.r, s.mem, s.sq, s.gen);
    }
  }
}
