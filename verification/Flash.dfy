/** The two flash slots of main/blocklist.c: which one a load picks, which one a save
    overwrites, and what a load finds after the power was cut during a save.

    A slot is an array of bytes. Erasing sets bytes to 0xFF in ascending order, then
    the record is written in ascending order; a power cut stops after any byte. */
module Flash {
  import opened Bytes
  import opened BlImage

  const MAGIC: nat := 0xB10CF1A6
  const HEADER: nat := 28
  const IDX_BYTES: nat := 262148
  const EXC_MAX: nat := 2048
  const CAPACITY: nat := 800000

  // ---------- Little-endian words

  function Get32(p: seq<byte>, off: nat): (v: nat)
    requires off + 4 <= |p|
    ensures v < 0x1_0000_0000
  {
    p[off] as int + p[off + 1] as int * 0x100 + p[off + 2] as int * 0x1_0000 + p[off + 3] as int * 0x100_0000
  }

  function Le32(v: nat): (p: seq<byte>)
    requires v < 0x1_0000_0000
    ensures |p| == 4
  {
    [v % 256, v / 0x100 % 256, v / 0x1_0000 % 256, v / 0x100_0000]
  }

  lemma Le32RoundTrip(v: nat, p: seq<byte>, off: nat)
    requires v < 0x1_0000_0000 && Holds(p, off, Le32(v))
    ensures Get32(p, off) == v
  {
    var w := Le32(v);
    var s := p[off..off + 4];
    assert p[off] == s[0] && p[off + 1] == s[1] && p[off + 2] == s[2] && p[off + 3] == s[3];
    var q1 := v / 0x100;
    var q2 := v / 0x1_0000;
    assert q1 / 256 == q2;
    assert q2 / 256 == v / 0x100_0000;
  }

  // ---------- Headers and bodies

  datatype Snapshot = Snapshot(count: nat, image: seq<byte>, excRecs: seq<byte>, excFlags: seq<byte>,
                               dropped: nat, excDropped: nat)

  function Seq(s: seq<byte>): nat
    requires |s| >= HEADER
  {
    Get32(s, 4)
  }

  function Count(s: seq<byte>): nat
    requires |s| >= HEADER
  {
    Get32(s, 8)
  }

  function ExcCount(s: seq<byte>): nat
    requires |s| >= HEADER
  {
    Get32(s, 20)
  }

  /** Magic and flash_header_valid. */
  predicate HeaderOk(s: seq<byte>, cap: nat) {
    |s| >= HEADER && Get32(s, 0) == MAGIC && s[12] == 40 && s[13] == 16 && s[14] == 3 &&
    0 < Count(s) <= cap && ExcCount(s) <= EXC_MAX
  }

  /** The words of an image's bucket index. */
  ghost function IndexWords(image: seq<byte>): (idx: seq<nat>)
    requires |image| >= IDX_BYTES
    ensures |idx| == BUCKETS + 1
  {
    seq(BUCKETS + 1, b requires 0 <= b <= BUCKETS => Get32(image, 4 * b))
  }

  function BodyEnd(s: seq<byte>): nat
    requires |s| >= HEADER
  {
    HEADER + IDX_BYTES + 3 * Count(s) + 6 * ExcCount(s)
  }

  function Image(s: seq<byte>): seq<byte>
    requires |s| >= HEADER && BodyEnd(s) <= |s|
  {
    s[HEADER..HEADER + IDX_BYTES + 3 * Count(s)]
  }

  /** The body can be read in full and its index passes the structural check. */
  ghost predicate BodyOk(s: seq<byte>, cap: nat)
    requires HeaderOk(s, cap)
  {
    BodyEnd(s) <= |s| && ValidIndex(IndexWords(Image(s)), Count(s))
  }

  /** What a slot holds for the loader. */
  function Contents(s: seq<byte>): Snapshot
    requires |s| >= HEADER && BodyEnd(s) <= |s|
  {
    var e := HEADER + IDX_BYTES + 3 * Count(s);
    Snapshot(Count(s), Image(s), s[e..e + 5 * ExcCount(s)], s[e + 5 * ExcCount(s)..BodyEnd(s)],
             Get32(s, 16), Get32(s, 24))
  }

  /** flash_try_load_slot on a slot whose header was accepted. */
  ghost function TryLoad(s: seq<byte>, cap: nat): Option<Snapshot>
    requires HeaderOk(s, cap)
  {
    if BodyOk(s, cap) then Some(Contents(s)) else None
  }

  /** Slot a is tried before slot b. */
  predicate AFirst(a: seq<byte>, b: seq<byte>, cap: nat) {
    HeaderOk(a, cap) && (!HeaderOk(b, cap) || Seq(a) >= Seq(b))
  }

  ghost function TryBoth(first: seq<byte>, second: seq<byte>, cap: nat): Option<Snapshot>
    requires HeaderOk(first, cap)
  {
    if TryLoad(first, cap).Some? then TryLoad(first, cap)
    else if HeaderOk(second, cap) then TryLoad(second, cap)
    else None
  }

  /** blocklist_load_flash. */
  ghost function Load(a: seq<byte>, b: seq<byte>, cap: nat): Option<Snapshot> {
    if AFirst(a, b, cap) then TryBoth(a, b, cap)
    else if HeaderOk(b, cap) then TryBoth(b, a, cap)
    else None
  }

  // ---------- Saving

  /** A snapshot as it can be live. */
  ghost predicate Live(n: Snapshot, cap: nat) {
    n.count <= cap && |n.image| == IDX_BYTES + 3 * n.count && ValidIndex(IndexWords(n.image), n.count) &&
    |n.excFlags| <= EXC_MAX && |n.excRecs| == 5 * |n.excFlags| &&
    n.dropped < 0x1_0000_0000 && n.excDropped < 0x1_0000_0000
  }

  /** It has something to save and fits slots of the given size. */
  predicate Fits(n: Snapshot, size: nat) {
    0 < n.count && HEADER + IDX_BYTES + 6 * EXC_MAX + 3 * n.count <= size
  }

  ghost predicate Savable(n: Snapshot, cap: nat, size: nat) {
    Live(n, cap) && Fits(n, size)
  }

  /** capacity_for_flash. */
  function CapacityForFlash(size: nat): nat {
    var reserved := HEADER + IDX_BYTES + 6 * EXC_MAX;
    if size <= reserved then 0 else (size - reserved) / 3
  }

  /** The slot a save erases: the one a load would not pick. */
  predicate SavesToB(a: seq<byte>, b: seq<byte>, cap: nat) {
    AFirst(a, b, cap)
  }

  function NextSeq(a: seq<byte>, b: seq<byte>, cap: nat): nat {
    var sb := if HeaderOk(b, cap) then Seq(b) else 0;
    (if HeaderOk(a, cap) && Seq(a) > sb then Seq(a) else sb) + 1
  }

  function HeaderBytes(n: Snapshot, sq: nat): (h: seq<byte>)
    requires sq < 0x1_0000_0000 && n.count < 0x1_0000_0000 && |n.excFlags| < 0x1_0000_0000
    requires n.dropped < 0x1_0000_0000 && n.excDropped < 0x1_0000_0000
    ensures |h| == HEADER
  {
    Le32(MAGIC) + Le32(sq) + Le32(n.count) + [40, 16, 3, 0] + Le32(n.dropped) + Le32(|n.excFlags|) + Le32(n.excDropped)
  }

  /** Everything a save writes, in order. */
  function Record(n: Snapshot, sq: nat): seq<byte>
    requires sq < 0x1_0000_0000 && n.count < 0x1_0000_0000 && |n.excFlags| < 0x1_0000_0000
    requires n.dropped < 0x1_0000_0000 && n.excDropped < 0x1_0000_0000
  {
    HeaderBytes(n, sq) + (n.image + n.excRecs + n.excFlags)
  }

  function Erased(n: nat): (e: seq<byte>)
    ensures |e| == n && forall i :: 0 <= i < n ==> e[i] == 0xFF
  {
    seq(n, _ => 0xFF)
  }

  function Min(x: nat, y: nat): nat {
    if x < y then x else y
  }

  /** The slot after k byte operations of a save: the erase, then the record. */
  function CutAt(slot: seq<byte>, rec: seq<byte>, k: nat): (s: seq<byte>)
    requires |rec| <= |slot|
    ensures |s| == |slot|
  {
    if k <= |slot| then Erased(k) + slot[k..]
    else rec[..Min(k - |slot|, |rec|)] + Erased(|slot| - Min(k - |slot|, |rec|))
  }

  /** Erase and program one slot, losing power after cut byte operations. */
  method ProgramSlot(slot: array<byte>, rec: seq<byte>, cut: nat)
    requires |rec| <= slot.Length
    modifies slot
    ensures slot[..] == CutAt(old(slot[..]), rec, cut)
  {
    ghost var s0 := slot[..];
    var done := 0;
    while done < slot.Length && done < cut
      invariant 0 <= done <= slot.Length && done <= cut
      invariant forall i :: 0 <= i < done ==> slot[i] == 0xFF
      invariant forall i :: done <= i < slot.Length ==> slot[i] == s0[i]
    {
      slot[done] := 0xFF;
      done := done + 1;
    }
    if cut <= slot.Length {
      assert slot[..] == Erased(cut) + s0[cut..];
      return;
    }
    var w := 0;
    while w < |rec| && w < cut - slot.Length
      invariant 0 <= w <= |rec| && w <= cut - slot.Length
      invariant forall i :: 0 <= i < w ==> slot[i] == rec[i]
      invariant forall i :: w <= i < slot.Length ==> slot[i] == 0xFF
    {
      slot[w] := rec[w];
      w := w + 1;
    }
    assert w == Min(cut - slot.Length, |rec|);
    assert slot[..] == rec[..w] + Erased(slot.Length - w);
  }

  /** blocklist_save_flash, interrupted after cut byte operations of its target. Nothing is
      touched for an empty snapshot, or one too large for a slot. */
  method SaveFlash(a: array<byte>, b: array<byte>, cap: nat, n: Snapshot, cut: nat)
    requires a != b && a.Length == b.Length && cap <= CAPACITY && Live(n, cap)
    requires NextSeq(a[..], b[..], cap) < 0x1_0000_0000
    modifies a, b
    ensures var (a0, b0) := (old(a[..]), old(b[..]));
            (a[..], b[..]) == if Fits(n, |a0|) then AfterSave(a0, b0, cap, n, cut) else (a0, b0)
  {
    if n.count == 0 {
      return;
    }
    if n.count > CapacityForFlash(a.Length) {
      return;
    }
    var sq := NextSeq(a[..], b[..], cap);
    var rec := Record(n, sq);
    if SavesToB(a[..], b[..], cap) {
      ProgramSlot(b, rec, cut);
    } else {
      ProgramSlot(a, rec, cut);
    }
  }

  ghost function AfterSave(a: seq<byte>, b: seq<byte>, cap: nat, n: Snapshot, cut: nat): (seq<byte>, seq<byte>)
    requires |a| == |b| && cap <= CAPACITY && Savable(n, cap, |a|) && NextSeq(a, b, cap) < 0x1_0000_0000
  {
    var rec := Record(n, NextSeq(a, b, cap));
    if SavesToB(a, b, cap) then (a, CutAt(b, rec, cut)) else (CutAt(a, rec, cut), b)
  }

  // ---------- What a cut leaves

  /** A slot whose header is accepted also loads. */
  ghost predicate Sound(s: seq<byte>, cap: nat) {
    HeaderOk(s, cap) ==> BodyOk(s, cap)
  }

  /** The byte operations after which the index sentinel is completely written. */
  function SentinelDone(size: nat): nat {
    size + HEADER + IDX_BYTES
  }

  lemma SentinelMissing(s: seq<byte>, cap: nat)
    requires cap <= CAPACITY && HeaderOk(s, cap) && |s| >= HEADER + IDX_BYTES && s[HEADER + IDX_BYTES - 1] == 0xFF
    ensures !BodyOk(s, cap)
  {
    if BodyEnd(s) <= |s| {
      var image := Image(s);
      assert image[IDX_BYTES - 1] == s[HEADER + IDX_BYTES - 1];
      assert Get32(image, 4 * BUCKETS) >= 0xFF00_0000;
      assert IndexWords(image)[BUCKETS] == Get32(image, 4 * BUCKETS);
    }
  }

  /** A save cut before the sentinel is complete leaves a slot that does not load. */
  lemma CutSlotDoesNotLoad(slot: seq<byte>, rec: seq<byte>, k: nat, cap: nat)
    requires cap <= CAPACITY && |rec| <= |slot| && HEADER + IDX_BYTES <= |slot|
    requires 0 < k < SentinelDone(|slot|)
    ensures var s := CutAt(slot, rec, k);
            HeaderOk(s, cap) ==> !BodyOk(s, cap)
  {
    var s := CutAt(slot, rec, k);
    if k <= |slot| {
      assert s[0] == 0xFF;
      assert Get32(s, 0) % 256 == 0xFF && MAGIC % 256 == 0xA6;
    } else if HeaderOk(s, cap) {
      SentinelMissing(s, cap);
    }
  }

  lemma UntouchedIsPicked(a: seq<byte>, b: seq<byte>, cap: nat)
    requires Sound(a, cap) && Sound(b, cap)
    ensures var kept := if SavesToB(a, b, cap) then a else b;
            Load(a, b, cap) == if HeaderOk(kept, cap) then TryLoad(kept, cap) else None
  {
  }

  /** Power lost at any byte before the index sentinel is complete: the next load
      returns what the last one would have. */
  lemma CutKeepsPreviousSnapshot(a: seq<byte>, b: seq<byte>, cap: nat, n: Snapshot, k: nat)
    requires |a| == |b| && cap <= CAPACITY && Savable(n, cap, |a|) && NextSeq(a, b, cap) < 0x1_0000_0000
    requires Sound(a, cap) && Sound(b, cap)
    requires k < SentinelDone(|a|)
    ensures var (a', b') := AfterSave(a, b, cap, n, k);
            Load(a', b', cap) == Load(a, b, cap)
  {
    var rec := Record(n, NextSeq(a, b, cap));
    var (a', b') := AfterSave(a, b, cap, n, k);
    hide HeaderOk, BodyOk, CutAt, Record;
    UntouchedIsPicked(a, b, cap);
    var target := if SavesToB(a, b, cap) then b else a;
    if k == 0 {
      CutNothing(target, rec);
    } else {
      CutSlotDoesNotLoad(target, rec, k, cap);
    }
  }

  lemma CutNothing(slot: seq<byte>, rec: seq<byte>)
    requires |rec| <= |slot|
    ensures CutAt(slot, rec, 0) == slot
  {
  }

  // ---------- What a finished save leaves

  /** The fields of the header, read back from a slot that starts with it. */
  lemma HeaderReadsBack(s: seq<byte>, n: Snapshot, sq: nat, size: nat, cap: nat)
    requires cap <= CAPACITY && Savable(n, cap, size) && sq < 0x1_0000_0000 && Holds(s, 0, HeaderBytes(n, sq))
    ensures HeaderOk(s, cap) && Seq(s) == sq && Count(s) == n.count && ExcCount(s) == |n.excFlags|
    ensures Get32(s, 16) == n.dropped && Get32(s, 24) == n.excDropped
  {
    var m, q, c, t := Le32(MAGIC), Le32(sq), Le32(n.count), [40, 16, 3, 0];
    var d, e, x := Le32(n.dropped), Le32(|n.excFlags|), Le32(n.excDropped);
    hide Le32, Get32;
    HoldsParts(s, 0, m + q + c + t + d + e, x);
    HoldsParts(s, 0, m + q + c + t + d, e);
    HoldsParts(s, 0, m + q + c + t, d);
    HoldsParts(s, 0, m + q + c, t);
    HoldsParts(s, 0, m + q, c);
    HoldsParts(s, 0, m, q);
    Le32RoundTrip(MAGIC, s, 0);
    Le32RoundTrip(sq, s, 4);
    Le32RoundTrip(n.count, s, 8);
    Le32RoundTrip(n.dropped, s, 16);
    Le32RoundTrip(|n.excFlags|, s, 20);
    Le32RoundTrip(n.excDropped, s, 24);
    var u := s[12..16];
    assert u == t && s[12] == u[0] && s[13] == u[1] && s[14] == u[2];
  }

  /** A slot whose header fields and parts are those of n holds n. */
  lemma PartsLoad(s: seq<byte>, n: Snapshot, cap: nat)
    requires cap <= CAPACITY && Savable(n, cap, |s|) && HeaderOk(s, cap)
    requires Count(s) == n.count && ExcCount(s) == |n.excFlags| && Get32(s, 16) == n.dropped &&
             Get32(s, 24) == n.excDropped
    requires Holds(s, HEADER, n.image) && Holds(s, HEADER + |n.image|, n.excRecs)
    requires Holds(s, HEADER + |n.image| + |n.excRecs|, n.excFlags)
    ensures TryLoad(s, cap) == Some(n)
  {
    hide Get32, IndexWords, ValidIndex;
    assert Image(s) == n.image;
  }

  lemma HeaderFirst(n: Snapshot, sq: nat, size: nat, cap: nat)
    requires cap <= CAPACITY && Savable(n, cap, size) && sq < 0x1_0000_0000
    ensures Record(n, sq) == HeaderBytes(n, sq) + (n.image + n.excRecs + n.excFlags) && |HeaderBytes(n, sq)| == HEADER
  {
    hide HeaderBytes;
  }

  /** A slot that starts with the whole record loads as the snapshot saved. */
  lemma RecordLoads(s: seq<byte>, n: Snapshot, sq: nat, cap: nat)
    requires cap <= CAPACITY && Savable(n, cap, |s|) && sq < 0x1_0000_0000 && Holds(s, 0, Record(n, sq))
    ensures HeaderOk(s, cap) && Seq(s) == sq && TryLoad(s, cap) == Some(n)
  {
    assert n.count < 0x1_0000_0000 && |n.excFlags| < 0x1_0000_0000 && n.dropped < 0x1_0000_0000 &&
      n.excDropped < 0x1_0000_0000;
    hide *;
    HeaderFirst(n, sq, |s|, cap);
    HoldsParts(s, 0, HeaderBytes(n, sq), n.image + n.excRecs + n.excFlags);
    HeaderReadsBack(s, n, sq, |s|, cap);
    HoldsParts(s, HEADER, n.image + n.excRecs, n.excFlags);
    HoldsParts(s, HEADER, n.image, n.excRecs);
    HeaderLong(s, cap);
    PartsLoad(s, n, cap);
  }

  lemma HeaderLong(s: seq<byte>, cap: nat)
    requires HeaderOk(s, cap)
    ensures |s| >= HEADER
  {
  }

  /** A finished save is what the next load returns, its sequence number is larger than
      any before, and both slots are again sound. */
  lemma FinishedSaveLoads(a: seq<byte>, b: seq<byte>, cap: nat, n: Snapshot, k: nat)
    requires |a| == |b| && cap <= CAPACITY && Savable(n, cap, |a|) && NextSeq(a, b, cap) < 0x1_0000_0000
    requires Sound(a, cap) && Sound(b, cap)
    requires k >= |a| + |Record(n, NextSeq(a, b, cap))|
    ensures var (a', b') := AfterSave(a, b, cap, n, k);
            Load(a', b', cap) == Some(n) && Sound(a', cap) && Sound(b', cap)
    ensures HeaderOk(a, cap) ==> Seq(a) < NextSeq(a, b, cap)
    ensures HeaderOk(b, cap) ==> Seq(b) < NextSeq(a, b, cap)
  {
    var sq := NextSeq(a, b, cap);
    var rec := Record(n, sq);
    var target := if SavesToB(a, b, cap) then b else a;
    var s := CutAt(target, rec, k);
    assert rec[..|rec|] == rec;
    assert s[0..0 + |rec|] == rec;
    RecordLoads(s, n, sq, cap);
    hide HeaderOk, BodyOk, CutAt, Record, Seq, Contents;
  }

  /** got is what slot s holds, and it has the record count and the bucket index of n. */
  ghost predicate CarriesIndexOf(s: seq<byte>, got: Snapshot, n: Snapshot)
    requires |n.image| >= IDX_BYTES
  {
    |s| >= HEADER && BodyEnd(s) <= |s| && got == Contents(s) &&
    got.count == n.count && IndexWords(got.image) == IndexWords(n.image)
  }

  /** Past the sentinel the cut slot is accepted, whatever is missing behind the index:
      bl_image_valid reads the index only. */
  lemma CutAfterSentinelIsAccepted(a: seq<byte>, b: seq<byte>, cap: nat, n: Snapshot, k: nat)
    requires |a| == |b| && cap <= CAPACITY && Savable(n, cap, |a|) && NextSeq(a, b, cap) < 0x1_0000_0000
    requires Sound(a, cap) && Sound(b, cap)
    requires k >= SentinelDone(|a|)
    ensures var (a', b') := AfterSave(a, b, cap, n, k);
            var target := if SavesToB(a, b, cap) then b' else a';
            Load(a', b', cap).Some? && CarriesIndexOf(target, Load(a', b', cap).value, n)
  {
    var sq := NextSeq(a, b, cap);
    var rec := Record(n, sq);
    var target := if SavesToB(a, b, cap) then b else a;
    var s := CutAt(target, rec, k);
    CutHoldsIndex(target, rec, k, n, sq);
    IndexedSlotLoads(s, n, sq, cap);
    hide HeaderOk, BodyOk, CutAt, Record, Seq, Contents, IndexWords, CarriesIndexOf;
  }

  lemma CutHoldsIndex(slot: seq<byte>, rec: seq<byte>, k: nat, n: Snapshot, sq: nat)
    requires n.count <= CAPACITY && sq < 0x1_0000_0000 && |n.excFlags| <= EXC_MAX
    requires n.dropped < 0x1_0000_0000 && n.excDropped < 0x1_0000_0000 && |n.image| >= IDX_BYTES
    requires rec == Record(n, sq) && |rec| <= |slot| && k >= SentinelDone(|slot|)
    ensures Holds(CutAt(slot, rec, k), 0, HeaderBytes(n, sq) + n.image[..IDX_BYTES])
  {
    var h := HeaderBytes(n, sq);
    hide HeaderBytes;
    var w := Min(k - |slot|, |rec|);
    assert w >= HEADER + IDX_BYTES;
    var s := CutAt(slot, rec, k);
    assert s[0..0 + (HEADER + IDX_BYTES)] == rec[..HEADER + IDX_BYTES];
    assert rec[..HEADER + IDX_BYTES] == h + n.image[..IDX_BYTES];
  }

  lemma IndexedSlotLoads(s: seq<byte>, n: Snapshot, sq: nat, cap: nat)
    requires cap <= CAPACITY && Savable(n, cap, |s|) && sq < 0x1_0000_0000
    requires Holds(s, 0, HeaderBytes(n, sq) + n.image[..IDX_BYTES])
    ensures HeaderOk(s, cap) && Seq(s) == sq && BodyOk(s, cap) && CarriesIndexOf(s, Contents(s), n)
  {
    HoldsParts(s, 0, HeaderBytes(n, sq), n.image[..IDX_BYTES]);
    HeaderReadsBack(s, n, sq, |s|, cap);
    hide HeaderOk, HeaderBytes, ValidIndex;
    var image := Image(s);
    forall i | 0 <= i < IDX_BYTES ensures image[i] == n.image[i] {
      assert s[HEADER..HEADER + IDX_BYTES][i] == n.image[..IDX_BYTES][i];
    }
    forall b | 0 <= b <= BUCKETS ensures Get32(image, 4 * b) == Get32(n.image, 4 * b) {
    }
    assert IndexWords(image) == IndexWords(n.image);
  }

  /** The bytes of the record that k operations leave unwritten are all those of an erased
      slot. */
  predicate RestIsErased(rec: seq<byte>, size: nat, k: nat)
    requires k >= size
  {
    forall i :: Min(k - size, |rec|) <= i < |rec| ==> rec[i] == 0xFF
  }

  /** Past the sentinel the next load returns the finished snapshot if and only if every byte
      not written yet would have been written as 0xFF. */
  lemma CutSlotIsWholeExactly(a: seq<byte>, b: seq<byte>, cap: nat, n: Snapshot, k: nat)
    requires |a| == |b| && cap <= CAPACITY && Savable(n, cap, |a|) && NextSeq(a, b, cap) < 0x1_0000_0000
    requires Sound(a, cap) && Sound(b, cap)
    requires k >= SentinelDone(|a|)
    ensures var (a', b') := AfterSave(a, b, cap, n, k);
            Load(a', b', cap) == Some(n) <==> RestIsErased(Record(n, NextSeq(a, b, cap)), |a|, k)
  {
    var sq := NextSeq(a, b, cap);
    var rec := Record(n, sq);
    var target := if SavesToB(a, b, cap) then b else a;
    var s := CutAt(target, rec, k);
    CutHoldsIndex(target, rec, k, n, sq);
    IndexedSlotLoads(s, n, sq, cap);
    WholeExactly(target, rec, k, n, sq, cap);
    hide HeaderOk, BodyOk, CutAt, Record, Seq, Contents, IndexWords, CarriesIndexOf, RestIsErased;
  }

  lemma WholeExactly(slot: seq<byte>, rec: seq<byte>, k: nat, n: Snapshot, sq: nat, cap: nat)
    requires cap <= CAPACITY && Savable(n, cap, |slot|) && sq < 0x1_0000_0000
    requires rec == Record(n, sq) && |rec| <= |slot| && k >= SentinelDone(|slot|)
    ensures var s := CutAt(slot, rec, k);
            |s| >= HEADER && BodyEnd(s) <= |s| && (Contents(s) == n <==> RestIsErased(rec, |slot|, k))
  {
    var s := CutAt(slot, rec, k);
    hide ValidIndex, HeaderBytes, Get32, IndexWords, CutAt;
    CutHoldsIndex(slot, rec, k, n, sq);
    HoldsParts(s, 0, HeaderBytes(n, sq), n.image[..IDX_BYTES]);
    HeaderReadsBack(s, n, sq, |s|, cap);
    CutPrefix(slot, rec, k);
    BodyAsBytes(s, rec, n, sq);
  }

  lemma CutPrefix(slot: seq<byte>, rec: seq<byte>, k: nat)
    requires |rec| <= |slot| && k >= |slot|
    ensures CutAt(slot, rec, k)[..|rec|] == rec <==> RestIsErased(rec, |slot|, k)
  {
    var s, w := CutAt(slot, rec, k), Min(k - |slot|, |rec|);
    if RestIsErased(rec, |slot|, k) {
      assert forall i :: 0 <= i < |rec| ==> s[i] == rec[i];
    } else {
      var i :| w <= i < |rec| && rec[i] != 0xFF;
      assert s[i] == 0xFF && s[..|rec|][i] == s[i];
    }
  }

  /** A slot with the header of n holds n exactly if all its bytes are those of the record. */
  lemma BodyAsBytes(s: seq<byte>, rec: seq<byte>, n: Snapshot, sq: nat)
    requires sq < 0x1_0000_0000 && n.count < 0x1_0000_0000 && |n.excFlags| < 0x1_0000_0000
    requires n.dropped < 0x1_0000_0000 && n.excDropped < 0x1_0000_0000
    requires |n.image| == IDX_BYTES + 3 * n.count && |n.excRecs| == 5 * |n.excFlags|
    requires rec == Record(n, sq) && |rec| <= |s| && Holds(s, 0, HeaderBytes(n, sq))
    requires Count(s) == n.count && ExcCount(s) == |n.excFlags| && Get32(s, 16) == n.dropped &&
             Get32(s, 24) == n.excDropped
    ensures BodyEnd(s) == |rec| && (Contents(s) == n <==> s[..|rec|] == rec)
  {
    hide HeaderBytes, Get32;
    var h := HeaderBytes(n, sq);
    var e, x := HEADER + |n.image|, HEADER + |n.image| + |n.excRecs|;
    if s[..|rec|] == rec {
      assert s[HEADER..e] == rec[HEADER..e] == n.image;
      assert s[e..x] == rec[e..x] == n.excRecs;
      assert s[x..|rec|] == rec[x..|rec|] == n.excFlags;
    }
    if Contents(s) == n {
      assert s[HEADER..e] == n.image && s[e..x] == n.excRecs && s[x..|rec|] == n.excFlags;
      assert s[..|rec|] == s[0..HEADER] + (s[HEADER..e] + s[e..x] + s[x..|rec|]);
    }
  }
}
