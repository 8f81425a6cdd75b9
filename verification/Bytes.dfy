/** Bytes, ASCII case and big-endian fields. */
module Bytes {

  type byte = b: int | 0 <= b < 256

  datatype Option<+T> = None | Some(value: T)

  const DOT: byte := 46

  predicate IsUpper(c: byte) {
    65 <= c <= 90
  }

  predicate IsLetter(c: byte) {
    IsUpper(c) || 97 <= c <= 122
  }

  function Lower(c: byte): byte {
    if IsUpper(c) then c + 32 else c
  }

  function LowerAll(s: seq<byte>): (t: seq<byte>)
    ensures |t| == |s| && forall i :: 0 <= i < |s| ==> t[i] == Lower(s[i])
  {
    seq(|s|, i requires 0 <= i < |s| => Lower(s[i]))
  }

  /** The two bytes at off, big-endian. */
  function Get16(p: seq<byte>, off: nat): (v: nat)
    requires off + 2 <= |p|
    ensures v < 0x1_0000
  {
    p[off] as int * 256 + p[off + 1]
  }

  function Put16(v: nat): seq<byte>
    requires v < 0x1_0000
  {
    [v / 256, v % 256]
  }

  function Zeros(n: nat): (z: seq<byte>)
    ensures |z| == n
  {
    seq(n, _ => 0)
  }

  lemma SliceOfSlice<T>(p: seq<T>, lo: nat, hi: nat, i: nat, j: nat)
    requires lo <= hi <= |p| && i <= j <= hi - lo
    ensures p[lo..hi][i..j] == p[lo + i..lo + j]
  {
    forall k | 0 <= k < j - i ensures p[lo..hi][i..j][k] == p[lo + i..lo + j][k] {
      assert p[lo..hi][i + k] == p[lo + (i + k)];
    }
  }

  /** pkt holds e at off. */
  ghost predicate Holds<T>(pkt: seq<T>, off: nat, e: seq<T>) {
    off + |e| <= |pkt| && pkt[off..off + |e|] == e
  }

  lemma HoldsParts<T>(pkt: seq<T>, off: nat, a: seq<T>, b: seq<T>)
    requires Holds(pkt, off, a + b)
    ensures Holds(pkt, off, a) && Holds(pkt, off + |a|, b)
  {
    var m := |a| + |b|;
    SliceOfSlice(pkt, off, off + m, 0, |a|);
    SliceOfSlice(pkt, off, off + m, |a|, m);
    assert (a + b)[0..|a|] == a && (a + b)[|a|..m] == b;
  }
}
