/** The shared tail of the L2 hook's two reply paths, main/dns_sink.cpp: the request's
    Ethernet, IP and UDP headers turned around in place, with a fresh IP checksum. */
module L2Reply {
  import opened Bytes

  const IP: nat := 14
  const IP_CHECKSUM: nat := 24

  // ---------- One's-complement arithmetic

  /** The end-around carry, folded until sixteen bits are left. */
  function Fold(x: nat): (f: nat)
    ensures f < 0x1_0000
  {
    if x < 0x1_0000 then x else Fold(x % 0x1_0000 + x / 0x1_0000)
  }

  /** Folding keeps the value modulo 65535, and only zero folds to zero. */
  lemma {:induction false} FoldIsResidue(x: nat) returns (q: nat)
    ensures x == q * 65535 + Fold(x)
    ensures Fold(x) == 0 <==> x == 0
  {
    if x < 0x1_0000 {
      q := 0;
    } else {
      var p := FoldIsResidue(x % 0x1_0000 + x / 0x1_0000);
      q := p + x / 0x1_0000;
    }
  }

  /** The sum of the n/2 big-endian words at off. */
  function WordSum(p: seq<byte>, off: nat, n: nat): nat
    requires n % 2 == 0 && off + n <= |p|
  {
    if n == 0 then 0 else WordSum(p, off, n - 2) + Get16(p, off + n - 2)
  }

  lemma {:induction false} WordSumOfEqual(p: seq<byte>, q: seq<byte>, off: nat, n: nat)
    requires n % 2 == 0 && off + n <= |p| && off + n <= |q|
    requires forall i :: off <= i < off + n ==> p[i] == q[i]
    ensures WordSum(p, off, n) == WordSum(q, off, n)
  {
    if n > 0 {
      WordSumOfEqual(p, q, off, n - 2);
    }
  }

  /** Filling in a zero word adds it to the sum. */
  lemma {:induction false} FillWord(p: seq<byte>, q: seq<byte>, off: nat, n: nat, k: nat)
    requires n % 2 == 0 && k % 2 == 0 && k + 2 <= n && off + n <= |p| == |q|
    requires forall i :: 0 <= i < |p| && i != off + k && i != off + k + 1 ==> p[i] == q[i]
    requires Get16(p, off + k) == 0
    ensures WordSum(q, off, n) == WordSum(p, off, n) + Get16(q, off + k)
  {
    if k + 2 == n {
      WordSumOfEqual(p, q, off, n - 2);
    } else {
      FillWord(p, q, off, n - 2, k);
    }
  }

  /** A header whose checksum field is the complement of the folded sum of the rest
      sums to all ones. */
  lemma ComplementMakesAllOnes(sum: nat)
    ensures Fold(sum + (65535 - Fold(sum))) == 0xFFFF
  {
    var q := FoldIsResidue(sum);
    var x := sum + (65535 - Fold(sum));
    var r := FoldIsResidue(x);
    assert Fold(x) == (q + 1 - r) * 65535;
    assert 0 < Fold(x) <= 65535;
    if q + 1 - r != 1 {
      assert false;
    }
  }

  // ---------- The reply

  /** Exactly the bytes of a reply header that the tail rewrites. */
  predicate Rewritten(i: nat, udp: nat) {
    i < 12 || 16 <= i < 18 || IP_CHECKSUM <= i < 34 || udp <= i < udp + 8
  }

  ghost predicate Swapped(a: seq<byte>, b: seq<byte>, at: nat, n: nat) {
    at + 2 * n <= |a| == |b| &&
    b[at..at + n] == a[at + n..at + 2 * n] && b[at + n..at + 2 * n] == a[at..at + n]
  }

  /** Addresses and ports exchanged. */
  ghost predicate TurnedAround(a: seq<byte>, b: seq<byte>, udp: nat) {
    Swapped(a, b, 0, 6) && Swapped(a, b, 26, 4) && Swapped(a, b, udp, 2)
  }

  /** Turning a reply around again addresses it as the request was. */
  lemma TurnedTwiceRestores(a: seq<byte>, b: seq<byte>, c: seq<byte>, udp: nat)
    requires TurnedAround(a, b, udp) && TurnedAround(b, c, udp)
    ensures c[0..12] == a[0..12] && c[26..34] == a[26..34] && c[udp..udp + 4] == a[udp..udp + 4]
  {
    SwapTwice(a, b, c, 0, 6);
    SwapTwice(a, b, c, 26, 4);
    SwapTwice(a, b, c, udp, 2);
  }

  lemma SwapTwice(a: seq<byte>, b: seq<byte>, c: seq<byte>, at: nat, n: nat)
    requires Swapped(a, b, at, n) && Swapped(b, c, at, n)
    ensures c[at..at + 2 * n] == a[at..at + 2 * n]
  {
    assert c[at..at + 2 * n] == c[at..at + n] + c[at + n..at + 2 * n];
    assert a[at..at + 2 * n] == a[at..at + n] + a[at + n..at + 2 * n];
  }

  /** Exchanges two adjacent fields of n bytes, through a temporary. */
  method Swap(tx: array<byte>, at: nat, n: nat)
    requires at + 2 * n <= tx.Length
    modifies tx
    ensures Swapped(old(tx[..]), tx[..], at, n)
    ensures forall i :: 0 <= i < tx.Length && !(at <= i < at + 2 * n) ==> tx[i] == old(tx[i])
  {
    ghost var t := tx[..];
    forall i | 0 <= i < 2 * n {
      tx[at + i] := tx[if i < n then at + i + n else at + i - n];
    }
    assert tx[..][at..at + n] == t[at + n..at + 2 * n];
    assert tx[..][at + n..at + 2 * n] == t[at..at + n];
  }

  /** The IP checksum over the header as it stands, its own field zeroed first. */
  method Checksum(tx: array<byte>, ihl: nat)
    requires 20 <= ihl <= 60 && ihl % 2 == 0 && IP + ihl <= tx.Length
    modifies tx
    ensures Fold(WordSum(tx[..], IP, ihl)) == 0xFFFF
    ensures forall i :: 0 <= i < tx.Length && i != IP_CHECKSUM && i != IP_CHECKSUM + 1 ==> tx[i] == old(tx[i])
  {
    tx[IP_CHECKSUM], tx[IP_CHECKSUM + 1] := 0, 0;
    ghost var p := tx[..];
    var sum := 0;
    var i := 0;
    while i < ihl
      invariant i <= ihl && i % 2 == 0 && sum == WordSum(p, IP, i) && tx[..] == p
    {
      sum := sum + tx[IP + i] as int * 256 + tx[IP + i + 1];
      i := i + 2;
    }
    ghost var total := sum;
    while sum >= 0x1_0000
      invariant sum >= 0 && Fold(sum) == Fold(total)
    {
      sum := sum % 0x1_0000 + sum / 0x1_0000;
    }
    var csum := 65535 - sum;
    tx[IP_CHECKSUM], tx[IP_CHECKSUM + 1] := csum / 256, csum % 256;
    FillWord(p, tx[..], IP, ihl, 10);
    ComplementMakesAllOnes(total);
  }

  /** l2_finish_reply, for a payload already in place behind the UDP header. */
  method FinishReply(tx: array<byte>, ihl: nat, udp: nat, payload: nat)
    requires 20 <= ihl <= 60 && ihl % 2 == 0 && udp == IP + ihl
    requires udp + 8 + payload <= tx.Length && ihl + 8 + payload < 0x1_0000
    modifies tx
    ensures TurnedAround(old(tx[..]), tx[..], udp)
    ensures Get16(tx[..], 16) == ihl + 8 + payload
    ensures Get16(tx[..], udp + 4) == 8 + payload && Get16(tx[..], udp + 6) == 0
    ensures Fold(WordSum(tx[..], IP, ihl)) == 0xFFFF
    ensures forall i :: 0 <= i < tx.Length && !Rewritten(i, udp) ==> tx[i] == old(tx[i])
    ensures tx[udp + 8..udp + 8 + payload] == old(tx[udp + 8..udp + 8 + payload])
  {
    ghost var t := tx[..];
    TurnAround(tx, udp);
    ghost var u := tx[..];
    var iptot := ihl + 8 + payload;
    tx[16], tx[17] := iptot / 256, iptot % 256;
    var udplen := 8 + payload;
    tx[udp + 4], tx[udp + 5] := udplen / 256, udplen % 256;
    tx[udp + 6], tx[udp + 7] := 0, 0;
    Checksum(tx, ihl);
    KeepsTurned(t, u, tx[..], udp);
  }

  lemma KeepsTurned(t: seq<byte>, u: seq<byte>, v: seq<byte>, udp: nat)
    requires TurnedAround(t, u, udp) && |v| == |u| && udp >= 34
    requires forall i :: (0 <= i < 12 || 26 <= i < 34 || udp <= i < udp + 4) && i < |u| ==> v[i] == u[i]
    ensures TurnedAround(t, v, udp)
  {
    SwapKept(t, u, v, 0, 6);
    SwapKept(t, u, v, 26, 4);
    SwapKept(t, u, v, udp, 2);
  }

  lemma SwapKept(t: seq<byte>, u: seq<byte>, v: seq<byte>, at: nat, n: nat)
    requires Swapped(t, u, at, n) && |v| == |u|
    requires forall i :: at <= i < at + 2 * n ==> v[i] == u[i]
    ensures Swapped(t, v, at, n)
  {
    assert v[at..at + n] == u[at..at + n];
    assert v[at + n..at + 2 * n] == u[at + n..at + 2 * n];
  }

  /** The three exchanges: MAC addresses, IP addresses, UDP ports. */
  method TurnAround(tx: array<byte>, udp: nat)
    requires 34 <= udp && udp + 4 <= tx.Length
    modifies tx
    ensures TurnedAround(old(tx[..]), tx[..], udp)
    ensures forall i :: 0 <= i < tx.Length && !(i < 12 || 26 <= i < 34 || udp <= i < udp + 4) ==> tx[i] == old(tx[i])
  {
    ghost var t := tx[..];
    Swap(tx, 0, 6);
    ghost var u := tx[..];
    Swap(tx, 26, 4);
    SwapKept(t, u, tx[..], 0, 6);
    SwapFrom(t, u, tx[..], 26, 4);
    ghost var v := tx[..];
    Swap(tx, udp, 2);
    SwapKept(t, v, tx[..], 0, 6);
    SwapKept(t, v, tx[..], 26, 4);
    SwapFrom(t, v, tx[..], udp, 2);
  }

  lemma SwapFrom(t: seq<byte>, u: seq<byte>, v: seq<byte>, at: nat, n: nat)
    requires Swapped(u, v, at, n) && |t| == |u|
    requires forall i :: at <= i < at + 2 * n ==> t[i] == u[i]
    ensures Swapped(t, v, at, n)
  {
    assert t[at..at + n] == u[at..at + n];
    assert t[at + n..at + 2 * n] == u[at + n..at + 2 * n];
  }
}
