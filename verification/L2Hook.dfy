/** l2_input_cb of main/dns_sink.cpp as the program runs it: the ladder of checks over a
    received frame, the cached or blocked answer built in the transmit buffer, and the
    headers turned around. */
module L2Hook {
  import opened Bytes
  import opened Domain
  import opened Ttl
  import opened Replies
  import opened Cache
  import opened CacheMap
  import opened Server
  import opened TwoPaths
  import BlRank
  import DnsTask
  import L2Reply
  import Verdict

  /** The checks up to the DNS header. The offset and length of the message, or -1. */
  method ClimbLadder(buf: array<byte>, ourIp: nat) returns (dns: int, n: nat)
    ensures dns < 0 <==> Ladder(buf[..], ourIp).None?
    ensures dns >= 0 ==> Ladder(buf[..], ourIp) == Some((dns, n))
  {
    ghost var f := buf[..];
    assert forall i :: 0 <= i < buf.Length ==> f[i] == buf[i];
    if ourIp == 0 || buf.Length < 14 + 20 + 8 + 13 {
      return -1, 0;
    }
    if buf[12] != 0x08 || buf[13] != 0x00 || buf[14] / 16 != 4 {
      return -1, 0;
    }
    var ihl := buf[14] % 16 * 4;
    if ihl < 20 || buf[14 + 9] != 17 {
      return -1, 0;
    }
    var iptot := buf[16] as int * 256 + buf[17];
    if iptot < ihl + 8 || 14 + iptot > buf.Length {
      return -1, 0;
    }
    if (buf[20] as int * 256 + buf[21]) % 0x4000 != 0 {
      return -1, 0;
    }
    if Get32(buf[..], 30) != ourIp {
      return -1, 0;
    }
    var src := Get32(buf[..], 26);
    if src == 0 || src == 0xFFFF_FFFF || buf[26] / 16 == 14 {
      return -1, 0;
    }
    var udp: nat := 14 + ihl;
    if buf[udp + 2] as int * 256 + buf[udp + 3] != 53 {
      return -1, 0;
    }
    var udplen := buf[udp + 4] as int * 256 + buf[udp + 5];
    if udplen < 8 + 12 || udp + udplen > 14 + iptot {
      return -1, 0;
    }
    if buf[udp + 8 + 2] >= 128 || buf[udp + 8 + 4] as int * 256 + buf[udp + 8 + 5] != 1 {
      return -1, 0;
    }
    return udp + 8, udplen - 8;
  }

  /** The reply in tx goes back where the frame f came from: addresses and ports exchanged,
      lengths for this payload, no UDP checksum, and a header that sums to all ones. */
  ghost predicate Turned(f: seq<byte>, tx: seq<byte>, udp: nat, payload: nat) {
    34 <= udp <= 74 && udp % 2 == 0 && udp + 8 <= |f| && udp + 8 + payload <= |tx| &&
    tx[0..6] == f[6..12] && tx[6..12] == f[0..6] && tx[26..30] == f[30..34] && tx[30..34] == f[26..30] &&
    tx[udp..udp + 2] == f[udp + 2..udp + 4] && tx[udp + 2..udp + 4] == f[udp..udp + 2] &&
    Get16(tx, 16) == udp - 14 + 8 + payload && Get16(tx, udp + 4) == 8 + payload && Get16(tx, udp + 6) == 0 &&
    L2Reply.Fold(L2Reply.WordSum(tx, 14, udp - 14)) == 0xFFFF
  }

  lemma TurnedFrom(f: seq<byte>, h: seq<byte>, tx: seq<byte>, udp: nat)
    requires 34 <= udp && udp + 8 <= |f| && udp + 8 <= |h| && h[..udp + 8] == f[..udp + 8]
    requires L2Reply.TurnedAround(h, tx, udp)
    ensures tx[0..6] == f[6..12] && tx[6..12] == f[0..6] && tx[26..30] == f[30..34] && tx[30..34] == f[26..30]
    ensures tx[udp..udp + 2] == f[udp + 2..udp + 4] && tx[udp + 2..udp + 4] == f[udp..udp + 2]
  {
    SamePart(f, h, udp + 8, 0, 6);
    SamePart(f, h, udp + 8, 6, 12);
    SamePart(f, h, udp + 8, 26, 30);
    SamePart(f, h, udp + 8, 30, 34);
    SamePart(f, h, udp + 8, udp, udp + 2);
    SamePart(f, h, udp + 8, udp + 2, udp + 4);
  }

  lemma SamePart(f: seq<byte>, h: seq<byte>, n: nat, i: nat, j: nat)
    requires n <= |f| && n <= |h| && h[..n] == f[..n] && i <= j <= n
    ensures h[i..j] == f[i..j]
  {
    SliceOfSlice(f, 0, n, i, j);
    SliceOfSlice(h, 0, n, i, j);
    assert f[0..n] == f[..n] && h[0..n] == h[..n];
  }

  /** The tail both answers share. */
  method Finish(buf: array<byte>, tx: array<byte>, dns: nat, payload: nat)
    requires buf != tx && 42 <= dns <= 82 && dns % 2 == 0 && dns <= buf.Length && dns + payload <= tx.Length <= 600
    requires tx[..dns] == buf[..dns]
    modifies tx
    ensures Turned(buf[..], tx[..], dns - 8, payload)
    ensures tx[dns..dns + payload] == old(tx[dns..dns + payload])
  {
    ghost var h := tx[..];
    L2Reply.FinishReply(tx, dns - 22, dns - 8, payload);
    assert h[..dns - 8 + 8] == buf[..][..dns];
    hide L2Reply.TurnedAround, L2Reply.WordSum, L2Reply.Fold;
    TurnedFrom(buf[..], h, tx[..], dns - 8);
  }

  /** rewrite_lookup_nb: 0 only where no rule covers the name, by its length. */
  method RewriteNb(g: Gates, name: seq<byte>) returns (r: int)
    ensures r == 0 <==> g.rules == [] || (!g.rulesBusy && FirstRule(g.rules, name).None?)
  {
    if |g.rules| == 0 {
      return 0;
    }
    if g.rulesBusy {
      return -1;
    }
    var hit := ScanRules(g.rules, name);
    return if hit.Some? then 1 else 0;
  }

  /** The gates and the question, on the message cut out of the frame. */
  method Probe(g: Gates, msg: array<byte>, src: nat) returns (r: Option<(seq<byte>, nat, nat)>)
    requires msg.Length >= 12
    ensures r == Probed(g, msg[..], src)
  {
    hide Question, FirstRule;
    if g.acl != [] && (g.aclBusy || !(src in g.acl)) {
      return None;
    }
    if g.paused(src) || (!g.bypassBusy && src in g.bypass) {
      return None;
    }
    assert msg[..msg.Length] == msg[..];
    var qend, name := ExtractQname(msg, msg.Length, 12);
    if qend < 0 {
      return None;
    }
    var qtype := msg[qend - 4] as int * 256 + msg[qend - 3];
    if qtype != 1 && qtype != 28 {
      return None;
    }
    if msg[qend - 2] as int * 256 + msg[qend - 1] != 1 {
      return None;
    }
    if qtype == 1 {
      var rw := RewriteNb(g, name);
      if rw != 0 {
        return None;
      }
    }
    return Some((name, qend, qtype));
  }

  /** The verdict as the hook may act on it: only a proven block counts. */
  method VerdictNb(env: Env, g: Gates, version: nat, name: seq<byte>) returns (blocked: bool)
    requires DnsTask.ConsistentTables(env) && 0 < |name| <= 255
    ensures blocked == ProvenBlock(env, g, version, name)
  {
    hide Verdict.Judge, Verdict.Consistent;
    DnsTask.TablesOf(env, version);
    var c := env.published(version);
    var a := Verdict.BlocklistVerdictNb(env.hash40, c.paused, c.live, g.tablesBusy, g.moved, c.rules, name);
    blocked := a.Proven? && a.verdict.state.Block?;
  }

  /** The cached reply into the transmit buffer, under the query's id. The frame length. */
  method SendCached(buf: array<byte>, tx: array<byte>, dns: nat, r: seq<byte>) returns (frame: nat)
    requires buf != tx && 42 <= dns <= 82 && dns % 2 == 0 && dns + 2 <= buf.Length && 12 <= |r| &&
      dns + |r| <= tx.Length <= 600
    modifies tx
    ensures frame == dns + |r| && tx[dns..frame] == Stamp(r, Get16(buf[..], dns))
    ensures Turned(buf[..], tx[..], dns - 8, |r|)
  {
    hide Turned, Stamp;
    Copy(tx, dns, r);
    ghost var t1 := tx[..];
    Copy(tx, 0, buf[..dns]);
    tx[dns], tx[dns + 1] := buf[dns], buf[dns + 1];
    frame := dns + |r|;
    assert t1[dns..frame] == r;
    CachedPayload(t1, tx[..], r, dns, buf[dns], buf[dns + 1]);
    assert tx[..dns] == buf[..dns];
    Finish(buf, tx, dns, |r|);
  }

  /** The blocked reply in the transmit buffer, where it fits. */
  method SendBlocked(buf: array<byte>, tx: array<byte>, dns: nat, qend: nat, qtype: nat) returns (frame: int)
    requires buf != tx && 42 <= dns <= 82 && dns % 2 == 0 && 12 <= qend && dns + qend <= buf.Length && tx.Length == 600
    requires qtype == 1 || qtype == 28
    modifies tx
    ensures var b := Blocked(buf[dns..dns + qend], qtype);
            if dns + |b| > 600 then frame < 0
            else dns <= frame <= 600 && tx[dns..frame] == b && Turned(buf[..], tx[..], dns - 8, frame - dns)
  {
    hide Turned, Blocked;
    frame := BuildBlockedFrame(buf, dns, qend, qtype, tx);
    if frame < 0 {
      return -1;
    }
    Finish(buf, tx, dns, frame - dns);
  }

  lemma CachedPayload(t1: seq<byte>, t2: seq<byte>, r: seq<byte>, dns: nat, a: byte, b: byte)
    requires |t1| == |t2| && dns + |r| <= |t1| && 12 <= |r| && t1[dns..dns + |r|] == r
    requires t2[dns] == a && t2[dns + 1] == b && forall i :: dns + 2 <= i < |t1| ==> t2[i] == t1[i]
    ensures t2[dns..dns + |r|] == Stamp(r, a as int * 256 + b)
  {
    var s := Stamp(r, a as int * 256 + b);
    StampAt(r, a, b);
    hide Stamp;
    forall i | 0 <= i < |r| ensures t2[dns..dns + |r|][i] == s[i] {
      assert t2[dns..dns + |r|][i] == t2[dns + i] && t1[dns..dns + |r|][i] == t1[dns + i];
    }
  }

  lemma StampAt(r: seq<byte>, a: byte, b: byte)
    requires |r| >= 2
    ensures var s := Stamp(r, a as int * 256 + b);
            s[0] == a && s[1] == b && forall i :: 2 <= i < |r| ==> s[i] == r[i]
  {
  }

  /** What dns_cache_l2_get may come back with: nothing, or a reply with a header that fits. */
  ghost predicate FitsRead(read: (Key, nat) -> Option<seq<byte>>) {
    forall k: Key, cap: nat :: read(k, cap).Some? ==> 12 <= |read(k, cap).value| <= cap
  }

  lemma ReadFits(read: (Key, nat) -> Option<seq<byte>>, k: Key, cap: nat)
    requires FitsRead(read)
    ensures read(k, cap).Some? ==> 12 <= |read(k, cap).value| <= cap
  {
  }

  lemma AnswerOfProbe(env: Env, g: Gates, version: nat, pkt: seq<byte>, src: nat, dns: nat, hit: Option<seq<byte>>)
    requires |pkt| >= 12 && dns <= 82
    ensures L2AnswerWith(env, g, version, pkt, src, dns, hit) ==
            match Probed(g, pkt, src)
            case None => None
            case Some((name, qend, qtype)) =>
              if hit.Some? then Some(Stamp(hit.value, Get16(pkt, 0)))
              else if ProvenBlock(env, g, version, name) && dns + |Blocked(pkt[..qend], qtype)| <= 600
              then Some(Blocked(pkt[..qend], qtype)) else None
  {
    hide Probed, Blocked, Stamp, Question, ProvenBlock;
  }

  /** l2_input_cb: the length of the frame it transmits, or -1 where the frame goes on to
      the socket path untouched. read is the cache read, whatever the writer is doing. */
  method L2Input(env: Env, g: Gates, version: nat, read: (Key, nat) -> Option<seq<byte>>, buf: array<byte>,
                 tx: array<byte>)
    returns (frame: int)
    requires buf != tx && tx.Length == 600 && FitsRead(read) && DnsTask.ConsistentTables(env)
    modifies tx
    ensures Ladder(buf[..], g.ourIp).None? ==> frame < 0
    ensures Ladder(buf[..], g.ourIp).Some? ==>
              var dns, pkt := Ladder(buf[..], g.ourIp).value.0, Message(buf[..], g.ourIp);
              var hit := if Question(pkt, 12).Some? then read(HookKey(env, pkt), TX_FRAME - dns) else None;
              var answer := L2AnswerWith(env, g, version, pkt, Get32(buf[..], 26), dns, hit);
              if answer.None? then frame < 0
              else
                dns <= frame <= 600 && tx[dns..frame] == answer.value && Turned(buf[..], tx[..], dns - 8, frame - dns)
  {
    hide Question, Blocked, ProvenBlock, Stamp, Probed, Ladder, Turned, FirstRule, FitsRead, HookKey, L2AnswerWith;
    var at, n := ClimbLadder(buf, g.ourIp);
    if at < 0 {
      return -1;
    }
    var dns: nat := at;
    var pkt := buf[dns..dns + n];
    LadderIsEven(buf[..], g.ourIp);
    assert pkt == Message(buf[..], g.ourIp);
    var src := Get32(buf[..], 26);
    var msg := new byte[n](i requires 0 <= i < |pkt| => pkt[i]);
    assert msg[..] == pkt;
    var q := Probe(g, msg, src);
    ghost var got := if Question(pkt, 12).Some? then read(HookKey(env, pkt), TX_FRAME - dns) else None;
    AnswerOfProbe(env, g, version, pkt, src, dns, got);
    if q.None? {
      return -1;
    }
    var (name, qend, qtype) := q.value;
    DnsTask.QuestionNameFits(pkt, 12);
    assert Get16(pkt, 0) == Get16(buf[..], dns);
    var k := HookKey(env, pkt);
    ReadFits(read, k, 600 - dns);
    var hit := read(k, 600 - dns);
    if hit.Some? {
      var cached := SendCached(buf, tx, dns, hit.value);
      return cached;
    }
    var blocked := VerdictNb(env, g, version, name);
    if !blocked {
      return -1;
    }
    SliceOfSlice(buf[..], dns, dns + n, 0, qend);
    assert pkt[..qend] == buf[dns..dns + qend];
    frame := SendBlocked(buf, tx, dns, qend, qtype);
  }

  lemma LadderIsEven(f: seq<byte>, ourIp: nat)
    ensures Ladder(f, ourIp).Some? ==>
              var (dns, n) := Ladder(f, ourIp).value;
              dns % 2 == 0 && 42 <= dns <= 82 && 12 <= n && dns + n <= |f|
  {
  }
}
