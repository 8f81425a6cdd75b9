/** The table of queries in flight of main/dns_server.cpp: transaction ids, lookups,
    joining a flight (single-flight coalescing) and the timeout sweep. */
module Upstream {
  import opened Bytes

  const SLOTS: nat := 64
  const MAX_WAITERS: nat := 4
  const JOIN_MAX_AGE: nat := 250
  const TIMEOUT: nat := 3000

  /** Who is waiting for a reply. rid, asked and qtype do not exist in the program: they
      number the queries dns_task has taken and say what each asked, and nothing reads them. */
  datatype Requester = Requester(rid: nat, txid: nat, tcp: bool, addr: nat, conn: nat, asked: seq<byte>, qtype: nat)

  /** One flight. auth and asked do not exist in the program either: the configuration
      under which the flight was allowed, and the name it asks for. */
  datatype Slot = Slot(inUse: bool, txid: nat, client: Requester, sent: nat,
                       qhash: nat, qkey: nat, qtype: nat, env: nat, gen: nat,
                       refreshOnly: bool, noCache: bool, paused: bool, exempt: bool,
                       waiters: seq<Requester>, auth: nat, asked: seq<byte>)

  function Idle(): Slot {
    Slot(false, 0, Requester(0, 0, false, 0, 0, [], 0), 0, 0, 0, 0, 0, 0, false, false, false, false, [], 0, [])
  }

  /** The 32-bit difference of two times in milliseconds. */
  function Age(now: nat, sent: nat): nat {
    (now - sent) % 0x1_0000_0000
  }

  // ---------- Lookups

  predicate Live(s: Slot, t: nat) {
    s.inUse && s.txid == t
  }

  ghost predicate Taken(ss: seq<Slot>, t: nat) {
    exists i :: 0 <= i < |ss| && Live(ss[i], t)
  }

  predicate Asks(s: Slot, qhash: nat, qkey: nat, qtype: nat) {
    s.inUse && !s.refreshOnly && s.qhash == qhash && s.qkey == qkey && s.qtype == qtype
  }

  predicate Joinable(s: Slot, qhash: nat, qkey: nat, qtype: nat, env: nat, now: nat) {
    s.inUse && !s.refreshOnly && !s.noCache && s.qhash == qhash && s.qkey == qkey && s.qtype == qtype && s.env == env &&
    |s.waiters| < MAX_WAITERS && Age(now, s.sent) < JOIN_MAX_AGE
  }

  /** The first slot from i on that passes the test, or |ss|. */
  function First(ss: seq<Slot>, i: nat, p: Slot -> bool): (r: nat)
    requires i <= |ss|
    ensures i <= r <= |ss|
    ensures r < |ss| ==> p(ss[r])
    ensures forall j :: i <= j < r ==> !p(ss[j])
    decreases |ss| - i
  {
    if i == |ss| || p(ss[i]) then i else First(ss, i + 1, p)
  }

  function FirstFree(ss: seq<Slot>): (r: nat)
    ensures r <= |ss| && (r < |ss| ==> !ss[r].inUse)
  {
    First(ss, 0, (s: Slot) => !s.inUse)
  }

  function FindLive(ss: seq<Slot>, t: nat): (r: nat)
    ensures r <= |ss| && (r < |ss| ==> Live(ss[r], t))
    ensures r == |ss| <==> !Taken(ss, t)
  {
    First(ss, 0, (s: Slot) => Live(s, t))
  }

  function FindAsking(ss: seq<Slot>, qhash: nat, qkey: nat, qtype: nat): (r: nat)
    ensures r <= |ss| && (r < |ss| ==> Asks(ss[r], qhash, qkey, qtype))
  {
    First(ss, 0, (s: Slot) => Asks(s, qhash, qkey, qtype))
  }

  function FindJoinable(ss: seq<Slot>, qhash: nat, qkey: nat, qtype: nat, env: nat, now: nat): (r: nat)
    ensures r <= |ss| && (r < |ss| ==> Joinable(ss[r], qhash, qkey, qtype, env, now))
  {
    First(ss, 0, (s: Slot) => Joinable(s, qhash, qkey, qtype, env, now))
  }

  // ---------- Updates

  /** What upstream_alloc makes of a recycled slot: nothing of the predecessor's flags or
      waiters is left. */
  function Claim(s: Slot, t: nat): Slot {
    s.(inUse := true, txid := t, client := s.client.(tcp := false), refreshOnly := false, noCache := false,
       paused := false, exempt := false, waiters := [])
  }

  function Join(s: Slot, r: Requester): Slot {
    s.(waiters := s.waiters + [r])
  }

  function EvictOne(s: Slot, now: nat): Slot {
    if s.inUse && Age(now, s.sent) > TIMEOUT then s.(inUse := false) else s
  }

  function Evict(ss: seq<Slot>, now: nat): (r: seq<Slot>)
    ensures |r| == |ss| && forall i :: 0 <= i < |ss| ==> r[i] == EvictOne(ss[i], now)
  {
    seq(|ss|, i requires 0 <= i < |ss| => EvictOne(ss[i], now))
  }

  // ---------- A fresh transaction id

  ghost predicate Acceptable(ss: seq<Slot>, t: nat) {
    0 < t < 0x1_0000 && !Taken(ss, t)
  }

  ghost function Txids(ss: seq<Slot>): (r: set<nat>)
    ensures |r| <= |ss|
    ensures forall i :: 0 <= i < |ss| ==> ss[i].txid in r
  {
    if ss == [] then {} else Txids(ss[..|ss| - 1]) + {ss[|ss| - 1].txid}
  }

  ghost function OneTo(n: nat): (r: set<nat>)
    ensures |r| == n && forall t :: t in r ==> 0 < t <= n
  {
    if n == 0 then {} else OneTo(n - 1) + {n}
  }

  /** The re-roll can always end: some nonzero 16-bit id is not in flight. */
  lemma FreshTxidExists(ss: seq<Slot>)
    requires |ss| <= SLOTS
    ensures exists t: nat :: Acceptable(ss, t)
  {
    var c, u := OneTo(|ss| + 1), Txids(ss);
    if c <= u {
      SubsetIsSmaller(c, u);
    }
    var t :| t in c && t !in u;
    assert Acceptable(ss, t);
  }

  lemma {:induction false} SubsetIsSmaller(a: set<nat>, b: set<nat>)
    requires a <= b
    ensures |a| <= |b|
  {
    if a != {} {
      var x :| x in a;
      SubsetIsSmaller(a - {x}, b - {x});
    }
  }

  /** The first acceptable roll from j on, where the one at hit is. */
  ghost function FirstRoll(ss: seq<Slot>, roll: nat -> nat, j: nat, hit: nat): (t: nat)
    requires j <= hit && Acceptable(ss, roll(hit) % 0x1_0000)
    ensures Acceptable(ss, t)
    decreases hit - j
  {
    if Acceptable(ss, roll(j) % 0x1_0000) then roll(j) % 0x1_0000 else FirstRoll(ss, roll, j + 1, hit)
  }

  // ---------- The table as the program keeps it

  class UpstreamTable {
    const slots: array<Slot>

    constructor ()
      ensures fresh(slots) && slots.Length == SLOTS && forall i :: 0 <= i < SLOTS ==> slots[i] == Idle()
    {
      slots := new Slot[SLOTS](_ => Idle());
    }

    /** txid_in_use. */
    method TxidInUse(t: nat) returns (used: bool)
      ensures used <==> Taken(slots[..], t)
    {
      for i := 0 to slots.Length
        invariant forall j :: 0 <= j < i ==> !Live(slots[j], t)
      {
        if slots[i].inUse && slots[i].txid == t {
          assert Live(slots[..][i], t);
          return true;
        }
      }
      return false;
    }

    /** upstream_alloc: claims the first free slot under a fresh id, or returns -1. roll is
        the random source, of which some roll is acceptable. */
    method Alloc(roll: nat -> nat, ghost hit: nat) returns (at: int, t: nat)
      requires Acceptable(slots[..], roll(hit) % 0x1_0000)
      modifies slots
      ensures at < 0 <==> FirstFree(old(slots[..])) == slots.Length
      ensures at < 0 ==> slots[..] == old(slots[..])
      ensures at >= 0 ==>
                at == FirstFree(old(slots[..])) && t == FirstRoll(old(slots[..]), roll, 0, hit) &&
                slots[..] == old(slots[..])[at := Claim(old(slots[..])[at], t)]
    {
      ghost var ss := slots[..];
      ghost var p := (s: Slot) => !s.inUse;
      var i: nat := 0;
      while i < slots.Length
        invariant i <= slots.Length && slots[..] == ss && First(ss, 0, p) == First(ss, i, p)
      {
        if !slots[i].inUse {
          var j: nat := 0;
          t := roll(0) % 0x1_0000;
          var used := TxidInUse(t);
          while t == 0 || used
            invariant slots[..] == ss && j <= hit && t == roll(j) % 0x1_0000 && used == Taken(ss, t)
            invariant FirstRoll(ss, roll, 0, hit) == FirstRoll(ss, roll, j, hit)
            decreases hit - j
          {
            j := j + 1;
            t := roll(j) % 0x1_0000;
            used := TxidInUse(t);
          }
          slots[i] := Claim(slots[i], t);
          return i, t;
        }
        i := i + 1;
      }
      return -1, 0;
    }

    /** upstream_find. */
    method Find(t: nat) returns (at: nat)
      ensures at == FindLive(slots[..], t)
    {
      at := 0;
      ghost var p := (s: Slot) => Live(s, t);
      while at < slots.Length
        invariant at <= slots.Length && First(slots[..], 0, p) == First(slots[..], at, p)
      {
        if slots[at].inUse && slots[at].txid == t {
          return;
        }
        at := at + 1;
      }
    }

    /** upstream_find_inflight. */
    method FindInflight(qhash: nat, qkey: nat, qtype: nat) returns (at: nat)
      ensures at == FindAsking(slots[..], qhash, qkey, qtype)
    {
      at := 0;
      ghost var p := (s: Slot) => Asks(s, qhash, qkey, qtype);
      while at < slots.Length
        invariant at <= slots.Length && First(slots[..], 0, p) == First(slots[..], at, p)
      {
        var s := slots[at];
        if s.inUse && !s.refreshOnly && s.qhash == qhash && s.qkey == qkey && s.qtype == qtype {
          return;
        }
        at := at + 1;
      }
    }

    /** upstream_find_joinable. */
    method FindToJoin(qhash: nat, qkey: nat, qtype: nat, env: nat, now: nat) returns (at: nat)
      ensures at == FindJoinable(slots[..], qhash, qkey, qtype, env, now)
    {
      at := 0;
      ghost var p := (s: Slot) => Joinable(s, qhash, qkey, qtype, env, now);
      while at < slots.Length
        invariant at <= slots.Length && First(slots[..], 0, p) == First(slots[..], at, p)
      {
        var s := slots[at];
        if s.inUse && !s.refreshOnly && !s.noCache && s.qhash == qhash && s.qkey == qkey && s.qtype == qtype &&
           s.env == env && |s.waiters| < MAX_WAITERS && Age(now, s.sent) < JOIN_MAX_AGE {
          return;
        }
        at := at + 1;
      }
    }

    /** upstream_join. */
    method JoinFlight(at: nat, r: Requester) returns (ok: bool)
      requires at < slots.Length
      modifies slots
      ensures ok == (|old(slots[at]).waiters| < MAX_WAITERS)
      ensures slots[..] == if ok then old(slots[..])[at := Join(old(slots[at]), r)] else old(slots[..])
    {
      if |slots[at].waiters| >= MAX_WAITERS {
        return false;
      }
      slots[at] := slots[at].(waiters := slots[at].waiters + [r]);
      return true;
    }

    /** upstream_evict_expired. */
    method EvictExpired(now: nat)
      modifies slots
      ensures slots[..] == Evict(old(slots[..]), now)
    {
      ghost var ss := slots[..];
      for i := 0 to slots.Length
        invariant forall j :: 0 <= j < slots.Length ==> slots[j] == if j < i then EvictOne(ss[j], now) else ss[j]
      {
        if slots[i].inUse && Age(now, slots[i].sent) > TIMEOUT {
          slots[i] := slots[i].(inUse := false);
        }
      }
    }
  }
}
