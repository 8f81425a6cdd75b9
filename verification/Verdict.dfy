/** The four verdict sources of main/blocklist.c, that each keeps its declared
    bound, and the two entry points that consult them. */
module Verdict {
  import opened Bytes
  import opened Domain
  import opened Records
  import opened BlTable
  import BlRank

  datatype Flags = Flags(exact: bool, important: bool)

  datatype Exception = Exception(rec: Rec, flags: Flags)

  /** What one reload publishes: the block set, the exception table, and the highest
      rank an exception has. */
  datatype Snapshot = Snapshot(blocks: set<Rec>, exceptions: seq<Exception>, feedMaxRank: nat)

  datatype CustomRule = CustomRule(name: seq<byte>, rank: nat, exact: bool)

  /** The small tables guarded by one mutex. */
  datatype Rules = Rules(whitelist: seq<seq<byte>>, custom: seq<CustomRule>, customMaxRank: nat)

  /** An exact rule takes part only at the full name. */
  predicate Applies(exact: bool, depth: nat) {
    !exact || depth == 0
  }

  function RuleRank(allow: bool, important: bool): nat {
    (if important then 2 else 0) + if allow then 1 else 0
  }

  // ---------- The probes

  function FeedBlock(blocks: set<Rec>, h: Rec): Option<nat> {
    if h in blocks then Some(0) else None
  }

  function FeedException(exc: seq<Exception>, h: Rec, depth: nat): Option<nat> {
    if exc == [] then None
    else if exc[0].rec == h then
      if Applies(exc[0].flags.exact, depth) then Some(RuleRank(true, exc[0].flags.important)) else None
    else FeedException(exc[1..], h, depth)
  }

  function Whitelisted(wl: seq<seq<byte>>, suffix: seq<byte>): Option<nat> {
    if suffix in wl then Some(1) else None
  }

  predicate Matches(c: CustomRule, suffix: seq<byte>, depth: nat) {
    c.name == suffix && Applies(c.exact, depth)
  }

  function Custom(rules: seq<CustomRule>, suffix: seq<byte>, depth: nat): Option<nat> {
    if rules == [] then None
    else
      var best := Custom(rules[..|rules| - 1], suffix, depth);
      var c := rules[|rules| - 1];
      if Matches(c, suffix, depth) && (best.None? || c.rank > best.value) then Some(c.rank) else best
  }

  /** feed_exc_probe: binary search, then the flags of the entry found. */
  method FeedExcProbe(recs: array<Rec>, flags: array<Flags>, n: nat, h: Rec, depth: nat, ghost exc: seq<Exception>)
    returns (r: Option<nat>)
    requires n == |exc| && n <= recs.Length && n <= flags.Length && Strict(recs[..n])
    requires forall i :: 0 <= i < n ==> exc[i] == Exception(recs[i], flags[i])
    ensures r == FeedException(exc, h, depth)
  {
    var idx := RecordsFind(recs, n, h);
    ExceptionLookup(exc, h, depth, recs[..n], idx);
    if idx < 0 {
      return None;
    }
    if !Applies(flags[idx].exact, depth) {
      return None;
    }
    r := Some(RuleRank(true, flags[idx].important));
  }

  lemma {:induction false} ExceptionLookup(exc: seq<Exception>, h: Rec, depth: nat, recs: seq<Rec>, idx: int)
    requires |recs| == |exc| && Strict(recs) && forall i :: 0 <= i < |exc| ==> exc[i].rec == recs[i]
    requires -1 <= idx < |exc| && (idx >= 0 ==> recs[idx] == h) && (idx < 0 ==> h !in recs)
    ensures FeedException(exc, h, depth) ==
            if idx >= 0 && Applies(exc[idx].flags.exact, depth)
            then Some(RuleRank(true, exc[idx].flags.important)) else None
  {
    if exc != [] && exc[0].rec != h {
      ExceptionLookup(exc[1..], h, depth, recs[1..], if idx >= 0 then idx - 1 else idx);
    }
  }

  /** custom_probe_locked: a scan keeping the best applicable rank. */
  method CustomProbe(rules: seq<CustomRule>, suffix: seq<byte>, depth: nat) returns (r: Option<nat>)
    ensures r == Custom(rules, suffix, depth)
  {
    r := None;
    for i := 0 to |rules|
      invariant r == Custom(rules[..i], suffix, depth)
    {
      assert rules[..i + 1][..i] == rules[..i];
      if Matches(rules[i], suffix, depth) {
        if r.None? || rules[i].rank > r.value {
          r := Some(rules[i].rank);
        }
      }
    }
    assert rules[..|rules|] == rules;
  }

  // ---------- Bounds

  /** The rank bounds the loaders keep beside the tables. */
  ghost predicate Consistent(s: Snapshot, t: Rules) {
    (s.exceptions != [] ==> s.feedMaxRank >= 1) &&
    (forall e :: e in s.exceptions && e.flags.important ==> s.feedMaxRank == 3) &&
    (forall c :: c in t.custom ==> c.rank <= t.customMaxRank)
  }

  function Sources(hash: seq<byte> -> Rec, s: Snapshot, t: Rules): seq<BlRank.Source> {
    [BlRank.Source((suffix, depth) => FeedBlock(s.blocks, hash(suffix)), 0),
     BlRank.Source((suffix, depth) => FeedException(s.exceptions, hash(suffix), depth), s.feedMaxRank),
     BlRank.Source((suffix, depth) => Whitelisted(t.whitelist, suffix), if t.whitelist != [] then 1 else 0),
     BlRank.Source((suffix, depth) => Custom(t.custom, suffix, depth), t.customMaxRank)]
  }

  lemma {:induction false} ExceptionBound(exc: seq<Exception>, h: Rec, depth: nat, top: nat)
    requires exc != [] ==> top >= 1
    requires forall e :: e in exc && e.flags.important ==> top == 3
    ensures FeedException(exc, h, depth).Some? ==> FeedException(exc, h, depth).value <= top
  {
    if exc != [] {
      ExceptionBound(exc[1..], h, depth, top);
    }
  }

  lemma {:induction false} CustomBound(rules: seq<CustomRule>, suffix: seq<byte>, depth: nat, top: nat)
    requires forall c :: c in rules ==> c.rank <= top
    ensures Custom(rules, suffix, depth).Some? ==> Custom(rules, suffix, depth).value <= top
  {
    if rules != [] {
      CustomBound(rules[..|rules| - 1], suffix, depth, top);
    }
  }

  /** None of the four probes ever answers above the bound it is registered with. */
  lemma ProbesKeepBounds(hash: seq<byte> -> Rec, s: Snapshot, t: Rules)
    requires Consistent(s, t)
    ensures forall k :: 0 <= k < 4 ==> BlRank.KeepsBound(Sources(hash, s, t)[k])
  {
    var srcs := Sources(hash, s, t);
    forall suffix: seq<byte>, depth: nat, k | 0 <= k < 4 && srcs[k].probe(suffix, depth).Some?
      ensures srcs[k].probe(suffix, depth).value <= srcs[k].maxRank
    {
      SourcesAnswer(hash, s, t, suffix, depth);
      ExceptionBound(s.exceptions, hash(suffix), depth, s.feedMaxRank);
      CustomBound(t.custom, suffix, depth, t.customMaxRank);
    }
  }

  /** The four sources, in the order they are registered. */
  lemma SourcesAnswer(hash: seq<byte> -> Rec, s: Snapshot, t: Rules, suffix: seq<byte>, depth: nat)
    ensures var srcs := Sources(hash, s, t);
            |srcs| == 4 &&
            srcs[0].probe(suffix, depth) == FeedBlock(s.blocks, hash(suffix)) &&
            srcs[1].probe(suffix, depth) == FeedException(s.exceptions, hash(suffix), depth) &&
            srcs[2].probe(suffix, depth) == Whitelisted(t.whitelist, suffix) &&
            srcs[3].probe(suffix, depth) == Custom(t.custom, suffix, depth)
  {
  }

  // ---------- The two entry points

  /** What the socket path is told: unproven marks a verdict that had to fail open. */
  datatype Answer = Answer(verdict: BlRank.Verdict, unproven: bool)

  datatype NbAnswer = Proven(verdict: BlRank.Verdict) | DeferLockBusy | DeferSnapshot

  const NOTHING: BlRank.Verdict := BlRank.Verdict(BlRank.NoMatch, 0, BlRank.NO_SRC, 0)

  /** The exhaustive verdict on a name. */
  ghost function Judge(hash: seq<byte> -> Rec, s: Snapshot, t: Rules, name: seq<byte>): BlRank.Verdict {
    BlRank.Conclude(BlRank.Exhaust(None, name, 0, 0, Sources(hash, s, t)))
  }

  /** blocklist_verdict. live is None while a reload is publishing; busy is a small
      table lock that could not be taken in time. */
  method BlocklistVerdict(hash: seq<byte> -> Rec, paused: bool, live: Option<Snapshot>, busy: bool, t: Rules,
                          name: seq<byte>)
    returns (a: Answer)
    requires live.Some? ==> Consistent(live.value, t)
    ensures name == [] || paused ==> a == Answer(NOTHING, false)
    ensures name != [] && !paused && (live.None? || busy) ==> a == Answer(NOTHING, true)
    ensures 0 < |name| <= 255 && !paused && live.Some? && !busy ==>
              a == Answer(Judge(hash, live.value, t, name), false)
  {
    if name == [] || paused {
      return Answer(NOTHING, false);
    }
    if live.None? || busy {
      return Answer(NOTHING, true);
    }
    ProbesKeepBounds(hash, live.value, t);
    var v := BlRank.Resolve(name, Sources(hash, live.value, t));
    a := Answer(v, false);
  }

  /** blocklist_verdict_nb. moved is a snapshot published while the walk was running. */
  method BlocklistVerdictNb(hash: seq<byte> -> Rec, paused: bool, live: Option<Snapshot>, busy: bool, moved: bool,
                            t: Rules, name: seq<byte>)
    returns (a: NbAnswer)
    requires live.Some? ==> Consistent(live.value, t)
    ensures name == [] || paused ==> a == Proven(NOTHING)
    ensures name != [] && !paused && live.None? ==> a == DeferSnapshot
    ensures name != [] && !paused && live.Some? && busy ==> a == DeferLockBusy
    ensures name != [] && !paused && live.Some? && !busy && moved ==> a == DeferSnapshot
    ensures 0 < |name| <= 255 && !paused && live.Some? && !busy && !moved ==>
              a == Proven(Judge(hash, live.value, t, name))
  {
    if name == [] || paused {
      return Proven(NOTHING);
    }
    if live.None? {
      return DeferSnapshot;
    }
    if busy {
      return DeferLockBusy;
    }
    ProbesKeepBounds(hash, live.value, t);
    var v := BlRank.Resolve(name, Sources(hash, live.value, t));
    if moved {
      return DeferSnapshot;
    }
    a := Proven(v);
  }

  // ---------- What the verdict means

  /** A whitelisted name, or any whitelisted parent of it that is not a bare TLD, is
      allowed whatever the feeds block at any depth, unless an important rule says
      otherwise. */
  lemma WhitelistOutranksFeeds(hash: seq<byte> -> Rec, s: Snapshot, t: Rules, name: seq<byte>, p: nat, depth: nat)
    requires Consistent(s, t) && t.customMaxRank <= 1
    requires BlRank.Reaches(name, 0, 0, p, depth) && p < |name| && !IsBareTld(name[p..]) && name[p..] in t.whitelist
    ensures Judge(hash, s, t, name).state == BlRank.Allow
  {
    var srcs := Sources(hash, s, t);
    BlRank.ExhaustIsFirstMaximum(name, srcs);
    SourcesAnswer(hash, s, t, name[p..], depth);
    assert BlRank.Answers(name, srcs, p, depth, 2, 1);
    var out := BlRank.Exhaust(None, name, 0, 0, srcs);
    var q: nat :| BlRank.Reaches(name, 0, 0, q, out.value.depth) &&
                  BlRank.Answers(name, srcs, q, out.value.depth, out.value.src, out.value.rank);
    ExceptionIsOdd(s.exceptions, hash(name[q..]), out.value.depth);
    CustomBound(t.custom, name[q..], out.value.depth, t.customMaxRank);
    SourcesAnswer(hash, s, t, name[q..], out.value.depth);
    hide BlRank.Exhaust, BlRank.Reaches, FeedException, Custom, Sources;
    assert out.value.rank >= 1;
    assert srcs[out.value.src].probe(name[q..], out.value.depth) == Some(out.value.rank);
    assert out.value.src == 0 || out.value.src == 1 || out.value.src == 2 || out.value.src == 3;
    assert out.value.rank % 2 == 1;
  }

  lemma {:induction false} ExceptionIsOdd(exc: seq<Exception>, h: Rec, depth: nat)
    ensures FeedException(exc, h, depth).Some? ==> FeedException(exc, h, depth).value % 2 == 1
  {
    if exc != [] {
      ExceptionIsOdd(exc[1..], h, depth);
    }
  }

  /** Something in force gives the suffix of name at p, depth labels in, the rank. */
  ghost predicate Gives(hash: seq<byte> -> Rec, s: Snapshot, t: Rules, name: seq<byte>, p: nat, depth: nat, rank: nat) {
    BlRank.Reaches(name, 0, 0, p, depth) && p < |name| && !IsBareTld(name[p..]) &&
    ((rank == 0 && hash(name[p..]) in s.blocks) ||
     FeedException(s.exceptions, hash(name[p..]), depth) == Some(rank) ||
     (rank == 1 && name[p..] in t.whitelist) ||
     exists c :: c in t.custom && Matches(c, name[p..], depth) && c.rank == rank)
  }

  /** The rank is the highest anything in force gives the name. */
  ghost predicate Highest(hash: seq<byte> -> Rec, s: Snapshot, t: Rules, name: seq<byte>, rank: nat) {
    (exists p: nat, depth: nat :: Gives(hash, s, t, name, p, depth, rank)) &&
    forall p: nat, depth: nat, r: nat :: Gives(hash, s, t, name, p, depth, r) ==> r <= rank
  }

  lemma {:induction false} CustomIsBest(rules: seq<CustomRule>, suffix: seq<byte>, depth: nat)
    ensures forall c :: c in rules && Matches(c, suffix, depth) ==>
              Custom(rules, suffix, depth).Some? && c.rank <= Custom(rules, suffix, depth).value
    ensures Custom(rules, suffix, depth).Some? ==>
              exists c :: c in rules && Matches(c, suffix, depth) && c.rank == Custom(rules, suffix, depth).value
  {
    if rules != [] {
      CustomIsBest(rules[..|rules| - 1], suffix, depth);
      assert rules == rules[..|rules| - 1] + [rules[|rules| - 1]];
    }
  }

  /** What a source answers is given, and what is given some source answers at least. */
  lemma GivenIsAnswered(hash: seq<byte> -> Rec, s: Snapshot, t: Rules, name: seq<byte>, p: nat, depth: nat)
    requires BlRank.Reaches(name, 0, 0, p, depth)
    ensures var srcs := Sources(hash, s, t);
            (forall i: nat, r: nat :: BlRank.Answers(name, srcs, p, depth, i, r) ==>
               Gives(hash, s, t, name, p, depth, r)) &&
            (forall r: nat :: Gives(hash, s, t, name, p, depth, r) ==>
               exists i: nat, r': nat :: BlRank.Answers(name, srcs, p, depth, i, r') && r <= r')
  {
    var srcs := Sources(hash, s, t);
    if p < |name| {
      var suffix := name[p..];
      SourcesAnswer(hash, s, t, suffix, depth);
      CustomIsBest(t.custom, suffix, depth);
      hide Sources, BlRank.Reaches, Custom, FeedException, IsBareTld;
      forall i: nat, r: nat | BlRank.Answers(name, srcs, p, depth, i, r) ensures Gives(hash, s, t, name, p, depth, r) {
        assert i == 0 || i == 1 || i == 2 || i == 3;
      }
      forall r: nat | Gives(hash, s, t, name, p, depth, r)
        ensures exists i: nat, r': nat :: BlRank.Answers(name, srcs, p, depth, i, r') && r <= r'
      {
        if FeedException(s.exceptions, hash(suffix), depth) == Some(r) {
          assert BlRank.Answers(name, srcs, p, depth, 1, r);
        } else if r == 0 && hash(suffix) in s.blocks {
          assert BlRank.Answers(name, srcs, p, depth, 0, 0);
        } else if r == 1 && suffix in t.whitelist {
          assert BlRank.Answers(name, srcs, p, depth, 2, 1);
        } else {
          assert BlRank.Answers(name, srcs, p, depth, 3, Custom(t.custom, suffix, depth).value);
        }
      }
    }
  }

  /** The verdict is the highest rank anything in force gives a suffix of the name that is
      not a bare TLD: an even rank blocks, an odd one allows. */
  lemma VerdictIsHighest(hash: seq<byte> -> Rec, s: Snapshot, t: Rules, name: seq<byte>)
    ensures var v := Judge(hash, s, t, name);
            (v.state == BlRank.NoMatch <==>
             forall p: nat, depth: nat, r: nat :: !Gives(hash, s, t, name, p, depth, r)) &&
            (v.state != BlRank.NoMatch ==>
               Highest(hash, s, t, name, v.rank) && (v.state == BlRank.Block <==> v.rank % 2 == 0))
  {
    var srcs := Sources(hash, s, t);
    BlRank.ExhaustIsFirstMaximum(name, srcs);
    var out := BlRank.Exhaust(None, name, 0, 0, srcs);
    hide BlRank.Exhaust, BlRank.Reaches, BlRank.Answers, Sources, Gives;
    forall p: nat, depth: nat, r: nat | Gives(hash, s, t, name, p, depth, r) && BlRank.Reaches(name, 0, 0, p, depth)
      ensures out.Some? && r <= out.value.rank
    {
      GivenIsAnswered(hash, s, t, name, p, depth);
    }
    forall p: nat, depth: nat, r: nat | Gives(hash, s, t, name, p, depth, r)
      ensures BlRank.Reaches(name, 0, 0, p, depth)
    {
      GivenIsReached(hash, s, t, name, p, depth, r);
    }
    if out.Some? {
      var q: nat :| BlRank.Reaches(name, 0, 0, q, out.value.depth) &&
                    BlRank.Answers(name, srcs, q, out.value.depth, out.value.src, out.value.rank);
      GivenIsAnswered(hash, s, t, name, q, out.value.depth);
    }
  }

  lemma GivenIsReached(hash: seq<byte> -> Rec, s: Snapshot, t: Rules, name: seq<byte>, p: nat, depth: nat, rank: nat)
    requires Gives(hash, s, t, name, p, depth, rank)
    ensures BlRank.Reaches(name, 0, 0, p, depth)
  {
    hide BlRank.Reaches;
  }

  /** The suffix of name at p, depth labels in, is a listed domain and not a bare TLD. */
  ghost predicate SuffixListed(hash: seq<byte> -> Rec, s: Snapshot, name: seq<byte>, p: nat, depth: nat) {
    BlRank.Reaches(name, 0, 0, p, depth) && p < |name| && !IsBareTld(name[p..]) && hash(name[p..]) in s.blocks
  }

  /** Where no exception, whitelist entry or custom rule exists, a name is blocked
      exactly when a suffix of it, bare TLDs excepted, is in the block set. */
  lemma FeedsAloneBlockBySuffix(hash: seq<byte> -> Rec, s: Snapshot, t: Rules, name: seq<byte>)
    requires s.exceptions == [] && t.whitelist == [] && t.custom == []
    ensures Judge(hash, s, t, name).state != BlRank.Allow
    ensures Judge(hash, s, t, name).state == BlRank.Block <==>
            exists p: nat, depth: nat :: SuffixListed(hash, s, name, p, depth)
  {
    var srcs := Sources(hash, s, t);
    BlRank.ExhaustIsFirstMaximum(name, srcs);
    var out := BlRank.Exhaust(None, name, 0, 0, srcs);
    hide BlRank.Exhaust, BlRank.Reaches, Sources;
    if out.Some? {
      var q: nat :| BlRank.Reaches(name, 0, 0, q, out.value.depth) &&
                    BlRank.Answers(name, srcs, q, out.value.depth, out.value.src, out.value.rank);
      SourcesAnswer(hash, s, t, name[q..], out.value.depth);
      assert srcs[out.value.src].probe(name[q..], out.value.depth) == Some(out.value.rank);
      assert out.value.src < 4;
      assert out.value.rank == 0 && SuffixListed(hash, s, name, q, out.value.depth);
    }
    forall p: nat, depth: nat | SuffixListed(hash, s, name, p, depth)
      ensures out.Some?
    {
      SourcesAnswer(hash, s, t, name[p..], depth);
      assert BlRank.Answers(name, srcs, p, depth, 0, 0);
    }
  }
}
