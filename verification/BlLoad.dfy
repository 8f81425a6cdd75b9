/** A blocklist reload, main/blocklist.c: feed lines into the staging buffer, each
    finished feed folded into the sorted prefix, the result published as an image. */
module BlLoad {
  import opened Bytes
  import opened Domain
  import opened Records
  import opened RadixSort
  import opened BlTable
  import opened BlImage
  import opened Verdict
  import opened Exceptions

  // ---------- Feeds

  datatype Kind = BlockKind | AllowKind | RejectKind

  /** One rule as the line parser produces it. */
  datatype Rule = Rule(kind: Kind, tok: seq<byte>, flags: Flags)

  /** A feed as fetched: the rules of each line delivered, and whether it ended well. */
  datatype Feed = Feed(lines: seq<seq<Rule>>, ok: bool)

  /** One extra-feed slot. stopped is a stop request seen just before it. */
  datatype Extra = Extra(configured: bool, enabled: bool, https: bool, stopped: bool, feed: Feed)

  /** rule_apply_feed_policy: a block rule cannot carry either flag in the table. */
  function FeedPolicy(r: Rule): Rule {
    if r.kind == BlockKind && r.flags.important then Rule(RejectKind, r.tok, Flags(false, false))
    else if r.kind == BlockKind then r.(flags := Flags(false, r.flags.important))
    else r
  }

  function Storable(tok: seq<byte>): Option<seq<byte>> {
    var name := Normalize(NAME_CAP, tok);
    if name == [] || IsBareTld(name) then None else Some(name)
  }

  /** The block hash a rule contributes, if any. */
  ghost function BlockHash(hash: seq<byte> -> Rec, r: Rule): set<Rec> {
    if FeedPolicy(r).kind == BlockKind && Storable(r.tok).Some? then {hash(Storable(r.tok).value)} else {}
  }

  /** The exception rule a rule contributes, if any. */
  ghost function AllowEntry(hash: seq<byte> -> Rec, r: Rule): seq<Exception> {
    if r.kind == AllowKind && Storable(r.tok).Some? then [Exception(hash(Storable(r.tok).value), r.flags)] else []
  }

  ghost function BlockHashes(hash: seq<byte> -> Rec, rules: seq<Rule>): set<Rec> {
    if rules == [] then {}
    else BlockHashes(hash, rules[..|rules| - 1]) + BlockHash(hash, rules[|rules| - 1])
  }

  ghost function AllowEntries(hash: seq<byte> -> Rec, rules: seq<Rule>): seq<Exception> {
    if rules == [] then []
    else AllowEntries(hash, rules[..|rules| - 1]) + AllowEntry(hash, rules[|rules| - 1])
  }

  ghost function FeedHashes(hash: seq<byte> -> Rec, lines: seq<seq<Rule>>): set<Rec> {
    if lines == [] then {}
    else FeedHashes(hash, lines[..|lines| - 1]) + BlockHashes(hash, lines[|lines| - 1])
  }

  /** The block hashes of every feed among the slots that a reload fetches. */
  ghost function ExtraHashes(hash: seq<byte> -> Rec, extras: seq<Extra>): set<Rec> {
    if extras == [] then {}
    else
      var e := extras[|extras| - 1];
      ExtraHashes(hash, extras[..|extras| - 1]) +
      if Fetched(e) then FeedHashes(hash, e.feed.lines) else {}
  }

  /** The block rules of a line that have something to store. */
  function LineOffers(rules: seq<Rule>): nat {
    if rules == [] then 0 else LineOffers(rules[..|rules| - 1]) + Offer(rules[|rules| - 1])
  }

  function Offer(r: Rule): nat {
    if FeedPolicy(r).kind == BlockKind && Storable(r.tok).Some? then 1 else 0
  }

  function FeedOffers(lines: seq<seq<Rule>>): nat {
    if lines == [] then 0 else FeedOffers(lines[..|lines| - 1]) + LineOffers(lines[|lines| - 1])
  }

  /** The block rules of every feed among the slots that a reload fetches. */
  function ExtraOffers(extras: seq<Extra>): nat {
    if extras == [] then 0
    else
      var e := extras[|extras| - 1];
      ExtraOffers(extras[..|extras| - 1]) + if Fetched(e) then FeedOffers(e.feed.lines) else 0
  }

  /** The slots, among those the loop got through, that count as failed: refused for not
      being https, or not received in full. */
  function Failed(extras: seq<Extra>): nat {
    if extras == [] then 0
    else
      var e := extras[|extras| - 1];
      Failed(extras[..|extras| - 1]) + if e.configured && e.enabled && !(e.https && e.feed.ok) then 1 else 0
  }

  predicate AnyEnabled(extras: seq<Extra>) {
    exists i :: 0 <= i < |extras| && extras[i].configured && extras[i].enabled
  }

  /** The slots a stop request leaves unread. */
  function Unread(extras: seq<Extra>): nat {
    if extras == [] then 0
    else (if extras[0].configured && extras[0].enabled then 1 else 0) + Unread(extras[1..])
  }

  /** The failures of a loop that got through upto slots. */
  function Failures(extras: seq<Extra>, upto: nat): nat
    requires upto <= |extras|
  {
    Failed(extras[..upto]) + if upto < |extras| && extras[upto].stopped then Unread(extras[upto..]) else 0
  }

  ghost function FeedAllows(hash: seq<byte> -> Rec, lines: seq<seq<Rule>>): seq<Exception> {
    if lines == [] then []
    else FeedAllows(hash, lines[..|lines| - 1]) + AllowEntries(hash, lines[|lines| - 1])
  }

  ghost function ExtraAllows(hash: seq<byte> -> Rec, extras: seq<Extra>): seq<Exception> {
    if extras == [] then []
    else
      var e := extras[|extras| - 1];
      ExtraAllows(hash, extras[..|extras| - 1]) +
      if Fetched(e) then FeedAllows(hash, e.feed.lines) else []
  }

  // ---------- What staging keeps

  /** The staging buffer b after seen has been offered: a strict prefix, a raw tail
      that repeats nothing of it, and, unless something was dropped, exactly seen. */
  ghost predicate Staged(b: seq<Rec>, n: nat, sp: nat, dropped: nat, seen: set<Rec>) {
    sp <= n <= |b| && Strict(b[..sp]) && Fresh(b[..sp], b[sp..n]) &&
    Elems(b[..n]) <= seen && (dropped == 0 ==> Elems(b[..n]) == seen)
  }

  /** A record is dropped only for want of room: after offers block rules, no more than
      offers records are stored or lost, and none is lost unless they exceed cap. */
  ghost predicate Roomy(n: nat, dropped: nat, offers: nat, cap: nat) {
    n + dropped <= offers && (dropped > 0 ==> offers > cap)
  }

  lemma StagedRepeat(b: seq<Rec>, n: nat, sp: nat, dropped: nat, seen: set<Rec>, h: Rec)
    requires Staged(b, n, sp, dropped, seen) && h in b[..sp]
    ensures Staged(b, n, sp, dropped, seen + {h})
  {
    assert b[..n] == b[..sp] + b[sp..n];
    assert h in Elems(b[..n]);
    assert seen + {h} == seen;
  }

  lemma StagedDrop(b: seq<Rec>, n: nat, sp: nat, dropped: nat, seen: set<Rec>, h: Rec)
    requires Staged(b, n, sp, dropped, seen)
    ensures Staged(b, n, sp, dropped + 1, seen + {h})
  {
  }

  lemma StagedStore(b: seq<Rec>, n: nat, sp: nat, dropped: nat, seen: set<Rec>, h: Rec)
    requires Staged(b, n, sp, dropped, seen) && n < |b| && h !in b[..sp]
    ensures Staged(b[n := h], n + 1, sp, dropped, seen + {h})
  {
    var c := b[n := h];
    assert c[..sp] == b[..sp];
    assert c[..n + 1] == b[..n] + [h];
    assert c[sp..n + 1] == b[sp..n] + [h];
    ElemsConcat(b[..n], [h]);
    ElemsConcat(b[sp..n], [h]);
    assert Elems([h]) == {h};
  }

  lemma StagedSorted(b: seq<Rec>, n: nat, dropped: nat, seen: set<Rec>)
    requires n <= |b| && Strict(b[..n]) && Elems(b[..n]) <= seen && (dropped == 0 ==> Elems(b[..n]) == seen)
    ensures Staged(b, n, n, dropped, seen)
  {
    assert b[n..n] == [];
  }

  lemma StagedWhole(b: seq<Rec>, n: nat, dropped: nat, seen: set<Rec>)
    requires Staged(b, n, n, dropped, seen)
    ensures n <= |b| && Strict(b[..n]) && Elems(b[..n]) <= seen && (dropped == 0 ==> Elems(b[..n]) == seen)
  {
  }

  lemma NothingStaged(b: seq<Rec>, n: nat, sp: nat, dropped: nat, seen: set<Rec>)
    requires Staged(b, n, sp, dropped, seen)
    ensures n == 0 && dropped == 0 ==> seen == {}
    ensures seen == {} ==> n == 0
  {
    assert b[..0] == [];
    assert n > 0 ==> b[..n][0] in Elems(b[..n]);
  }

  /** The exception staging after the rules allows. */
  ghost predicate Collected(recs: seq<Rec>, flags: seq<Flags>, n: nat, dropped: nat, allows: seq<Exception>) {
    n <= |recs| == |flags| &&
    var t := Entries(recs, flags, n);
    Distinct(t) && AllMerged(t, allows) && RecsOf(t) <= RecsOf(allows) &&
    (dropped == 0 ==> RecsOf(t) == RecsOf(allows)) && (dropped > 0 ==> n == |recs|) && n + dropped <= |allows|
  }

  lemma CollectMerge(recs: seq<Rec>, flags: seq<Flags>, n: nat, dropped: nat, allows: seq<Exception>, i: nat,
                     e: Exception)
    requires Collected(recs, flags, n, dropped, allows) && i < n && recs[i] == e.rec
    ensures Collected(recs, flags[i := Merge(flags[i], e.flags)], n, dropped, allows + [e])
  {
    var t := Entries(recs, flags, n);
    var u := Entries(recs, flags[i := Merge(flags[i], e.flags)], n);
    CollectOthers(t, allows, e);
    RecsOfSnoc(allows, e);
    RecsOfRecs(t);
    RecsOfRecs(u);
    assert Recs(t) == Recs(u);
    assert t[i].rec in RecsOf(t);
    forall k | 0 <= k < n ensures Merged(u[k].flags, u[k].rec, allows + [e]) {
      if k != i {
        assert t[k].rec != t[i].rec;
      }
    }
  }

  lemma CollectOthers(t: seq<Exception>, allows: seq<Exception>, e: Exception)
    requires AllMerged(t, allows)
    ensures forall k :: 0 <= k < |t| ==>
              Merged(if e.rec == t[k].rec then Merge(t[k].flags, e.flags) else t[k].flags, t[k].rec, allows + [e])
  {
    forall k | 0 <= k < |t|
      ensures Merged(if e.rec == t[k].rec then Merge(t[k].flags, e.flags) else t[k].flags, t[k].rec, allows + [e])
    {
      MergeOne(t[k].flags, t[k].rec, allows, e);
    }
  }

  lemma CollectDrop(recs: seq<Rec>, flags: seq<Flags>, n: nat, dropped: nat, allows: seq<Exception>, e: Exception)
    requires Collected(recs, flags, n, dropped, allows) && n == |recs| && e.rec !in recs[..n]
    ensures Collected(recs, flags, n, dropped + 1, allows + [e])
  {
    var t := Entries(recs, flags, n);
    CollectOthers(t, allows, e);
    RecsOfSnoc(allows, e);
    forall k | 0 <= k < n ensures t[k].rec != e.rec {
      assert recs[..n][k] == t[k].rec;
    }
  }

  lemma CollectStore(recs: seq<Rec>, flags: seq<Flags>, n: nat, dropped: nat, allows: seq<Exception>, e: Exception)
    requires Collected(recs, flags, n, dropped, allows) && n < |recs| && e.rec !in recs[..n]
    ensures Collected(recs[n := e.rec], flags[n := e.flags], n + 1, dropped, allows + [e])
  {
    var t := Entries(recs, flags, n);
    var u := Entries(recs[n := e.rec], flags[n := e.flags], n + 1);
    assert u == t + [e];
    CollectOthers(t, allows, e);
    RecsOfSnoc(allows, e);
    RecsOfSnoc(t, e);
    forall k | 0 <= k < n ensures t[k].rec != e.rec {
      assert recs[..n][k] == t[k].rec;
    }
    assert e.rec !in RecsOf(allows);
    FirstOfItsKind(e.rec, allows, e);
  }

  lemma HashesSnoc(hash: seq<byte> -> Rec, rules: seq<Rule>, i: nat)
    requires i < |rules|
    ensures BlockHashes(hash, rules[..i + 1]) == BlockHashes(hash, rules[..i]) + BlockHash(hash, rules[i])
    ensures AllowEntries(hash, rules[..i + 1]) == AllowEntries(hash, rules[..i]) + AllowEntry(hash, rules[i])
    ensures LineOffers(rules[..i + 1]) == LineOffers(rules[..i]) + Offer(rules[i])
  {
    assert rules[..i + 1][..i] == rules[..i];
  }

  lemma FeedSnoc(hash: seq<byte> -> Rec, lines: seq<seq<Rule>>, i: nat)
    requires i < |lines|
    ensures FeedHashes(hash, lines[..i + 1]) == FeedHashes(hash, lines[..i]) + BlockHashes(hash, lines[i])
    ensures FeedAllows(hash, lines[..i + 1]) == FeedAllows(hash, lines[..i]) + AllowEntries(hash, lines[i])
    ensures FeedOffers(lines[..i + 1]) == FeedOffers(lines[..i]) + LineOffers(lines[i])
  {
    hide BlockHashes, AllowEntries, LineOffers;
    assert lines[..i + 1][..i] == lines[..i];
  }

  predicate Fetched(x: Extra) {
    x.configured && x.enabled && x.https
  }

  lemma ExtraSnoc(hash: seq<byte> -> Rec, extras: seq<Extra>, i: nat)
    requires i < |extras|
    ensures ExtraHashes(hash, extras[..i + 1]) ==
            ExtraHashes(hash, extras[..i]) + if Fetched(extras[i]) then FeedHashes(hash, extras[i].feed.lines) else {}
    ensures ExtraAllows(hash, extras[..i + 1]) ==
            ExtraAllows(hash, extras[..i]) + if Fetched(extras[i]) then FeedAllows(hash, extras[i].feed.lines) else []
    ensures ExtraOffers(extras[..i + 1]) ==
            ExtraOffers(extras[..i]) + if Fetched(extras[i]) then FeedOffers(extras[i].feed.lines) else 0
    ensures var e := extras[i];
            Failed(extras[..i + 1]) ==
            Failed(extras[..i]) + if e.configured && e.enabled && !(e.https && e.feed.ok) then 1 else 0
  {
    hide FeedHashes, FeedAllows, FeedOffers;
    assert extras[..i + 1][..i] == extras[..i];
  }

  lemma Reassociate(a: seq<Exception>, b: seq<Exception>, c: seq<Exception>)
    ensures (a + b) + c == a + (b + c)
  {
  }

  lemma FromNothing(hashes: set<Rec>, allows: seq<Exception>)
    ensures {} + hashes == hashes == hashes + {} && [] + allows == allows == allows + []
  {
  }

  lemma NoRules(hash: seq<byte> -> Rec)
    ensures BlockHashes(hash, []) == {} && AllowEntries(hash, []) == [] && LineOffers([]) == 0
  {
  }

  lemma AppendNothing(a: seq<Exception>)
    ensures a + [] == a
  {
  }

  // ---------- The loader

  class Loader {
    const cap: nat
    const hash: seq<byte> -> Rec
    const buf: array<Rec>
    const excRecs: array<Rec>
    const excFlags: array<Flags>
    var n: nat
    var sortedPrefix: nat
    var dropped: nat
    var deduped: nat
    var rejected: nat
    var excN: nat
    var excDropped: nat
    ghost var seen: set<Rec>
    ghost var offers: nat
    ghost var allows: seq<Exception>

    ghost predicate Valid()
      reads this, buf, excRecs, excFlags
    {
      buf.Length == cap && buf != excRecs &&
      Staged(buf[..], n, sortedPrefix, dropped, seen) && Roomy(n, dropped, offers, cap) &&
      Collected(excRecs[..], excFlags[..], excN, excDropped, allows)
    }

    constructor (hash: seq<byte> -> Rec, buf: array<Rec>, excRecs: array<Rec>, excFlags: array<Flags>)
      requires buf != excRecs && excRecs.Length == excFlags.Length
      ensures Valid() && seen == {} && offers == 0 && allows == [] && n == 0 && sortedPrefix == 0 && dropped == 0
      ensures this.hash == hash && this.buf == buf && this.excRecs == excRecs && this.excFlags == excFlags
    {
      this.hash, this.buf, this.excRecs, this.excFlags, this.cap := hash, buf, excRecs, excFlags, buf.Length;
      n, sortedPrefix, dropped, deduped, rejected, excN, excDropped := 0, 0, 0, 0, 0, 0, 0;
      seen, offers, allows := {}, 0, [];
    }

    /** A storable block hash: already in the prefix, no room, or appended. */
    method TakeBlock(h: Rec)
      requires Valid()
      modifies this`n, this`dropped, this`deduped, this`seen, this`offers, buf
      ensures Valid() && seen == old(seen) + {h} && offers == old(offers) + 1
      ensures var known, full := h in old(buf[..sortedPrefix]), old(n) >= cap;
              deduped == old(deduped) + (if known then 1 else 0) &&
              dropped == old(dropped) + (if !known && full then 1 else 0) &&
              buf[..n] == old(buf[..n]) + if known || full then [] else [h]
      ensures old(n) <= n && buf[..sortedPrefix] == old(buf[..sortedPrefix])
    {
      ghost var b, e, f := buf[..], excRecs[..], excFlags[..];
      assert buf[..sortedPrefix] == b[..sortedPrefix];
      seen, offers := seen + {h}, offers + 1;
      if sortedPrefix > 0 {
        var at := RecordsFind(buf, sortedPrefix, h);
        if at >= 0 {
          StagedRepeat(b, n, sortedPrefix, dropped, old(seen), h);
          deduped := deduped + 1;
          return;
        }
      }
      if n >= cap {
        StagedDrop(b, n, sortedPrefix, dropped, old(seen), h);
        dropped := dropped + 1;
        return;
      }
      StagedStore(b, n, sortedPrefix, dropped, old(seen), h);
      buf[n] := h;
      n := n + 1;
      assert buf[..] == b[old(n) := h] && excRecs[..] == e && excFlags[..] == f;
    }

    /** An exception: merged into the entry for its hash, no room, or appended. */
    method TakeAllow(e: Exception)
      requires Valid()
      modifies this`excN, this`excDropped, this`allows, excRecs, excFlags
      ensures Valid() && allows == old(allows) + [e] && buf[..] == old(buf[..])
    {
      ghost var r, f := excRecs[..], excFlags[..];
      allows := allows + [e];
      for i := 0 to excN
        invariant excN == old(excN) && excDropped == old(excDropped)
        invariant excRecs[..] == r && excFlags[..] == f && buf[..] == old(buf[..])
        invariant e.rec !in r[..i]
      {
        if excRecs[i] == e.rec {
          CollectMerge(r, f, excN, excDropped, old(allows), i, e);
          excFlags[i] := Merge(excFlags[i], e.flags);
          assert excFlags[..] == f[i := Merge(f[i], e.flags)];
          return;
        }
        assert r[..i + 1] == r[..i] + [r[i]];
      }
      if excN >= excRecs.Length {
        CollectDrop(r, f, excN, excDropped, old(allows), e);
        excDropped := excDropped + 1;
        return;
      }
      CollectStore(r, f, excN, excDropped, old(allows), e);
      excRecs[excN], excFlags[excN] := e.rec, e.flags;
      assert excRecs[..] == r[excN := e.rec] && excFlags[..] == f[excN := e.flags];
      excN := excN + 1;
    }

    /** One rule of a line, after the feed policy. */
    method TakeRule(rule: Rule)
      requires Valid()
      modifies this`n, this`dropped, this`deduped, this`seen, this`offers, this`rejected,
               this`excN, this`excDropped, this`allows, buf, excRecs, excFlags
      ensures Valid() && old(n) <= n
      ensures buf[..sortedPrefix] == old(buf[..sortedPrefix])
      ensures seen == old(seen) + BlockHash(hash, rule)
      ensures allows == old(allows) + AllowEntry(hash, rule) && offers == old(offers) + Offer(rule)
    {
      assert sortedPrefix <= buf.Length;
      hide Staged, Collected;
      var r := FeedPolicy(rule);
      if r.kind == RejectKind {
        rejected := rejected + 1;
        return;
      }
      var name := Storable(r.tok);
      if name.None? {
        return;
      }
      if r.kind == AllowKind {
        ghost var b := buf[..];
        TakeAllow(Exception(hash(name.value), r.flags));
        assert buf[..sortedPrefix] == b[..sortedPrefix];
      } else {
        TakeBlock(hash(name.value));
      }
    }

    /** on_domain_line: every rule of one line. false asks the fetch to stop. */
    method OnDomainLine(rules: seq<Rule>, stop: bool) returns (go: bool)
      requires Valid()
      modifies this`n, this`dropped, this`deduped, this`seen, this`offers, this`rejected,
               this`excN, this`excDropped, this`allows, buf, excRecs, excFlags
      ensures Valid() && go == !stop && old(n) <= n
      ensures buf[..sortedPrefix] == old(buf[..sortedPrefix])
      ensures seen == old(seen) + if stop then {} else BlockHashes(hash, rules)
      ensures allows == old(allows) + if stop then [] else AllowEntries(hash, rules)
      ensures offers == old(offers) + if stop then 0 else LineOffers(rules)
    {
      assert sortedPrefix <= buf.Length;
      hide *;
      if stop {
        AppendNothing(allows);
        return false;
      }
      NoRules(hash);
      AppendNothing(allows);
      assert rules[..0] == [];
      for i := 0 to |rules|
        invariant Valid() && old(n) <= n
        invariant buf[..sortedPrefix] == old(buf[..sortedPrefix])
        invariant seen == old(seen) + BlockHashes(hash, rules[..i])
        invariant allows == old(allows) + AllowEntries(hash, rules[..i])
        invariant offers == old(offers) + LineOffers(rules[..i])
      {
        HashesSnoc(hash, rules, i);
        Reassociate(old(allows), AllowEntries(hash, rules[..i]), AllowEntry(hash, rules[i]));
        TakeRule(rules[i]);
      }
      assert rules[..|rules|] == rules;
      return true;
    }

    /** One feed, line by line. */
    method Fetch(feed: Feed) returns (ok: bool)
      requires Valid()
      modifies this`n, this`dropped, this`deduped, this`seen, this`offers, this`rejected,
               this`excN, this`excDropped, this`allows, buf, excRecs, excFlags
      ensures Valid() && ok == feed.ok && old(n) <= n
      ensures buf[..sortedPrefix] == old(buf[..sortedPrefix])
      ensures seen == old(seen) + FeedHashes(hash, feed.lines)
      ensures allows == old(allows) + FeedAllows(hash, feed.lines) && offers == old(offers) + FeedOffers(feed.lines)
    {
      for i := 0 to |feed.lines|
        invariant Valid() && old(n) <= n
        invariant buf[..sortedPrefix] == old(buf[..sortedPrefix])
        invariant seen == old(seen) + FeedHashes(hash, feed.lines[..i])
        invariant allows == old(allows) + FeedAllows(hash, feed.lines[..i])
        invariant offers == old(offers) + FeedOffers(feed.lines[..i])
      {
        FeedSnoc(hash, feed.lines, i);
        hide Staged, Collected, FeedHashes, FeedAllows, BlockHashes, AllowEntries, FeedOffers, LineOffers, Roomy;
        Reassociate(old(allows), FeedAllows(hash, feed.lines[..i]), AllowEntries(hash, feed.lines[i]));
        var go := OnDomainLine(feed.lines[i], false);
      }
      assert feed.lines[..|feed.lines|] == feed.lines;
      return feed.ok;
    }

    /** Everything staged so far, sorted and deduplicated; it becomes the prefix. */
    method SortAll()
      requires Valid() && sortedPrefix == 0
      modifies this`n, this`sortedPrefix, buf
      ensures Valid() && sortedPrefix == n
    {
      ghost var e, f := excRecs[..], excFlags[..];
      assert buf[..n] == buf[..][..n];
      n := SortDedup(buf, cap, n);
      assert buf[..n] == buf[..][..n] && excRecs[..] == e && excFlags[..] == f;
      sortedPrefix := n;
      StagedSorted(buf[..], n, dropped, seen);
    }

    /** The tail appended since the last fold joins the sorted prefix. */
    method FoldTail()
      requires Valid()
      modifies this`n, this`sortedPrefix, buf
      ensures Valid() && sortedPrefix == n
    {
      ghost var e, f := excRecs[..], excFlags[..];
      assert buf[..n] == buf[..][..n] && buf[..sortedPrefix] == buf[..][..sortedPrefix];
      assert buf[sortedPrefix..n] == buf[..][sortedPrefix..n];
      n := FoldSortedChunk(buf, cap, sortedPrefix, n);
      assert buf[..n] == buf[..][..n] && excRecs[..] == e && excFlags[..] == f;
      sortedPrefix := n;
      StagedSorted(buf[..], n, dropped, seen);
    }

    /** One extra feed, folded into the prefix as soon as it ended. */
    method FetchAndFold(feed: Feed) returns (ok: bool)
      requires Valid() && sortedPrefix == n
      modifies this`n, this`sortedPrefix, this`dropped, this`deduped, this`seen, this`offers, this`rejected,
               this`excN, this`excDropped, this`allows, buf, excRecs, excFlags
      ensures Valid() && sortedPrefix == n && ok == feed.ok
      ensures seen == old(seen) + FeedHashes(hash, feed.lines)
      ensures allows == old(allows) + FeedAllows(hash, feed.lines) && offers == old(offers) + FeedOffers(feed.lines)
    {
      hide FeedHashes, FeedAllows, FeedOffers, Staged, Collected, Roomy;
      var before := n;
      ok := Fetch(feed);
      if n > before {
        FoldTail();
      }
      sortedPrefix := n;
    }

    /** How many slots a stop request at slot i leaves unread. */
    method CountUnread(extras: seq<Extra>, i: nat) returns (skipped: nat)
      requires i <= |extras|
      ensures skipped == Unread(extras[i..])
    {
      skipped := 0;
      for j := i to |extras|
        invariant Unread(extras[i..]) == skipped + Unread(extras[j..])
      {
        assert extras[j..][1..] == extras[j + 1..];
        if extras[j].configured && extras[j].enabled {
          skipped := skipped + 1;
        }
      }
    }

    /** The extra feeds, slot by slot. upto is how many slots the loop got through: all
        of them, unless a stop request or a full buffer ended it. */
    method FetchExtras(extras: seq<Extra>) returns (failures: nat, upto: nat)
      requires Valid() && (AnyEnabled(extras) ==> sortedPrefix == n)
      modifies this`n, this`sortedPrefix, this`dropped, this`deduped, this`seen, this`offers, this`rejected,
               this`excN, this`excDropped, this`allows, buf, excRecs, excFlags
      ensures Valid() && upto <= |extras|
      ensures seen == old(seen) + ExtraHashes(hash, extras[..upto])
      ensures allows == old(allows) + ExtraAllows(hash, extras[..upto])
      ensures offers == old(offers) + ExtraOffers(extras[..upto])
      ensures upto < |extras| ==> extras[upto].stopped || (n >= cap && sortedPrefix == n)
      ensures failures == Failures(extras, upto)
      ensures sortedPrefix == n || (sortedPrefix == old(sortedPrefix) && n == old(n))
    {
      failures := 0;
      for i := 0 to |extras|
        invariant Valid()
        invariant AnyEnabled(extras) ==> sortedPrefix == n
        invariant sortedPrefix == n || (sortedPrefix == old(sortedPrefix) && n == old(n))
        invariant seen == old(seen) + ExtraHashes(hash, extras[..i])
        invariant allows == old(allows) + ExtraAllows(hash, extras[..i])
        invariant offers == old(offers) + ExtraOffers(extras[..i]) && failures == Failed(extras[..i])
      {
        var x := extras[i];
        assert x.configured && x.enabled ==> AnyEnabled(extras);
        ExtraSnoc(hash, extras, i);
        Reassociate(old(allows), ExtraAllows(hash, extras[..i]), FeedAllows(hash, x.feed.lines));
        AppendNothing(ExtraAllows(hash, extras[..i]));
        hide Staged, Collected, FeedHashes, FeedAllows, ExtraHashes, ExtraAllows, ExtraOffers, FeedOffers, Failed,
          Roomy, AnyEnabled;
        if !x.configured {
          continue;
        }
        if x.stopped {
          var unread := CountUnread(extras, i);
          return failures + unread, i;
        }
        if !x.enabled {
          continue;
        }
        if n >= cap {
          return failures, i;
        }
        if !x.https {
          failures := failures + 1;
          continue;
        }
        var ok := FetchAndFold(x.feed);
        if !ok {
          failures := failures + 1;
        }
      }
      assert extras[..|extras|] == extras;
      upto := |extras|;
    }

    /** The last sort, where no fold made it unnecessary. */
    method Settle()
      requires Valid() && (sortedPrefix == n || sortedPrefix == 0)
      modifies this`n, this`sortedPrefix, buf
      ensures Valid() && sortedPrefix == n && Strict(buf[..n])
      ensures Elems(buf[..n]) <= seen && (dropped == 0 ==> Elems(buf[..n]) == seen)
      ensures old(sortedPrefix) == old(n) ==> n == old(n)
    {
      hide Staged, Collected, Roomy, Strict, Elems;
      if sortedPrefix != n {
        SortAll();
      }
      StagedWhole(buf[..], n, dropped, seen);
      assert buf[..n] == buf[..][..n];
    }

    /** The extras on top of a received primary, and the last sort. */
    method AddExtras(extras: seq<Extra>) returns (failures: nat, upto: nat)
      requires Valid() && sortedPrefix == 0
      modifies this`n, this`sortedPrefix, this`dropped, this`deduped, this`seen, this`offers, this`rejected,
               this`excN, this`excDropped, this`allows, buf, excRecs, excFlags
      ensures Valid() && sortedPrefix == n && upto <= |extras| && Strict(buf[..n])
      ensures seen == old(seen) + ExtraHashes(hash, extras[..upto])
      ensures allows == old(allows) + ExtraAllows(hash, extras[..upto])
      ensures offers == old(offers) + ExtraOffers(extras[..upto])
      ensures Elems(buf[..n]) <= seen && (dropped == 0 ==> Elems(buf[..n]) == seen)
      ensures upto < |extras| ==> extras[upto].stopped || n >= cap
      ensures failures == Failures(extras, upto)
    {
      hide ExtraHashes, ExtraAllows, ExtraOffers, Failed, Unread, Staged, Collected, Roomy, AnyEnabled, Strict, Elems;
      if AnyEnabled(extras) {
        SortAll();
      }
      failures, upto := FetchExtras(extras);
      Settle();
    }

    /** blocklist_load up to the publish: the records to put in the image, or None
        where the old list is kept. */
    method Load(primary: Feed, extras: seq<Extra>) returns (count: Option<nat>, failures: nat, upto: nat)
      requires Valid() && n == 0 && sortedPrefix == 0 && dropped == 0 && seen == {} && offers == 0 && allows == []
      modifies this`n, this`sortedPrefix, this`dropped, this`deduped, this`seen, this`offers, this`rejected,
               this`excN, this`excDropped, this`allows, buf, excRecs, excFlags
      ensures upto <= |extras| && Valid()
      ensures seen == FeedHashes(hash, primary.lines) + if count.Some? then ExtraHashes(hash, extras[..upto]) else {}
      ensures allows == FeedAllows(hash, primary.lines) + if count.Some? then ExtraAllows(hash, extras[..upto]) else []
      ensures offers == FeedOffers(primary.lines) + if count.Some? then ExtraOffers(extras[..upto]) else 0
      ensures Roomy(n, dropped, offers, cap)
      ensures FeedOffers(primary.lines) <= cap ==>
                (count.None? <==> !primary.ok || FeedHashes(hash, primary.lines) == {})
      ensures count.Some? ==>
                count.value == n <= cap && Strict(buf[..n]) && Elems(buf[..n]) <= seen &&
                (dropped == 0 ==> Elems(buf[..n]) == seen) &&
                (upto < |extras| ==> extras[upto].stopped || n >= cap)
      ensures failures == if count.None? then 1 else Failures(extras, upto)
    {
      failures, upto := 0, 0;
      hide FeedHashes, FeedAllows, ExtraHashes, ExtraAllows, Collected, FeedOffers, ExtraOffers, Failed, Unread,
        Staged, Strict, Elems;
      var ok := Fetch(primary);
      FromNothing(FeedHashes(hash, primary.lines), FeedAllows(hash, primary.lines));
      NothingStaged(buf[..], n, sortedPrefix, dropped, seen);
      hide Roomy;
      if !ok || n == 0 {
        return None, 1, 0;
      }
      failures, upto := AddExtras(extras);
      count := Some(n);
    }

    /** The exceptions collected, sorted and deduplicated: their published table. */
    method FinishExceptions() returns (u: nat, top: nat)
      requires Valid()
      modifies excRecs, excFlags
      ensures u <= excRecs.Length == excFlags.Length && u <= |allows|
      ensures excDropped > 0 ==> |allows| > excRecs.Length
      ensures excDropped == 0 ==> IsTable(Entries(excRecs[..], excFlags[..], u), allows)
      ensures u == 0 ==> top == 0
      ensures u > 0 ==> top == if exists k :: 0 <= k < u && excFlags[k].important then 3 else 1
    {
      ghost var t := Entries(excRecs[..], excFlags[..], excN);
      hide SortEntries, IsTable, Ordered, StrictlyOrdered;
      SortPairs(excRecs, excFlags, excN);
      u := DedupExceptions(excRecs, excFlags, excN);
      SortedDistinctIsTable(t, allows, Entries(excRecs[..], excFlags[..], u));
      top := HighestRank(u);
    }

    /** The highest rank among the first u exceptions, as the publish records it. */
    method HighestRank(u: nat) returns (top: nat)
      requires u <= excFlags.Length
      ensures u == 0 ==> top == 0
      ensures u > 0 ==> top == if exists k :: 0 <= k < u && excFlags[k].important then 3 else 1
    {
      if u == 0 {
        return 0;
      }
      for i := 0 to u
        invariant forall k :: 0 <= k < i ==> !excFlags[k].important
      {
        if excFlags[i].important {
          return 3;
        }
      }
      return 1;
    }
  }

  // ---------- Order independence

  /** Every rule of every line a reload reads. */
  ghost predicate ReadsRule(lines: seq<seq<Rule>>, extras: seq<Extra>, r: Rule) {
    (exists i :: 0 <= i < |lines| && r in lines[i]) ||
    (exists k, i :: 0 <= k < |extras| && Fetched(extras[k]) &&
                    0 <= i < |extras[k].feed.lines| && r in extras[k].feed.lines[i])
  }

  lemma {:induction false} BlockHashesUnion(hash: seq<byte> -> Rec, rules: seq<Rule>, h: Rec)
    ensures h in BlockHashes(hash, rules) <==> exists r :: r in rules && h in BlockHash(hash, r)
  {
    if rules != [] {
      BlockHashesUnion(hash, rules[..|rules| - 1], h);
      assert rules == rules[..|rules| - 1] + [rules[|rules| - 1]];
    }
  }

  lemma {:induction false} FeedHashesUnion(hash: seq<byte> -> Rec, lines: seq<seq<Rule>>, h: Rec)
    ensures h in FeedHashes(hash, lines) <==>
            exists i, r :: 0 <= i < |lines| && r in lines[i] && h in BlockHash(hash, r)
  {
    if lines != [] {
      var k := |lines| - 1;
      FeedHashesUnion(hash, lines[..k], h);
      BlockHashesUnion(hash, lines[k], h);
      assert forall i :: 0 <= i < k ==> lines[..k][i] == lines[i];
    }
  }

  lemma {:induction false} ExtraHashesUnion(hash: seq<byte> -> Rec, extras: seq<Extra>, h: Rec)
    ensures h in ExtraHashes(hash, extras) <==>
            exists k :: 0 <= k < |extras| && Fetched(extras[k]) &&
                        h in FeedHashes(hash, extras[k].feed.lines)
  {
    if extras != [] {
      var m := |extras| - 1;
      ExtraHashesUnion(hash, extras[..m], h);
      assert forall k :: 0 <= k < m ==> extras[..m][k] == extras[k];
    }
  }

  lemma HashesAreReadRules(hash: seq<byte> -> Rec, lines: seq<seq<Rule>>, extras: seq<Extra>, h: Rec)
    ensures h in FeedHashes(hash, lines) + ExtraHashes(hash, extras) <==>
            exists r :: ReadsRule(lines, extras, r) && h in BlockHash(hash, r)
  {
    hide BlockHash, FeedHashes, ExtraHashes;
    FeedHashesUnion(hash, lines, h);
    ExtraHashesUnion(hash, extras, h);
    forall k | 0 <= k < |extras|
      ensures h in FeedHashes(hash, extras[k].feed.lines) <==>
              exists i, r :: 0 <= i < |extras[k].feed.lines| && r in extras[k].feed.lines[i] && h in BlockHash(hash, r)
    {
      FeedHashesUnion(hash, extras[k].feed.lines, h);
    }
  }

  lemma {:induction false} AllowEntriesUnion(hash: seq<byte> -> Rec, rules: seq<Rule>, e: Exception)
    ensures e in AllowEntries(hash, rules) <==> exists r :: r in rules && e in AllowEntry(hash, r)
  {
    if rules != [] {
      AllowEntriesUnion(hash, rules[..|rules| - 1], e);
      assert rules == rules[..|rules| - 1] + [rules[|rules| - 1]];
    }
  }

  lemma {:induction false} FeedAllowsUnion(hash: seq<byte> -> Rec, lines: seq<seq<Rule>>, e: Exception)
    ensures e in FeedAllows(hash, lines) <==>
            exists i, r :: 0 <= i < |lines| && r in lines[i] && e in AllowEntry(hash, r)
  {
    hide AllowEntries, AllowEntry;
    if lines != [] {
      var k := |lines| - 1;
      FeedAllowsUnion(hash, lines[..k], e);
      AllowEntriesUnion(hash, lines[k], e);
      assert forall i :: 0 <= i < k ==> lines[..k][i] == lines[i];
    }
  }

  lemma {:induction false} ExtraAllowsUnion(hash: seq<byte> -> Rec, extras: seq<Extra>, e: Exception)
    ensures e in ExtraAllows(hash, extras) <==>
            exists k :: 0 <= k < |extras| && Fetched(extras[k]) &&
                        e in FeedAllows(hash, extras[k].feed.lines)
  {
    hide FeedAllows;
    if extras != [] {
      var m := |extras| - 1;
      ExtraAllowsUnion(hash, extras[..m], e);
      assert forall k :: 0 <= k < m ==> extras[..m][k] == extras[k];
    }
  }

  lemma AllowsAreReadRules(hash: seq<byte> -> Rec, lines: seq<seq<Rule>>, extras: seq<Extra>, e: Exception)
    ensures e in FeedAllows(hash, lines) + ExtraAllows(hash, extras) <==>
            exists r :: ReadsRule(lines, extras, r) && e in AllowEntry(hash, r)
  {
    hide AllowEntry, FeedAllows, ExtraAllows;
    FeedAllowsUnion(hash, lines, e);
    ExtraAllowsUnion(hash, extras, e);
    forall k | 0 <= k < |extras|
      ensures e in FeedAllows(hash, extras[k].feed.lines) <==>
              exists i, r :: 0 <= i < |extras[k].feed.lines| && r in extras[k].feed.lines[i] && e in AllowEntry(hash, r)
    {
      FeedAllowsUnion(hash, extras[k].feed.lines, e);
    }
  }

  /** Two reloads that drop nothing and read the same rules, in whatever order of lines
      and feeds, publish the same records. */
  lemma ReloadIsOrderIndependent(hash: seq<byte> -> Rec, lines: seq<seq<Rule>>, extras: seq<Extra>, a: seq<Rec>,
                                 lines': seq<seq<Rule>>, extras': seq<Extra>, b: seq<Rec>)
    requires Strict(a) && Elems(a) == FeedHashes(hash, lines) + ExtraHashes(hash, extras)
    requires Strict(b) && Elems(b) == FeedHashes(hash, lines') + ExtraHashes(hash, extras')
    requires forall r :: ReadsRule(lines, extras, r) <==> ReadsRule(lines', extras', r)
    ensures a == b
  {
    hide BlockHash, FeedHashes, ExtraHashes, ReadsRule;
    forall h ensures h in Elems(a) <==> h in Elems(b) {
      HashesAreReadRules(hash, lines, extras, h);
      HashesAreReadRules(hash, lines', extras', h);
    }
    assert Elems(a) == Elems(b);
    StrictIsUnique(a, b);
  }
}
