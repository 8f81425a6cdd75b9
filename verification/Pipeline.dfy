/** A whole reload of main/blocklist.c, from fetched feeds to verdicts: the loader, the
    exception table, the image, and what the resolver then says of a name. */
module Pipeline {
  import opened Bytes
  import opened Domain
  import opened Records
  import opened BlTable
  import opened BlImage
  import opened Verdict
  import opened Exceptions
  import opened BlLoad
  import BlRank

  // ---------- The bounds kept beside the tables

  /** The bound recorded for the exception table holds of it. */
  ghost predicate FeedBound(exc: seq<Exception>, top: nat) {
    (exc != [] ==> top >= 1) && forall e :: e in exc && e.flags.important ==> top == 3
  }

  lemma ScannedBound(recs: seq<Rec>, flags: seq<Flags>, u: nat, top: nat)
    requires u <= |recs| == |flags|
    requires u > 0 ==> top == if exists k :: 0 <= k < u && flags[k].important then 3 else 1
    ensures FeedBound(Entries(recs, flags, u), top)
  {
    var exc := Entries(recs, flags, u);
    forall e | e in exc && e.flags.important ensures top == 3 {
      var k: nat :| k < u && exc[k] == e;
      assert flags[k].important;
    }
  }

  // ---------- The reload

  /** What the arrays hold once the image is published: recs in the image, the exceptions
      in their table, and both in the snapshot. */
  ghost predicate Holds(snap: Snapshot, idx: seq<nat>, ent: seq<nat>, recs: seq<Rec>, excRecs: seq<Rec>,
                        excFlags: seq<Flags>, u: nat)
  {
    Strict(recs) && Encodes(idx, ent, recs) && ValidIndex(idx, |recs|) && |recs| <= |ent| &&
    snap.blocks == Elems(recs) &&
    u <= |excRecs| && u <= |excFlags| && snap.exceptions == Entries(excRecs, excFlags, u)
  }

  /** blocklist_load and its publish. count is None where the old list is kept; snap stands
      for the arrays the snapshot points to. */
  method Reload(l: Loader, primary: Feed, extras: seq<Extra>, idx: array<nat>, ent: array<nat>)
    returns (count: Option<nat>, u: nat, upto: nat, snap: Snapshot)
    requires l.Valid() && l.n == 0 && l.sortedPrefix == 0 && l.dropped == 0
    requires l.seen == {} && l.offers == 0 && l.allows == []
    requires idx.Length == BUCKETS + 1 && l.cap <= ent.Length && idx != ent
    modifies l, l.buf, l.excRecs, l.excFlags, idx, ent
    ensures upto <= |extras| && (count.Some? && upto < |extras| ==> extras[upto].stopped || l.n >= l.cap)
    ensures FeedOffers(primary.lines) <= l.cap ==>
              (count.None? <==> !primary.ok || FeedHashes(l.hash, primary.lines) == {})
    ensures count.Some? ==>
              count.value <= l.buf.Length && FeedBound(snap.exceptions, snap.feedMaxRank) &&
              Holds(snap, idx[..], ent[..], l.buf[..count.value], l.excRecs[..], l.excFlags[..], u)
    ensures var read := extras[..upto];
            count.Some? && FeedOffers(primary.lines) + ExtraOffers(read) <= l.cap ==>
              snap.blocks == FeedHashes(l.hash, primary.lines) + ExtraHashes(l.hash, read)
    ensures var allows := FeedAllows(l.hash, primary.lines) + ExtraAllows(l.hash, extras[..upto]);
            count.Some? ==>
              |snap.exceptions| <= |allows| && (l.excDropped > 0 ==> |allows| > l.excRecs.Length) &&
              (l.excDropped == 0 ==> IsTable(snap.exceptions, allows))
  {
    hide FeedHashes, ExtraHashes, FeedAllows, ExtraAllows, FeedOffers, ExtraOffers, Failed, Unread, Staged, Collected,
      IsTable, Encodes, ValidIndex, Entries, Elems, Strict, FeedBound;
    snap := Snapshot({}, [], 0);
    u := 0;
    var failures: nat;
    count, failures, upto := l.Load(primary, extras);
    if count.None? {
      return;
    }
    var n := count.value;
    ghost var recs := l.buf[..n];
    var top;
    u, top := l.FinishExceptions();
    assert l.buf[..n] == recs;
    StrictIsAscending(recs);
    var r := BuildImage(l.buf, n, idx, ent);
    BuiltIndexIsValid(idx[..], recs);
    ScannedBound(l.excRecs[..], l.excFlags[..], u, top);
    snap := Snapshot(Elems(l.buf[..n]), Entries(l.excRecs[..], l.excFlags[..], u), top);
  }

  lemma StrictIsAscending(s: seq<Rec>)
    requires Strict(s)
    ensures Ascending(s)
  {
  }

  // ---------- The probes on the published arrays

  /** feed_block_probe on the live image. */
  method FeedBlockProbe(snap: Snapshot, idx: array<nat>, ent: array<nat>, count: nat, h: Rec, ghost recs: seq<Rec>,
                        ghost excRecs: seq<Rec>, ghost excFlags: seq<Flags>, ghost u: nat)
    returns (r: Option<nat>)
    requires Holds(snap, idx[..], ent[..], recs, excRecs, excFlags, u) && count == |recs|
    ensures r == FeedBlock(snap.blocks, h)
  {
    hide Encodes, ValidIndex, Strict;
    var found := ImageContains(idx, ent, count, h, recs);
    r := if found then Some(0) else None;
  }

  // ---------- What a name's verdict then means

  /** A rule that was read lists the suffix of name at p, depth labels in. */
  ghost predicate RuleLists(hash: seq<byte> -> Rec, r: BlLoad.Rule, name: seq<byte>, p: nat, depth: nat) {
    BlRank.Reaches(name, 0, 0, p, depth) && p < |name| && !IsBareTld(name[p..]) && hash(name[p..]) in BlockHash(hash, r)
  }

  /** From feeds to verdict: after a reload of feeds that fit, with no exception, whitelist
      entry or custom rule, a name is blocked exactly when some rule read, in any feed, lists
      one of its suffixes, bare TLDs excepted. */
  lemma BlockedExactlyWhenListed(hash: seq<byte> -> Rec, lines: seq<seq<BlLoad.Rule>>, extras: seq<Extra>, s: Snapshot,
                                 t: Verdict.Rules, name: seq<byte>)
    requires s.blocks == FeedHashes(hash, lines) + ExtraHashes(hash, extras)
    requires s.exceptions == [] && t.whitelist == [] && t.custom == []
    ensures Judge(hash, s, t, name).state != BlRank.Allow
    ensures Judge(hash, s, t, name).state == BlRank.Block <==>
            exists r, p: nat, depth: nat :: ReadsRule(lines, extras, r) && RuleLists(hash, r, name, p, depth)
  {
    FeedsAloneBlockBySuffix(hash, s, t, name);
    hide Judge, FeedHashes, ExtraHashes, BlRank.Reaches, ReadsRule, BlockHash;
    forall p: nat, depth: nat | SuffixListed(hash, s, name, p, depth)
      ensures exists r :: ReadsRule(lines, extras, r) && RuleLists(hash, r, name, p, depth)
    {
      HashesAreReadRules(hash, lines, extras, hash(name[p..]));
      var r :| ReadsRule(lines, extras, r) && hash(name[p..]) in BlockHash(hash, r);
      assert RuleLists(hash, r, name, p, depth);
    }
    forall r, p: nat, depth: nat | ReadsRule(lines, extras, r) && RuleLists(hash, r, name, p, depth)
      ensures SuffixListed(hash, s, name, p, depth)
    {
      HashesAreReadRules(hash, lines, extras, hash(name[p..]));
    }
  }
}
