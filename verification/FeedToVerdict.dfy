/** From the bytes of the feeds to the verdict on a name: downloads of main/http_fetch.c,
    the rules of their lines, a reload of main/blocklist.c, the custom rules, the resolver. */
module FeedToVerdict {
  import opened Bytes
  import opened Domain
  import opened Records
  import opened BlImage
  import opened Verdict
  import opened Exceptions
  import opened BlLoad
  import opened Pipeline
  import BlRank
  import Lines
  import Rules

  // ---------- What is received

  /** A download: the chunks that arrive, whether the transfer ended well, and how many
      lines are taken before a stop request reaches the callback. */
  datatype Download = Download(chunks: seq<seq<byte>>, ok: bool, stopAt: nat)

  /** One extra-feed slot, and what its download would bring. */
  datatype Slot = Slot(configured: bool, enabled: bool, https: bool, stopped: bool, load: Download)

  /** The lines whose rules are taken: those before a stop. */
  function TakenLines(d: Download): seq<seq<byte>> {
    var all := Lines.Received(d.chunks, d.ok);
    if |all| <= d.stopAt then all else all[..d.stopAt]
  }

  ghost function LineRules(line: seq<byte>): seq<BlLoad.Rule> {
    Rules.FeedRules(Rules.RulesFrom(line, 0))
  }

  ghost function AllRules(lines: seq<seq<byte>>): (r: seq<seq<BlLoad.Rule>>)
    ensures |r| == |lines| && forall i :: 0 <= i < |lines| ==> r[i] == LineRules(lines[i])
  {
    seq(|lines|, i requires 0 <= i < |lines| => LineRules(lines[i]))
  }

  ghost function FeedOf(d: Download): Feed {
    Feed(AllRules(TakenLines(d)), d.ok && |Lines.Received(d.chunks, d.ok)| <= d.stopAt)
  }

  ghost function ExtraOf(s: Slot): Extra {
    Extra(s.configured, s.enabled, s.https, s.stopped, FeedOf(s.load))
  }

  ghost function ExtrasOf(slots: seq<Slot>): (r: seq<Extra>)
    ensures |r| == |slots| && forall i :: 0 <= i < |slots| ==> r[i] == ExtraOf(slots[i])
  {
    seq(|slots|, i requires 0 <= i < |slots| => ExtraOf(slots[i]))
  }

  // ---------- Receiving

  lemma RulesSnoc(done: seq<BlLoad.Rule>, p: Rules.Parsed, rest: seq<Rules.Parsed>)
    ensures done + Rules.FeedRules([p] + rest) == (done + [Rules.FeedRule(p)]) + Rules.FeedRules(rest)
  {
    hide Rules.FeedRule;
  }

  /** Every rule of one line, as on_domain_line parses it. */
  method ParseLine(line: seq<byte>) returns (rules: seq<BlLoad.Rule>)
    ensures rules == LineRules(line)
  {
    hide Rules.ParseNext, Rules.RulesFrom, Rules.FeedRules, Rules.FeedRule;
    rules := [];
    var c: nat, more := 0, true;
    while more
      invariant LineRules(line) == rules + Rules.FeedRules(if more then Rules.RulesFrom(line, c) else [])
      decreases more, |line| - c
    {
      Rules.RulesFromUnfold(line, c);
      Rules.CursorMoves(line, c);
      var r, next := Rules.RuleParseNext(line, c);
      if r.None? {
        more := false;
      } else {
        RulesSnoc(rules, r.value, Rules.RulesFrom(line, next));
        rules := rules + [Rules.FeedRule(r.value)];
        c := next;
      }
    }
    NoRules();
  }

  lemma NoRules()
    ensures Rules.FeedRules([]) == []
  {
  }

  /** One download, to the rules of the lines taken. */
  method Receive(d: Download) returns (feed: Feed)
    ensures feed == FeedOf(d)
  {
    hide Lines.Received, LineRules;
    var heard, good := Lines.FetchLines(d.chunks, d.ok, d.stopAt);
    var n := if |heard| <= d.stopAt then |heard| else d.stopAt;
    assert heard[..n] == TakenLines(d);
    var lines: seq<seq<BlLoad.Rule>> := [];
    for i := 0 to n
      invariant lines == AllRules(heard[..i])
    {
      var rules := ParseLine(heard[i]);
      lines := lines + [rules];
    }
    feed := Feed(lines, good);
  }

  /** Every slot's download. */
  method ReceiveAll(slots: seq<Slot>) returns (extras: seq<Extra>)
    ensures extras == ExtrasOf(slots)
  {
    hide FeedOf;
    extras := [];
    for i := 0 to |slots|
      invariant extras == ExtrasOf(slots[..i])
    {
      var feed := Receive(slots[i].load);
      extras := extras + [Extra(slots[i].configured, slots[i].enabled, slots[i].https, slots[i].stopped, feed)];
    }
    assert slots[..|slots|] == slots;
  }

  // ---------- The rules read

  /** The rule stands on a line taken from the download. */
  ghost predicate InDownload(d: Download, p: Rules.Parsed) {
    exists i :: 0 <= i < |TakenLines(d)| && p in Rules.RulesFrom(TakenLines(d)[i], 0)
  }

  /** The rule was read by a reload of the primary and the slots. */
  ghost predicate Read(primary: Download, slots: seq<Slot>, p: Rules.Parsed) {
    InDownload(primary, p) ||
    exists k :: 0 <= k < |slots| && Fetched(ExtraOf(slots[k])) && InDownload(slots[k].load, p)
  }

  /** The exceptions a reload reads, in order. */
  ghost function AllowsRead(hash: seq<byte> -> Rec, primary: Download, slots: seq<Slot>): seq<Exception> {
    FeedAllows(hash, FeedOf(primary).lines) + ExtraAllows(hash, ExtrasOf(slots))
  }

  /** The block rules a reload reads that have something to store. */
  ghost function OffersRead(primary: Download, slots: seq<Slot>): nat {
    FeedOffers(FeedOf(primary).lines) + ExtraOffers(ExtrasOf(slots))
  }

  ghost function HashesRead(hash: seq<byte> -> Rec, primary: Download, slots: seq<Slot>): set<Rec> {
    FeedHashes(hash, FeedOf(primary).lines) + ExtraHashes(hash, ExtrasOf(slots))
  }

  lemma FeedHasRule(d: Download, r: BlLoad.Rule)
    ensures (exists i :: 0 <= i < |FeedOf(d).lines| && r in FeedOf(d).lines[i]) <==>
            exists p :: InDownload(d, p) && Rules.FeedRule(p) == r
  {
    var lines, taken := FeedOf(d).lines, TakenLines(d);
    hide TakenLines, Rules.RulesFrom, Rules.FeedRule;
    forall i | 0 <= i < |lines| && r in lines[i] ensures exists p :: InDownload(d, p) && Rules.FeedRule(p) == r {
      var ps := Rules.RulesFrom(taken[i], 0);
      var j :| 0 <= j < |ps| && Rules.FeedRules(ps)[j] == r;
      assert ps[j] in ps;
    }
    forall p | InDownload(d, p) && Rules.FeedRule(p) == r
      ensures exists i :: 0 <= i < |lines| && r in lines[i]
    {
      var i :| 0 <= i < |taken| && p in Rules.RulesFrom(taken[i], 0);
      var ps := Rules.RulesFrom(taken[i], 0);
      var j :| 0 <= j < |ps| && ps[j] == p;
      assert Rules.FeedRules(ps)[j] == r;
      assert r in lines[i];
    }
  }

  /** The rules a reload of these feeds reads are those on the lines taken. */
  lemma ReadIsParsed(primary: Download, slots: seq<Slot>, r: BlLoad.Rule)
    ensures ReadsRule(FeedOf(primary).lines, ExtrasOf(slots), r) <==>
            exists p :: Read(primary, slots, p) && Rules.FeedRule(p) == r
  {
    hide FeedOf, Rules.FeedRule, InDownload;
    FeedHasRule(primary, r);
    forall k | 0 <= k < |slots|
      ensures (exists i :: 0 <= i < |FeedOf(slots[k].load).lines| && r in FeedOf(slots[k].load).lines[i]) <==>
              exists p :: InDownload(slots[k].load, p) && Rules.FeedRule(p) == r
    {
      FeedHasRule(slots[k].load, r);
    }
  }

  /** The rule stands for a domain with the hash of the suffix. */
  ghost predicate Covers(hash: seq<byte> -> Rec, p: Rules.Parsed, suffix: seq<byte>) {
    p.Accept? && !IsBareTld(LowerAll(p.tok)) && hash(LowerAll(p.tok)) == hash(suffix)
  }

  lemma PlainIsStored(d: seq<byte>)
    requires Rules.Plain(d)
    ensures Storable(d) == if IsBareTld(LowerAll(d)) then None else Some(LowerAll(d))
  {
    assert StripDots(d) == d;
  }

  lemma ReadIsPlain(primary: Download, slots: seq<Slot>, p: Rules.Parsed)
    requires Read(primary, slots, p)
    ensures p.Accept? ==> Rules.Plain(p.tok)
  {
    hide Rules.RulesFrom, Rules.Plain, TakenLines;
    if InDownload(primary, p) {
      InDownloadIsPlain(primary, p);
    } else {
      var k :| 0 <= k < |slots| && InDownload(slots[k].load, p);
      InDownloadIsPlain(slots[k].load, p);
    }
  }

  lemma InDownloadIsPlain(d: Download, p: Rules.Parsed)
    requires InDownload(d, p)
    ensures p.Accept? ==> Rules.Plain(p.tok)
  {
    hide Rules.RulesFrom, Rules.Plain, TakenLines;
    var i :| 0 <= i < |TakenLines(d)| && p in Rules.RulesFrom(TakenLines(d)[i], 0);
    Rules.LineYieldsPlainRules(TakenLines(d)[i], 0);
  }

  /** What a rule read puts in the tables. */
  lemma RuleStores(hash: seq<byte> -> Rec, p: Rules.Parsed, suffix: seq<byte>)
    requires p.Accept? ==> Rules.Plain(p.tok)
    ensures hash(suffix) in BlockHash(hash, Rules.FeedRule(p)) <==>
            Covers(hash, p, suffix) && !p.allow && !p.important
    ensures forall e :: e in AllowEntry(hash, Rules.FeedRule(p)) && e.rec == hash(suffix) <==>
                        Covers(hash, p, suffix) && p.allow && e == Exception(hash(suffix), Flags(p.exact, p.important))
  {
    if p.Accept? {
      PlainIsStored(p.tok);
      hide Rules.Plain, Storable, IsBareTld, LowerAll;
    }
  }

  // ---------- What the rules in force say of a name

  ghost predicate BlockRead(hash: seq<byte> -> Rec, primary: Download, slots: seq<Slot>, suffix: seq<byte>) {
    exists p :: Read(primary, slots, p) && Covers(hash, p, suffix) && !p.allow && !p.important
  }

  ghost predicate AllowRead(hash: seq<byte> -> Rec, primary: Download, slots: seq<Slot>, suffix: seq<byte>,
                            depth: nat)
  {
    exists p :: Read(primary, slots, p) && Covers(hash, p, suffix) && p.allow && Applies(p.exact, depth)
  }

  ghost predicate ImportantRead(hash: seq<byte> -> Rec, primary: Download, slots: seq<Slot>, suffix: seq<byte>) {
    exists p :: Read(primary, slots, p) && Covers(hash, p, suffix) && p.allow && p.important
  }

  lemma BlocksAreRead(hash: seq<byte> -> Rec, primary: Download, slots: seq<Slot>, suffix: seq<byte>)
    ensures hash(suffix) in HashesRead(hash, primary, slots) <==> BlockRead(hash, primary, slots, suffix)
  {
    hide FeedHashes, ExtraHashes, FeedOf, ReadsRule, Read, BlockHash, IsBareTld, LowerAll, Rules.FeedRule, Rules.Plain;
    var lines, extras := FeedOf(primary).lines, ExtrasOf(slots);
    HashesAreReadRules(hash, lines, extras, hash(suffix));
    forall r | ReadsRule(lines, extras, r) && hash(suffix) in BlockHash(hash, r)
      ensures BlockRead(hash, primary, slots, suffix)
    {
      ReadIsParsed(primary, slots, r);
      var p :| Read(primary, slots, p) && Rules.FeedRule(p) == r;
      ReadIsPlain(primary, slots, p);
      RuleStores(hash, p, suffix);
    }
    forall p | Read(primary, slots, p) && Covers(hash, p, suffix) && !p.allow && !p.important
      ensures exists r :: ReadsRule(lines, extras, r) && hash(suffix) in BlockHash(hash, r)
    {
      ReadIsPlain(primary, slots, p);
      RuleStores(hash, p, suffix);
      ReadIsParsed(primary, slots, Rules.FeedRule(p));
    }
  }

  /** An exception read, with the hash of the suffix, is a rule read that covers it. */
  lemma AllowsAreRead(hash: seq<byte> -> Rec, primary: Download, slots: seq<Slot>, suffix: seq<byte>, flags: Flags)
    ensures Exception(hash(suffix), flags) in AllowsRead(hash, primary, slots) <==>
            exists p :: Read(primary, slots, p) && Covers(hash, p, suffix) && p.allow &&
                        flags == Flags(p.exact, p.important)
  {
    hide FeedAllows, ExtraAllows, FeedOf, ReadsRule, Read, AllowEntry, IsBareTld, LowerAll, Rules.FeedRule, Rules.Plain;
    var lines, extras, e := FeedOf(primary).lines, ExtrasOf(slots), Exception(hash(suffix), flags);
    AllowsAreReadRules(hash, lines, extras, e);
    forall r | ReadsRule(lines, extras, r) && e in AllowEntry(hash, r)
      ensures exists p :: Read(primary, slots, p) && Covers(hash, p, suffix) && p.allow &&
                          flags == Flags(p.exact, p.important)
    {
      ReadIsParsed(primary, slots, r);
      var p :| Read(primary, slots, p) && Rules.FeedRule(p) == r;
      ReadIsPlain(primary, slots, p);
      RuleStores(hash, p, suffix);
    }
    forall p | Read(primary, slots, p) && Covers(hash, p, suffix) && p.allow && flags == Flags(p.exact, p.important)
      ensures exists r :: ReadsRule(lines, extras, r) && e in AllowEntry(hash, r)
    {
      ReadIsPlain(primary, slots, p);
      RuleStores(hash, p, suffix);
      ReadIsParsed(primary, slots, Rules.FeedRule(p));
    }
  }

  lemma ExceptionsAreRead(hash: seq<byte> -> Rec, primary: Download, slots: seq<Slot>, suffix: seq<byte>, depth: nat)
    ensures var allows := AllowsRead(hash, primary, slots);
            (Excepted(allows, hash(suffix), depth) <==> AllowRead(hash, primary, slots, suffix, depth)) &&
            (ImportantFor(allows, hash(suffix)) <==> ImportantRead(hash, primary, slots, suffix))
  {
    hide AllowsRead, Read, IsBareTld, LowerAll;
    var allows, h := AllowsRead(hash, primary, slots), hash(suffix);
    forall e | e in allows && e.rec == h
      ensures exists p :: Read(primary, slots, p) && Covers(hash, p, suffix) && p.allow &&
                          e.flags == Flags(p.exact, p.important)
    {
      AllowsAreRead(hash, primary, slots, suffix, e.flags);
    }
    forall p | Read(primary, slots, p) && Covers(hash, p, suffix) && p.allow
      ensures Exception(h, Flags(p.exact, p.important)) in allows
    {
      AllowsAreRead(hash, primary, slots, suffix, Flags(p.exact, p.important));
    }
  }

  /** Some rule in force gives the suffix of name at pos, depth labels in, the rank: a block
      rule of a feed, its exceptions, the whitelist, or a custom rule. */
  ghost predicate Says(hash: seq<byte> -> Rec, primary: Download, slots: seq<Slot>, t: Verdict.Rules, name: seq<byte>,
                       pos: nat, depth: nat, rank: nat)
  {
    BlRank.Reaches(name, 0, 0, pos, depth) && pos < |name| && !IsBareTld(name[pos..]) &&
    ((rank == 0 && BlockRead(hash, primary, slots, name[pos..])) ||
     (AllowRead(hash, primary, slots, name[pos..], depth) &&
      rank == if ImportantRead(hash, primary, slots, name[pos..]) then 3 else 1) ||
     (rank == 1 && name[pos..] in t.whitelist) ||
     exists c :: c in t.custom && Matches(c, name[pos..], depth) && c.rank == rank)
  }

  /** The verdict the rules in force call for: none says anything; or the highest rank any
      gives, an even one blocking and an odd one allowing. */
  ghost predicate CalledFor(hash: seq<byte> -> Rec, primary: Download, slots: seq<Slot>, t: Verdict.Rules,
                            name: seq<byte>, v: BlRank.Verdict)
  {
    if v.state == BlRank.NoMatch then
      forall pos: nat, depth: nat, r: nat :: !Says(hash, primary, slots, t, name, pos, depth, r)
    else
      (exists pos: nat, depth: nat :: Says(hash, primary, slots, t, name, pos, depth, v.rank)) &&
      (forall pos: nat, depth: nat, r: nat :: Says(hash, primary, slots, t, name, pos, depth, r) ==> r <= v.rank) &&
      (v.state == BlRank.Block <==> v.rank % 2 == 0)
  }

  lemma GivenIsSaid(hash: seq<byte> -> Rec, primary: Download, slots: seq<Slot>, s: Snapshot, t: Verdict.Rules,
                    name: seq<byte>, pos: nat, depth: nat, rank: nat)
    requires s.blocks == HashesRead(hash, primary, slots) && IsTable(s.exceptions, AllowsRead(hash, primary, slots))
    ensures Gives(hash, s, t, name, pos, depth, rank) <==> Says(hash, primary, slots, t, name, pos, depth, rank)
  {
    if pos < |name| {
      var suffix := name[pos..];
      BlocksAreRead(hash, primary, slots, suffix);
      TableAnswers(s.exceptions, AllowsRead(hash, primary, slots), hash(suffix), depth);
      ExceptionsAreRead(hash, primary, slots, suffix, depth);
      hide HashesRead, AllowsRead, BlRank.Reaches, BlockRead, AllowRead, ImportantRead, FeedException, IsTable,
        IsBareTld, Excepted, ImportantFor, Matches;
    }
  }

  /** The tables a reload publishes say of every name what the rules on the lines say. */
  lemma TablesSayWhatWasRead(hash: seq<byte> -> Rec, primary: Download, slots: seq<Slot>, s: Snapshot, t: Verdict.Rules,
                             name: seq<byte>)
    requires s.blocks == HashesRead(hash, primary, slots) && IsTable(s.exceptions, AllowsRead(hash, primary, slots))
    ensures CalledFor(hash, primary, slots, t, name, Judge(hash, s, t, name))
  {
    hide HashesRead, AllowsRead, IsTable, Judge, Gives, Says;
    VerdictIsHighest(hash, s, t, name);
    forall pos: nat, depth: nat, r: nat
      ensures Gives(hash, s, t, name, pos, depth, r) <==> Says(hash, primary, slots, t, name, pos, depth, r)
    {
      GivenIsSaid(hash, primary, slots, s, t, name, pos, depth, r);
    }
  }

  // ---------- From bytes to verdict

  /** The feeds received, loaded and published; the custom rules parsed; a name judged. Every
      slot is gone through unless one is stopped or the buffer is full; the tables are
      consistent with their bounds; and where everything read fits them, the verdict is the
      one the lines received call for. */
  method LoadAndJudge(l: Loader, primary: Download, slots: seq<Slot>, idx: array<nat>, ent: array<nat>, text: seq<byte>,
                      whitelist: seq<seq<byte>>, paused: bool, busy: bool, name: seq<byte>)
    returns (upto: nat, live: Option<Snapshot>, t: Verdict.Rules, a: Answer)
    requires l.Valid() && l.n == 0 && l.sortedPrefix == 0 && l.dropped == 0
    requires l.seen == {} && l.offers == 0 && l.allows == []
    requires idx.Length == BUCKETS + 1 && l.cap <= ent.Length && idx != ent
    modifies l, l.buf, l.excRecs, l.excFlags, idx, ent
    ensures upto <= |slots| && (live.Some? && upto < |slots| ==> slots[upto].stopped || l.n >= l.cap)
    ensures t.whitelist == whitelist
    ensures t.custom == Rules.Stored(Rules.TextRules(text, 0), Rules.CUSTOM_MAX)
    ensures FeedOffers(FeedOf(primary).lines) <= l.cap ==>
              (live.None? <==> !FeedOf(primary).ok || FeedHashes(l.hash, FeedOf(primary).lines) == {})
    ensures live.Some? ==> Consistent(live.value, t)
    ensures name == [] || paused ==> a == Answer(NOTHING, false)
    ensures name != [] && !paused && (live.None? || busy) ==> a == Answer(NOTHING, true)
    ensures var read := slots[..upto];
            0 < |name| <= 255 && !paused && !busy && live.Some? && OffersRead(primary, read) <= l.cap &&
            |AllowsRead(l.hash, primary, read)| <= l.excRecs.Length ==>
              !a.unproven && CalledFor(l.hash, primary, read, t, name, a.verdict)
  {
    hide FeedOf, FeedHashes, ExtraHashes, FeedAllows, ExtraAllows, FeedOffers, ExtraOffers, IsTable, Pipeline.Holds,
      FeedBound, Rules.TextRules, Rules.Stored, Rules.TopOf, Judge, CalledFor, Consistent;
    var feed := Receive(primary);
    var extras := ReceiveAll(slots);
    var count, u, snap;
    count, u, upto, snap := Reload(l, feed, extras, idx, ent);
    live := if count.Some? then Some(snap) else None;
    var custom, top := Rules.CustomParse(text);
    t := Verdict.Rules(whitelist, custom, top);
    assert extras[..upto] == ExtrasOf(slots[..upto]);
    if count.Some? {
      BoundsAgree(snap, t);
      if l.excDropped == 0 && OffersRead(primary, slots[..upto]) <= l.cap {
        TablesSayWhatWasRead(l.hash, primary, slots[..upto], snap, t, name);
      }
    }
    a := BlocklistVerdict(l.hash, paused, live, busy, t, name);
  }

  lemma BoundsAgree(s: Snapshot, t: Verdict.Rules)
    requires FeedBound(s.exceptions, s.feedMaxRank) && Rules.TopOf(t.custom, t.customMaxRank)
    ensures Consistent(s, t)
  {
  }
}
