/** Two moments at which the L2 hook and the socket path send different things: a freshly
    started device, one query, and either a rewrite rule that a zero byte hides from the
    hook, or a bypassed client behind a busy lock. */
module Splits {
  import opened Bytes
  import opened Domain
  import opened Wire
  import opened Ttl
  import opened Replies
  import opened Cache
  import opened CacheMap
  import opened Server
  import opened TwoPaths
  import BlRank
  import Generations
  import Verdict

  /** Every hash is 0, and the block set is {0}: every name that is no bare TLD is blocked. */
  function BlockingEnv(): Env {
    Env(_ => 0, _ => 0, (_, _) => 0, _ => 0,
        _ => Published(false, Some(Verdict.Snapshot({0}, [], 0)), Verdict.Rules([], [], 0)))
  }

  /** dns_task as it starts with an empty cache and nothing changed since. */
  function Booted(): State {
    Generations.Start(seq(ENTRIES, _ => Blank()), Config(0, 0, []))
  }

  function HiddenName(): seq<byte> {
    [97, 0, 98, DOT, 99]
  }

  /** An A query for "a\0b.c". */
  function HiddenQuery(): (p: seq<byte>)
    ensures |p| == 23
  {
    [0, 7, 1, 0, 0, 1, 0, 0, 0, 0, 0, 0, 3, 97, 0, 98, 1, 99, 0, 0, 1, 0, 1]
  }

  lemma HiddenNameIsNormal()
    ensures Normalize(NAME_CAP, HiddenName()) == HiddenName()
  {
    assert StripDots(HiddenName()) == HiddenName();
    assert LowerAll(HiddenName()) == HiddenName();
  }

  lemma QueryParses()
    ensures Parsed(HiddenQuery()) == Some((HiddenName(), 23)) && Question(HiddenQuery(), 12) == Some((HiddenName(), 23))
  {
    var p := HiddenQuery();
    hide WalkLabels, Normalize;
    assert p[13..16] == [97, 0, 98] && p[17..18] == [99];
    assert JoinLabel([], p[13..16]) == [97, 0, 98];
    assert JoinLabel([97, 0, 98], p[17..18]) == HiddenName();
    WalkAt(p, 12, []);
    WalkAt(p, 16, [97, 0, 98]);
    WalkAt(p, 18, HiddenName());
    HiddenNameIsNormal();
  }

  lemma NameIsBlocked()
    ensures Decide(BlockingEnv(), 0, HiddenName()).Block?
  {
    var c := BlockingEnv().published(0);
    var s := c.live.value;
    assert HiddenName()[0..] == HiddenName();
    assert HiddenName()[3] == DOT;
    assert Verdict.SuffixListed(BlockingEnv().hash40, s, HiddenName(), 0, 0);
    Verdict.FeedsAloneBlockBySuffix(BlockingEnv().hash40, s, c.rules, HiddenName());
  }

  lemma FreshHolds()
    ensures var env, s := BlockingEnv(), Booted();
            Generations.Inv(env, s, true) && Generations.Settled(s.cfg) && s.task.Waiting? && s.cfg.version == 0 &&
            AllSized(s.cache) && |s.cache| == ENTRIES && forall i :: 0 <= i < ENTRIES ==> !s.cache[i].valid
  {
    var es := seq(ENTRIES, _ => Blank());
    assert WellPlaced(es);
    Generations.StartHolds(BlockingEnv(), es, Config(0, 0, []), true);
    hide Generations.Inv;
  }

  lemma NothingCached(pkt: seq<byte>, dns: nat, now: nat)
    requires Parsed(pkt).Some? && dns <= 82 && |Booted().cache| == ENTRIES
    ensures !CacheAnswers(BlockingEnv(), Booted(), pkt, dns, now)
  {
    var env, s := BlockingEnv(), Booted();
    FreshHolds();
    var (name, qend) := Parsed(pkt).value;
    var k := Key(env.hash(name), Get16(pkt, qend - 4), pkt[12..qend - 4]);
    L2GetIsFreshAllowedHit(s.cache, k, TX_FRAME - dns, now, s.cfg.gen);
    if FindFresh(s.cache, k, now, s.cfg.gen).Some? {
      Generations.FreshIsFresh(s.cache, k, now, s.cfg.gen);
    }
    hide FindFresh, L2Get, Question;
  }

  /** One rewrite rule, "a" to 0.0.0.1; every lock free. */
  function OneRule(): Gates {
    Gates(1, [], false, _ => false, [], false, false, [Rule([97], 1)], false, false, false, false)
  }

  /** Client 7 is bypassed, and the lock of the bypass list is held just as the hook asks. */
  function HeldBypass(): Gates {
    Gates(1, [], false, _ => false, [7], true, false, [], false, false, false, false)
  }

  /** The query for "a\0b.c" on a device with the rewrite rule "a": the hook sinkholes it,
      dns_task answers 0.0.0.1. */
  lemma ZeroByteSplitsHere(src: nat, dns: nat, now: nat, t: nat)
    requires dns <= 82
    ensures var env, g, s, pkt := BlockingEnv(), OneRule(), Booted(), HiddenQuery();
            Generations.Inv(env, s, true) && Generations.Settled(s.cfg) && s.task.Waiting? && AllSized(s.cache) &&
            |s.cache| == ENTRIES && RulesFit(g.rules) && Parsed(pkt).Some? &&
            var a, b := L2Answer(env, g, s.cache, s.cfg, pkt, src, dns, now), SocketAnswer(env, g, s, pkt, src, now, t);
            a == Some(Blocked(pkt, 1)) && b == Some(Answered(pkt, 1, REWRITE_TTL, Address(1))) && a != b
  {
    var env, g, s, pkt := BlockingEnv(), OneRule(), Booted(), HiddenQuery();
    assert pkt[..23] == pkt;
    assert Get16(pkt, 19) == 1 && Get16(pkt, 21) == 1;
    hide Question, Decide, Generations.Inv, AllSized, L2Answer, SocketAnswer, FirstRule, RewriteLookup, Blocked,
      Answered, CacheAnswers, HiddenQuery, BlockingEnv, Booted, L2Get, HiddenName;
    QueryParses();
    FreshHolds();
    NameIsBlocked();
    ZeroByteHidesNameFromStrlen();
    NothingCached(pkt, dns, now);
    ZeroByteSplitsPaths(env, g, s, pkt, src, dns, now, t);
    Uncached(env, s, pkt, dns, now);
    HookBlocks(env, g, s, pkt, src, dns, now);
  }

  /** The same query from a bypassed client, asked while its list is being edited: the hook
      sinkholes it, dns_task forwards it. */
  lemma BusyBypassSplitsHere(dns: nat, now: nat, t: nat)
    requires dns <= 82
    ensures var env, g, s, pkt := BlockingEnv(), HeldBypass(), Booted(), HiddenQuery();
            Generations.Inv(env, s, true) && Generations.Settled(s.cfg) && s.task.Waiting? && AllSized(s.cache) &&
            |s.cache| == ENTRIES && RulesFit(g.rules) && Parsed(pkt).Some? &&
            L2Answer(env, g, s.cache, s.cfg, pkt, 7, dns, now) == Some(Blocked(pkt, 1)) &&
            SocketAnswer(env, g, s, pkt, 7, now, t) == None
  {
    var env, g, s, pkt := BlockingEnv(), HeldBypass(), Booted(), HiddenQuery();
    assert pkt[..23] == pkt;
    assert Get16(pkt, 19) == 1 && Get16(pkt, 21) == 1;
    hide Question, Decide, Generations.Inv, AllSized, L2Answer, SocketAnswer, FirstRule, Blocked, CacheAnswers,
      HiddenQuery, BlockingEnv, Booted, L2Get, HiddenName;
    QueryParses();
    FreshHolds();
    NameIsBlocked();
    NothingCached(pkt, dns, now);
    BusyBypassSplitsPaths(env, g, s, pkt, 7, dns, now, t);
    Uncached(env, s, pkt, dns, now);
    HookBlocks(env, g, s, pkt, 7, dns, now);
  }
}
