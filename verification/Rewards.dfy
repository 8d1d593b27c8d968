/**
 * Root rewards over whole runs: of every root block a shard's cursor has passed, the coinbase is paid to its
 * recipient on the one shard that owns its key, once, and before activation the recipient's balance rises by it.
 */
module Rewards {
  import opened BlockTree
  import opened ChainTypes
  import opened Ledger
  import opened Cursor
  import opened Delivery
  import opened Execution
  import opened Effects
  import opened Conservation
  import opened RunDelivery
  import SK = ShardKeys

  /** What an event brings an account of a token. */
  function Brings(e: Event, a: Recipient, t: Token): nat {
    if e.Yield? then If(a, t, e.deposit.to, e.deposit.transferToken, e.deposit.value) else 0
  }

  /** What the events at the coinbase positions of root blocks bring an account. */
  function RewardsIn(s: seq<Event>, a: Recipient, t: Token): nat {
    if s == [] then 0
    else (if s[0].Yield? && s[0].at.minorBlockIndex == 0 then Brings(s[0], a, t) else 0) + RewardsIn(s[1..], a, t)
  }

  /** What the deposits of other shards bring it. */
  function TransfersIn(s: seq<Event>, a: Recipient, t: Token): nat {
    if s == [] then 0
    else (if s[0].Yield? && s[0].at.minorBlockIndex == 0 then 0 else Brings(s[0], a, t)) + TransfersIn(s[1..], a, t)
  }

  lemma {:induction false} InConcat(s: seq<Event>, r: seq<Event>, a: Recipient, t: Token)
    ensures RewardsIn(s + r, a, t) == RewardsIn(s, a, t) + RewardsIn(r, a, t)
    ensures TransfersIn(s + r, a, t) == TransfersIn(s, a, t) + TransfersIn(r, a, t)
  {
    hide Brings;
    if s == [] {
      assert s + r == r;
    } else {
      assert (s + r)[1..] == s[1..] + r;
      InConcat(s[1..], r, a, t);
    }
  }

  lemma InOne(e: Event, a: Recipient, t: Token)
    requires e.Yield?
    ensures RewardsIn([e], a, t) + TransfersIn([e], a, t) == Brings(e, a, t)
    ensures RewardsIn([e], a, t) == if e.at.minorBlockIndex == 0 then Brings(e, a, t) else 0
  {
    hide Brings;
    assert [e][1..] == [];
  }

  /** Rewards and transfers together are all that events bring. */
  lemma {:induction false} ReceivedIsBoth(s: seq<Event>, a: Recipient, t: Token)
    requires forall i :: 0 <= i < |s| ==> s[i].Yield?
    ensures Received(DepositsOf(s), a, t) == RewardsIn(s, a, t) + TransfersIn(s, a, t)
    decreases |s|
  {
    if s != [] {
      var n := |s| - 1;
      ReceivedIsBoth(s[..n], a, t);
      InConcat(s[..n], [s[n]], a, t);
      assert s == s[..n] + [s[n]];
      InOne(s[n], a, t);
      var ds := DepositsOf(s[..n]);
      assert DepositsOf(s) == ds + [s[n].deposit] && (ds + [s[n].deposit])[..|ds|] == ds;
    }
  }

  // ---------- rewards in the flat sequence ----------

  /** The coinbases of root blocks that are for an account, as far as this branch has their keys. */
  function CoinbasesFor(c: Chain, path: seq<RootBlock>, a: Recipient): nat {
    if path == [] then 0
    else
      (if path[0].body.coinbase == a && SK.IsInBranch(c.branch.branch, path[0].body.coinbaseKey)
       then path[0].body.coinbaseAmount else 0) + CoinbasesFor(c, path[1..], a)
  }

  lemma {:induction false} ListHasNone(height: nat, m: nat, list: seq<Deposit>, d: nat, after: seq<Event>, a: Recipient, t: Token)
    requires m >= 1
    ensures RewardsIn(ListThen(height, m, list, d, after), a, t) == RewardsIn(after, a, t)
    decreases |list| - d
  {
    if d < |list| {
      ListHasNone(height, m, list, d + 1, after, a, t);
    }
  }

  lemma {:induction false} HeadersHaveNone(c: Chain, rb: RootBlock, m: nat, after: seq<Event>, a: Recipient, t: Token)
    requires m >= 1
    ensures RewardsIn(HeadersThen(c, rb, m, after), a, t) == RewardsIn(after, a, t)
    decreases |rb.body.headers| - m
  {
    hide Skipped, TooEarly, ListThen;
    if m <= |rb.body.headers| {
      var rest, h := HeadersThen(c, rb, m + 1, after), rb.body.headers[m - 1].hash;
      HeadersHaveNone(c, rb, m + 1, after, a, t);
      if h in c.lists {
        ListHasNone(rb.number, m, c.lists[h], 0, rest, a, t);
      }
      assert RewardsIn([Fault] + rest, a, t) == RewardsIn(rest, a, t) by {
        assert ([Fault] + rest)[1..] == rest;
      }
    }
  }

  lemma CoinbaseBrings(c: Chain, rb: RootBlock, a: Recipient)
    ensures Brings(CoinbaseEvent(c, rb), a, c.genesisToken) ==
            if rb.body.coinbase == a && SK.IsInBranch(c.branch.branch, rb.body.coinbaseKey) then rb.body.coinbaseAmount else 0
  {
    hide SK.IsInBranch;
  }

  lemma BlockRewards(c: Chain, rb: RootBlock, after: seq<Event>, a: Recipient)
    ensures RewardsIn([CoinbaseEvent(c, rb)] + HeadersThen(c, rb, 1, after), a, c.genesisToken) ==
            CoinbasesFor(c, [rb], a) + RewardsIn(after, a, c.genesisToken)
  {
    hide HeadersThen, Brings, CoinbaseDeposit, SK.IsInBranch;
    CoinbaseBrings(c, rb, a);
    HeadersHaveNone(c, rb, 1, after, a, c.genesisToken);
    var rest := HeadersThen(c, rb, 1, after);
    InConcat([CoinbaseEvent(c, rb)], rest, a, c.genesisToken);
    InOne(CoinbaseEvent(c, rb), a, c.genesisToken);
    assert [rb][1..] == [];
  }

  lemma {:induction false} StreamRewards(c: Chain, path: seq<RootBlock>, a: Recipient)
    ensures RewardsIn(Stream(c, path), a, c.genesisToken) == CoinbasesFor(c, path, a)
    decreases |path|
  {
    hide HeadersThen, RewardsIn, CoinbaseEvent, SK.IsInBranch;
    if path == [] {
      assert RewardsIn([], a, c.genesisToken) == 0 by { NoRewards(a, c.genesisToken); }
    } else {
      StreamRewards(c, path[1..], a);
      BlockRewards(c, path[0], Stream(c, path[1..]), a);
      assert [path[0]][1..] == [];
    }
  }

  lemma NoRewards(a: Recipient, t: Token)
    ensures RewardsIn([], a, t) == 0
  {
  }

  /** The number of root blocks whose coinbase a position has behind it. */
  function Passed(base: nat, ci: CursorInfo): int {
    ci.rootBlockHeight - base + if ci.minorBlockIndex > 0 || ci.depositIndex > 0 then 1 else 0
  }

  lemma RestRewards(c: Chain, path: seq<RootBlock>, base: nat, ci: CursorInfo, a: Recipient)
    requires ValidInfo(c, path, base, ci)
    ensures 0 <= Passed(base, ci) <= |path|
    ensures RewardsIn(Rest(c, path, base, ci), a, c.genesisToken) == CoinbasesFor(c, path[Passed(base, ci)..], a)
  {
    var k, m, d := ci.rootBlockHeight - base, ci.minorBlockIndex, ci.depositIndex;
    if k == |path| {
      NoRewards(a, c.genesisToken);
    } else {
      var rb, later := path[k], Stream(c, path[k + 1..]);
      StreamRewards(c, path[k + 1..], a);
      assert path[k..][1..] == path[k + 1..] && [rb][1..] == [];
      hide HeadersThen, RewardsIn, CoinbaseEvent, SK.IsInBranch, Stream, ListThen, Skipped, TooEarly;
      if m == 0 && d == 0 {
        BlockRewards(c, rb, later, a);
      } else {
        HeadersHaveNone(c, rb, m + 1, later, a, c.genesisToken);
        if m > 0 {
          ListHasNone(rb.number, m, c.lists[rb.body.headers[m - 1].hash], d + 1, HeadersThen(c, rb, m + 1, later), a, c.genesisToken);
        }
      }
    }
  }

  lemma {:induction false} CoinbasesConcat(c: Chain, p: seq<RootBlock>, q: seq<RootBlock>, a: Recipient)
    ensures CoinbasesFor(c, p + q, a) == CoinbasesFor(c, p, a) + CoinbasesFor(c, q, a)
    decreases |p|
  {
    hide SK.IsInBranch;
    if p == [] {
      assert p + q == q;
    } else {
      assert (p + q)[1..] == p[1..] + q;
      CoinbasesConcat(c, p[1..], q, a);
    }
  }

  // ---------- over runs ----------

  /** The coinbases for an account among root blocks whose keys a shard owns. */
  function RewardsOwed(cfg: SK.Config, path: seq<RootBlock>, b: ShardId, a: Recipient): nat {
    if path == [] then 0
    else
      (if path[0].body.coinbase == a && Owner(cfg, path[0].body.coinbaseKey) == Some(b) then path[0].body.coinbaseAmount else 0)
      + RewardsOwed(cfg, path[1..], b, a)
  }

  lemma {:induction false} BranchOwns(cfg: SK.Config, c: Chain, path: seq<RootBlock>, a: Recipient)
    requires SK.ValidConfig(cfg) && SK.IsShard(cfg, c.branch.branch)
    ensures CoinbasesFor(c, path, a) == RewardsOwed(cfg, path, c.branch, a)
    decreases |path|
  {
    if path != [] {
      SK.LookupIsPartition(cfg, path[0].body.coinbaseKey, c.branch.branch);
      hide SK.IsInBranch, SK.FullShardIdByFullShardKey, SK.IsShard, SK.ValidConfig;
      BranchOwns(cfg, c, path[1..], a);
    }
  }

  /**
   * Along every run from genesis, what a shard has delivered to an account as root rewards is exactly the coinbases
   * for it of the root blocks the shard's cursor has passed whose keys the shard owns.
   */
  lemma RewardsReachOwners(cfg: SK.Config, genesisToken: Token, feeRate: Rate, geneses: map<ShardId, nat>,
                           alloc: map<ShardId, Balances>, steps: seq<SystemStep>, b: ShardId, a: Recipient)
    requires geneses.Keys <= alloc.Keys && b in geneses
    requires IsTrace(Genesis(cfg, genesisToken, feeRate, geneses, alloc), steps)
    ensures var sys := Final(Genesis(cfg, genesisToken, feeRate, geneses, alloc), steps);
            && b in sys.shards
            && var path, k := PathOf(sys.roots, geneses[b]), Passed(geneses[b], sys.shards[b].info);
            && 0 <= k <= |path|
            && RewardsIn(DeliveredTo(steps, b), a, genesisToken) == RewardsOwed(cfg, path[..k], b, a)
  {
    hide ValidSystem, Rest, Stream, ValidInfo, IsTrace, DeliveredTo, Final, PathOf, RewardsIn, RewardsOwed, CoinbasesFor, Genesis,
      SK.ValidConfig, SK.IsShard, Solvent, ProtocolChain, Follows;
    var start := Genesis(cfg, genesisToken, feeRate, geneses, alloc);
    ExactlyOnceInRuns(cfg, genesisToken, feeRate, geneses, alloc, steps, b);
    ConservationOverRuns(start, steps, 0);
    var sys := Final(start, steps);
    SameSettings(start, steps);
    GenesisSettings(cfg, genesisToken, feeRate, geneses, alloc);
    ShardIsValid(sys, b);
    ConfigIsValid(sys);
    var c, path, ci := sys.shards[b].chain, PathOf(sys.roots, geneses[b]), sys.shards[b].info;
    var k := Passed(geneses[b], ci);
    StreamRewards(c, path, a);
    RestRewards(c, path, geneses[b], ci, a);
    InConcat(DeliveredTo(steps, b), Rest(c, path, geneses[b], ci), a, genesisToken);
    assert path == path[..k] + path[k..];
    CoinbasesConcat(c, path[..k], path[k..], a);
    BranchOwns(cfg, c, path[..k], a);
  }

  lemma ConfigIsValid(sys: System)
    requires ValidSystem(sys)
    ensures SK.ValidConfig(sys.cfg)
  {
  }

  lemma GenesisSettings(cfg: SK.Config, genesisToken: Token, feeRate: Rate, geneses: map<ShardId, nat>,
                        alloc: map<ShardId, Balances>)
    requires geneses.Keys <= alloc.Keys
    ensures var sys := Genesis(cfg, genesisToken, feeRate, geneses, alloc);
            sys.cfg == cfg && sys.genesisToken == genesisToken && sys.feeRate == feeRate
  {
  }

  lemma {:induction false} SameSettings(sys: System, steps: seq<SystemStep>)
    requires IsTrace(sys, steps)
    ensures var sys' := Final(sys, steps);
            sys'.cfg == sys.cfg && sys'.genesisToken == sys.genesisToken && sys'.feeRate == sys.feeRate
    decreases |steps|
  {
    hide ValidSystem, CanExec, CanAddRoot, AfterExec, AfterRoot;
    if steps != [] {
      SameSettings(After(sys, steps[0]), steps[1..]);
    }
  }

  // ---------- what the balances gain ----------

  /** What an account's balance rises by while the deposits of a shard's blocks arrive. */
  ghost function ArrivalGain(sys: System, steps: seq<SystemStep>, b: ShardId, a: Recipient, t: Token): int
    decreases |steps|
  {
    if steps == [] then 0
    else
      (if steps[0].RunBlockStep? && steps[0].x.shard == b && b in sys.shards
       then BalanceOf(steps[0].x.arrived, a, t) - BalanceOf(sys.shards[b].balances, a, t) else 0)
      + ArrivalGain(After(sys, steps[0]), steps[1..], b, a, t)
  }

  /** All blocks of the shard ran before activation. */
  predicate Early(steps: seq<SystemStep>, b: ShardId) {
    forall i :: 0 <= i < |steps| && steps[i].RunBlockStep? && steps[i].x.shard == b ==> !steps[i].x.evmEnabled
  }

  /** The account's shares of the deposits' fees, for the blocks it mined. */
  function MinerShares(steps: seq<SystemStep>, b: ShardId, a: Recipient, rate: Rate): nat
    requires rate.den > 0
  {
    if steps == [] then 0
    else
      (if steps[0].RunBlockStep? && steps[0].x.shard == b && steps[0].x.miner == a
       then DepositFees(DepositsOf(steps[0].x.run.delivered), rate) else 0)
      + MinerShares(steps[1..], b, a, rate)
  }

  lemma StepGain(sys: System, x: Exec, a: Recipient, t: Token)
    requires ValidSystem(sys) && CanExec(sys, x) && !x.evmEnabled
    ensures sys.feeRate.den > 0
    ensures BalanceOf(x.arrived, a, t) - BalanceOf(sys.shards[x.shard].balances, a, t)
            == RewardsIn(x.run.delivered, a, t) + TransfersIn(x.run.delivered, a, t)
               + If(a, t, x.miner, sys.genesisToken, DepositFees(DepositsOf(x.run.delivered), sys.feeRate))
  {
    hide ValidSystem, BalanceOf, Received, RewardsIn, TransfersIn, DepositFees, Conserves, Rest, ValidInfo, Broadcastable, FreshHash,
      Solvent, AllProtocol, WithinRate;
    ReceivedIsBoth(x.run.delivered, a, t);
  }

  /** Before activation balances rise by exactly what was delivered, block after block. */
  lemma {:induction false} EarlyGains(sys: System, steps: seq<SystemStep>, b: ShardId, a: Recipient, t: Token)
    requires IsTrace(sys, steps) && b in sys.shards && Early(steps, b) && sys.feeRate.den > 0
    ensures ArrivalGain(sys, steps, b, a, t)
            == RewardsIn(DeliveredTo(steps, b), a, t) + TransfersIn(DeliveredTo(steps, b), a, t)
               + if t == sys.genesisToken then MinerShares(steps, b, a, sys.feeRate) else 0
    decreases |steps|
  {
    hide ValidSystem, CanExec, CanAddRoot, BalanceOf, RewardsIn, TransfersIn, DepositFees, AfterExec, AfterRoot, DepositsOf;
    if steps == [] {
      assert DeliveredTo(steps, b) == [];
      NoRewards(a, t);
      assert TransfersIn([], a, t) == 0 by { NoTransfers(a, t); }
    } else {
      var sys' := After(sys, steps[0]);
      assert forall i :: 0 <= i < |steps[1..]| ==> steps[1..][i] == steps[i + 1];
      EarlyGains(sys', steps[1..], b, a, t);
      InConcat(DeliveredIn(steps[0], b), DeliveredTo(steps[1..], b), a, t);
      if steps[0].RunBlockStep? && steps[0].x.shard == b {
        StepGain(sys, steps[0].x, a, t);
      } else {
        NoRewards(a, t);
        NoTransfers(a, t);
      }
    }
  }

  lemma NoTransfers(a: Recipient, t: Token)
    ensures TransfersIn([], a, t) == 0
  {
  }

  /**
   * Over every run from genesis before activation, an account's balance on a shard rises, while deposits arrive, by
   * the coinbases for it that the shard owns, what other shards sent it, and its shares as a miner; nothing else.
   */
  lemma RewardsAreGained(cfg: SK.Config, genesisToken: Token, feeRate: Rate, geneses: map<ShardId, nat>,
                         alloc: map<ShardId, Balances>, steps: seq<SystemStep>, b: ShardId, a: Recipient)
    requires geneses.Keys <= alloc.Keys && b in geneses && feeRate.den > 0 && Early(steps, b)
    requires IsTrace(Genesis(cfg, genesisToken, feeRate, geneses, alloc), steps)
    ensures var start := Genesis(cfg, genesisToken, feeRate, geneses, alloc);
            var sys := Final(start, steps);
            && b in sys.shards
            && var path, k := PathOf(sys.roots, geneses[b]), Passed(geneses[b], sys.shards[b].info);
            && 0 <= k <= |path|
            && ArrivalGain(start, steps, b, a, genesisToken)
               == RewardsOwed(cfg, path[..k], b, a) + TransfersIn(DeliveredTo(steps, b), a, genesisToken)
                  + MinerShares(steps, b, a, feeRate)
  {
    var start := Genesis(cfg, genesisToken, feeRate, geneses, alloc);
    assert b in start.shards;
    hide ValidSystem, IsTrace, DeliveredTo, Final, PathOf, RewardsIn, RewardsOwed, Genesis, TransfersIn, MinerShares, ArrivalGain, Early;
    GenesisSettings(cfg, genesisToken, feeRate, geneses, alloc);
    RewardsReachOwners(cfg, genesisToken, feeRate, geneses, alloc, steps, b, a);
    EarlyGains(start, steps, b, a, genesisToken);
  }
}
