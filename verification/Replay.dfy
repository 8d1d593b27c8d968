/**
 * Executing a block again: execution has one outcome, and a block that a miner built from its pending transactions
 * is executed by every other node to the state the miner found.
 */
module Replay {
  import opened BlockTree
  import opened ChainTypes
  import opened Ledger
  import opened Transition
  import opened Cursor
  import opened Delivery
  import opened Execution
  import opened Mining

  // ---------- one outcome ----------

  lemma {:induction false} SameArrivals(vm: Vm, env: Env, ddosFixRootHeight: nat, ahead: seq<Event>, ds: seq<Event>, ms: seq<Moment>,
                                        es: seq<Event>, ns: seq<Moment>, k: nat)
    requires env.cfg.localFeeRate.den > 0 && ds <= ahead && es <= ahead && k <= |ds| && k <= |es|
    requires Arrivals(vm, env, ddosFixRootHeight, ds, ms) && Arrivals(vm, env, ddosFixRootHeight, es, ns) && ms[0] == ns[0]
    ensures ms[k] == ns[k]
    decreases k
  {
    if k > 0 {
      SameArrivals(vm, env, ddosFixRootHeight, ahead, ds, ms, es, ns, k - 1);
      assert ds[k - 1] == ahead[k - 1] == es[k - 1];
      hide AfterDeposit, Blocks;
    }
  }

  lemma {:induction false} SameChain(vm: Vm, env: Env, validate: (Moment, Tx) -> bool, txs: seq<Tx>, i: nat, j: nat, ms: seq<Moment>,
                                     ns: seq<Moment>, k: nat)
    requires env.cfg.localFeeRate.den > 0 && k <= i <= |txs| && k <= j <= |txs|
    requires Chained(vm, env, validate, txs[..i], ms) && Chained(vm, env, validate, txs[..j], ns) && ms[0] == ns[0]
    ensures ms[k] == ns[k]
    decreases k
  {
    if k > 0 {
      SameChain(vm, env, validate, txs, i, j, ms, ns, k - 1);
      assert txs[..i][k - 1] == txs[k - 1] == txs[..j][k - 1];
      hide AfterTx, Fails;
    }
  }

  /** The cursor of a block gets equally far whenever it is run from the same moment. */
  lemma SameCursor(vm: Vm, env: Env, validate: (Moment, Tx) -> bool, ddosFixRootHeight: nat, start: Moment, block: MinorBlock,
                   ahead: seq<Event>, t: Trail, u: Trail)
    requires env.cfg.localFeeRate.den > 0 && t.applied != []
    requires Traced(vm, env, validate, ddosFixRootHeight, start, block, ahead, t)
    requires Traced(vm, env, validate, ddosFixRootHeight, start, block, ahead, u)
    requires u.applied != [] || Refused(vm, env, validate, ddosFixRootHeight, start, block, ahead, u)
    ensures u.applied != [] && u.delivered == t.delivered && u.arrived == t.arrived
  {
    hide Arrives, Chained, Fails;
    var n, k := |t.delivered|, |u.delivered|;
    var common := if n <= k then n else k;
    SameArrivals(vm, env, ddosFixRootHeight, ahead, t.delivered, t.arrived, u.delivered, u.arrived, common);
    if k < n {
      assert t.delivered[k] == ahead[k];
      BlocksNot(vm, env, ddosFixRootHeight, t.delivered, t.arrived, k);
      assert false;
    }
    if n < k {
      assert false;
    }
    forall i | 0 <= i <= n
      ensures t.arrived[i] == u.arrived[i]
    {
      SameArrivals(vm, env, ddosFixRootHeight, ahead, t.delivered, t.arrived, u.delivered, u.arrived, i);
    }
  }

  lemma BlocksNot(vm: Vm, env: Env, ddosFixRootHeight: nat, delivered: seq<Event>, arrived: seq<Moment>, k: nat)
    requires env.cfg.localFeeRate.den > 0 && Arrivals(vm, env, ddosFixRootHeight, delivered, arrived) && k < |delivered|
    ensures !Blocks(vm, env.evmEnabled, arrived[k].scene, delivered[k])
  {
    hide AfterDeposit, Blocks;
  }

  /** A block that once went through is never refused from the same moment, and always takes the same way. */
  lemma OneOutcome(vm: Vm, env: Env, validate: (Moment, Tx) -> bool, ddosFixRootHeight: nat, start: Moment, block: MinorBlock,
                   ahead: seq<Event>, t: Trail, u: Trail)
    requires env.cfg.localFeeRate.den > 0 && |t.applied| == |block.txs| + 1
    requires Traced(vm, env, validate, ddosFixRootHeight, start, block, ahead, t)
    requires Traced(vm, env, validate, ddosFixRootHeight, start, block, ahead, u)
    requires |u.applied| == |block.txs| + 1 || Refused(vm, env, validate, ddosFixRootHeight, start, block, ahead, u)
    ensures !Refused(vm, env, validate, ddosFixRootHeight, start, block, ahead, u) && u == t
  {
    SameCursor(vm, env, validate, ddosFixRootHeight, start, block, ahead, t, u);
    hide Arrivals, BelowLimit, CursorStops, Chained, Fails;
    SameTxs(vm, env, validate, block.txs, t.applied, u.applied);
  }

  /** Two ways through the transactions of a block, one to the end and the other to the end or a failure, are the same. */
  lemma SameTxs(vm: Vm, env: Env, validate: (Moment, Tx) -> bool, txs: seq<Tx>, ms: seq<Moment>, ns: seq<Moment>)
    requires env.cfg.localFeeRate.den > 0 && |ms| == |txs| + 1 && 1 <= |ns| <= |txs| + 1 && ms[0] == ns[0]
    requires Chained(vm, env, validate, txs[..|ms| - 1], ms) && Chained(vm, env, validate, txs[..|ns| - 1], ns)
    requires |ns| == |txs| + 1 || Fails(vm, env.cfg.nativeTokenContract, validate, Last(ns), txs[|ns| - 1])
    ensures ns == ms
  {
    hide Chained, Fails;
    var n, k := |txs|, |ns| - 1;
    forall i | 0 <= i <= k
      ensures ms[i] == ns[i]
    {
      SameChain(vm, env, validate, txs, n, k, ms, ns, i);
    }
    if k < n {
      assert txs[..n][k] == txs[k];
      FailsNot(vm, env, validate, txs[..n], ms, k);
      assert false;
    }
  }

  lemma FailsNot(vm: Vm, env: Env, validate: (Moment, Tx) -> bool, txs: seq<Tx>, ms: seq<Moment>, k: nat)
    requires env.cfg.localFeeRate.den > 0 && Chained(vm, env, validate, txs, ms) && k < |txs|
    ensures !Fails(vm, env.cfg.nativeTokenContract, validate, ms[k], txs[k])
  {
    hide AfterTx, Fails;
  }

  // ---------- mined blocks ----------

  /** A transaction that applies uses up one nonce of its sender. */
  lemma NonceRises(vm: Vm, env: Env, m: Moment, tx: Tx)
    requires env.cfg.localFeeRate.den > 0 && VmOk(vm) && Applies(vm, env.cfg.nativeTokenContract, m.scene, tx, m.gp)
    ensures NonceIn(AfterTx(vm, env, m, tx).scene.nonces, tx.from) == NonceIn(m.scene.nonces, tx.from) + 1
  {
    if tx.gasToken == m.scene.genesisToken {
      MessageNonce(vm, env, m.scene, MessageOf(tx, tx.gasPrice, 100), tx.gasPrice, m.gp);
    } else {
      var c := Convert(vm, env.cfg.nativeTokenContract, m.scene, tx).value;
      MessageNonce(vm, env, c.scene, MessageOf(tx, c.price, c.refundRate), tx.gasPrice, m.gp);
    }
    hide MessageEffect, VmOk, DataGas, BalanceOf, Plus;
  }

  lemma MessageNonce(vm: Vm, env: Env, s: Scene, msg: Message, price: nat, gp: nat)
    requires env.cfg.localFeeRate.den > 0 && VmOk(vm) && Accepted(vm, s, msg, price, gp, false)
    ensures NonceIn(MessageEffect(vm, env, s, msg, price, false).scene.nonces, msg.from) == NonceIn(s.nonces, msg.from) + 1
  {
    hide FeePaid, Refunded, LocalFee, Settled, Forfeited, DataGas, BalanceOf, Plus, KeepsTotals, Solvent;
  }

  /** Every transaction the miner tried either applied or was turned away before it paid for gas. */
  ghost predicate Harmless(vm: Vm, env: Env, limit: int, minable: (Scene, Tx) -> bool, peeks: seq<Tx>, ms: seq<Moment>)
    requires |ms| > |peeks|
  {
    forall i {:trigger peeks[i]} :: 0 <= i < |peeks| && Tried(limit, minable, ms[i], peeks[i]) ==>
      Applies(vm, env.cfg.nativeTokenContract, ms[i].scene, peeks[i], ms[i].gp) || TurnedAway(ms[i].scene, peeks[i], ms[i].gp)
  }

  /** Every transaction included is valid where it was included. */
  ghost predicate Validated(vm: Vm, env: Env, limit: int, minable: (Scene, Tx) -> bool, validate: (Moment, Tx) -> bool,
                            peeks: seq<Tx>, ms: seq<Moment>)
    requires |ms| > |peeks|
  {
    forall i {:trigger peeks[i]} :: 0 <= i < |peeks| && Includes(vm, env, limit, minable, ms[i], peeks[i]) ==>
      validate(ms[i], peeks[i])
  }

  /** The transactions included form a chain by themselves, from the first moment to the last. */
  lemma {:induction false} IncludedChain(vm: Vm, env: Env, limit: int, minable: (Scene, Tx) -> bool, validate: (Moment, Tx) -> bool,
                                         peeks: seq<Tx>, ms: seq<Moment>) returns (chain: seq<Moment>)
    requires env.cfg.localFeeRate.den > 0 && VmOk(vm) && PeekedAll(vm, env, limit, minable, peeks, ms)
    requires Harmless(vm, env, limit, minable, peeks, ms) && Validated(vm, env, limit, minable, validate, peeks, ms)
    ensures Chained(vm, env, validate, IncludedOf(vm, env, limit, minable, peeks, ms), chain)
    ensures chain[0] == ms[0] && Last(chain) == Last(ms)
    decreases |peeks|
  {
    hide Applies, AfterTx, TurnedAway, VmOk, Tried;
    if peeks == [] {
      return ms;
    }
    var n := |peeks| - 1;
    var ps, ns := peeks[..n], ms[..n + 1];
    forall i | 0 <= i < n
      ensures Peeked(vm, env, limit, minable, ns[i], ps[i], ns[i + 1])
    {
      assert ps[i] == peeks[i];
    }
    forall i | 0 <= i < n && Includes(vm, env, limit, minable, ns[i], ps[i])
      ensures validate(ns[i], ps[i])
    {
      assert ps[i] == peeks[i];
    }
    forall i | 0 <= i < n && Tried(limit, minable, ns[i], ps[i])
      ensures Applies(vm, env.cfg.nativeTokenContract, ns[i].scene, ps[i], ns[i].gp) || TurnedAway(ns[i].scene, ps[i], ns[i].gp)
    {
      assert ps[i] == peeks[i];
    }
    chain := IncludedChain(vm, env, limit, minable, validate, ps, ns);
    IncludedPrefix(vm, env, limit, minable, ps, ns);
    assert ms[..n] == ns[..n];
    var tx := peeks[n];
    assert Peeked(vm, env, limit, minable, ms[n], tx, ms[n + 1]);
    if Includes(vm, env, limit, minable, ms[n], tx) {
      NonceRises(vm, env, ms[n], tx);
      ChainNext(vm, env, validate, IncludedOf(vm, env, limit, minable, ps, ns), chain, tx, ms[n + 1]);
      chain := chain + [ms[n + 1]];
    }
  }

  /**
   * If everything the miner tried either applied or was turned away, and what it included is valid, then no node
   * that executes the block refuses it, and every one ends in the miner's state.
   */
  lemma MinedBlockIsAccepted(vm: Vm, env: Env, ddosFixRootHeight: nat, start: Moment, ahead: seq<Event>, block: MinorBlock, limit: int,
                             minable: (Scene, Tx) -> bool, validate: (Moment, Tx) -> bool, peeks: seq<Tx>, delivered: seq<Event>,
                             arrived: seq<Moment>, moments: seq<Moment>, t: Trail)
    requires env.cfg.localFeeRate.den > 0 && VmOk(vm)
    requires MinedFrom(vm, env, ddosFixRootHeight, start, ahead, block, limit, minable, peeks, delivered, arrived, moments)
    requires Harmless(vm, env, limit, minable, peeks[..|moments| - 1], moments)
    requires Validated(vm, env, limit, minable, validate, peeks[..|moments| - 1], moments)
    ensures !Refused(vm, env, validate, ddosFixRootHeight, start, block, ahead, t)
    ensures forall r :: Completed(vm, env, validate, ddosFixRootHeight, start, block, ahead, t, r) ==>
              && r.balances == Rewarded(Last(moments).scene.balances, block.coinbase, block.reward)
              && r.nonces == Last(moments).scene.nonces && r.world == Last(moments).scene.world
              && r.sent == Last(moments).sent && r.fee == Last(moments).fee && r.delivered == DepositsOf(delivered)
  {
    hide VmOk, Arrivals, BelowLimit, CursorStops, PeekedAll, IncludedOf, Harmless, Validated, Rewarded, DepositsOf, Blocks, Fails;
    var chain := IncludedChain(vm, env, limit, minable, validate, peeks[..|moments| - 1], moments);
    var mined := Trail(delivered, arrived, chain);
    assert block.txs[..|block.txs|] == block.txs;
    assert Traced(vm, env, validate, ddosFixRootHeight, start, block, ahead, mined);
    hide Traced, Chained;
    if Refused(vm, env, validate, ddosFixRootHeight, start, block, ahead, t) {
      OneOutcome(vm, env, validate, ddosFixRootHeight, start, block, ahead, mined, t);
    }
    forall r | Completed(vm, env, validate, ddosFixRootHeight, start, block, ahead, t, r)
      ensures t == mined
    {
      OneOutcome(vm, env, validate, ddosFixRootHeight, start, block, ahead, mined, t);
    }
  }
}
