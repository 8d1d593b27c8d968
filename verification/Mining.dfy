/** Building a block to mine within its gas budget, and the split of gas across two shards. */
module Mining {
  import opened BlockTree
  import opened ChainTypes
  import opened Ledger
  import opened Transition
  import opened Cursor
  import opened Delivery
  import opened Execution

  /** A pending transaction is tried: its gas fits into what is left, and it passes the checks on price and calls. */
  predicate Tried(limit: int, minable: (Scene, Tx) -> bool, m: Moment, tx: Tx) {
    tx.gas <= limit - m.gasUsed && minable(m.scene, tx)
  }

  predicate Includes(vm: Vm, env: Env, limit: int, minable: (Scene, Tx) -> bool, m: Moment, tx: Tx) {
    Tried(limit, minable, m, tx) && Applies(vm, env.cfg.nativeTokenContract, m.scene, tx, m.gp)
  }

  /**
   * What looking at a pending transaction does: one that applies is applied, one that is not tried or is turned
   * away changes nothing; one that fails later is not undone.
   */
  predicate Peeked(vm: Vm, env: Env, limit: int, minable: (Scene, Tx) -> bool, m: Moment, tx: Tx, next: Moment)
    requires env.cfg.localFeeRate.den > 0
  {
    && m.gasUsed < limit
    && if Includes(vm, env, limit, minable, m, tx) then next == AfterTx(vm, env, m, tx)
       else !Tried(limit, minable, m, tx) || TurnedAway(m.scene, tx, m.gp) ==> next == m
  }

  /** The moments before, between and after the transactions looked at. */
  ghost predicate PeekedAll(vm: Vm, env: Env, limit: int, minable: (Scene, Tx) -> bool, peeks: seq<Tx>, ms: seq<Moment>)
    requires env.cfg.localFeeRate.den > 0
  {
    && |ms| == |peeks| + 1
    && forall i {:trigger peeks[i]} :: 0 <= i < |peeks| ==> Peeked(vm, env, limit, minable, ms[i], peeks[i], ms[i + 1])
  }

  /** The transactions that were applied, in the order they were looked at. */
  function IncludedOf(vm: Vm, env: Env, limit: int, minable: (Scene, Tx) -> bool, peeks: seq<Tx>, ms: seq<Moment>): seq<Tx>
    requires |ms| >= |peeks|
  {
    if peeks == [] then []
    else
      var n := |peeks| - 1;
      IncludedOf(vm, env, limit, minable, peeks[..n], ms[..n])
      + if Includes(vm, env, limit, minable, ms[n], peeks[n]) then [peeks[n]] else []
  }

  lemma PeekNext(vm: Vm, env: Env, limit: int, minable: (Scene, Tx) -> bool, peeks: seq<Tx>, ms: seq<Moment>, tx: Tx, next: Moment)
    requires env.cfg.localFeeRate.den > 0 && PeekedAll(vm, env, limit, minable, peeks, ms)
    requires Peeked(vm, env, limit, minable, Last(ms), tx, next)
    ensures PeekedAll(vm, env, limit, minable, peeks + [tx], ms + [next])
    ensures IncludedOf(vm, env, limit, minable, peeks + [tx], ms + [next]) ==
            IncludedOf(vm, env, limit, minable, peeks, ms) + if Includes(vm, env, limit, minable, Last(ms), tx) then [tx] else []
  {
    hide Peeked, Includes;
    var ps, ns := peeks + [tx], ms + [next];
    forall i | 0 <= i < |ps|
      ensures Peeked(vm, env, limit, minable, ns[i], ps[i], ns[i + 1])
    {
      if i < |peeks| {
        assert ps[i] == peeks[i];
      }
    }
    assert ps[..|peeks|] == peeks && ns[..|peeks|] == ms[..|peeks|];
    IncludedPrefix(vm, env, limit, minable, peeks, ms);
  }

  /** Only the moments before each transaction matter. */
  lemma {:induction false} IncludedPrefix(vm: Vm, env: Env, limit: int, minable: (Scene, Tx) -> bool, peeks: seq<Tx>, ms: seq<Moment>)
    requires |ms| >= |peeks|
    ensures IncludedOf(vm, env, limit, minable, peeks, ms[..|peeks|]) == IncludedOf(vm, env, limit, minable, peeks, ms)
  {
    if peeks != [] {
      var n := |peeks| - 1;
      assert ms[..|peeks|][..n] == ms[..n];
    }
  }

  /** Looks at one pending transaction. */
  method TryTransaction(state: StateDB, vm: Vm, gp: nat, tx: Tx, minable: (Scene, Tx) -> bool) returns (done: bool, gpAfter: nat)
    requires state.Valid() && VmOk(vm) && SmallTx(tx) && state.gasUsed < state.gasLimit
    modifies state`balances, state`nonces, state`world, state`refundCounter, state`gasUsed, state`blockFee
    modifies state`xShardList, state`withheld, state`overRefunded, state`gasCharged, state`gasRefunded
    ensures state.Valid()
    ensures done <==> Includes(vm, EnvOf(state), state.gasLimit, minable, old(MomentOf(state, gp)), tx)
    ensures Peeked(vm, EnvOf(state), state.gasLimit, minable, old(MomentOf(state, gp)), tx, MomentOf(state, gpAfter))
    ensures old(state.gasUsed) <= state.gasUsed <= state.gasLimit
    ensures !done && Tried(state.gasLimit, minable, old(MomentOf(state, gp)), tx) ==>
              forall u :: state.Worth(u) == old(state.Worth(u))
                          - Wasted(vm, state.cfg.nativeTokenContract, old(SceneOf(state)), tx, gp, u)
  {
    hide VmOk, Total, Money, Solvent, StateDB.Worth, FairRates, AllProtocol, Applies, Wasted, AfterTx, TurnedAway;
    if tx.gas > state.gasLimit - state.gasUsed || !minable(SceneOf(state), tx) {
      return false, gp;
    }
    var r;
    r, gpAfter := ApplyTransaction(state, vm, gp, tx);
    done := r.TxDone?;
  }

  /**
   * Adds pending transactions while gas is left. `peeks` are the transactions the pending queue offers one after
   * another, however it is ordered and whatever it skips; `minable` stands for the checks on price and contract
   * calls. The block includes exactly those that applied, in order, and stops early only when its gas is used up.
   */
  method AddTransactionsToBlock(state: StateDB, vm: Vm, blockGasLimit: nat, peeks: seq<Tx>, minable: (Scene, Tx) -> bool)
    returns (included: seq<Tx>, ghost seen: nat, ghost moments: seq<Moment>)
    requires state.Valid() && VmOk(vm) && forall i :: 0 <= i < |peeks| ==> SmallTx(peeks[i])
    modifies state`balances, state`nonces, state`world, state`refundCounter, state`gasUsed, state`blockFee
    modifies state`xShardList, state`withheld, state`overRefunded, state`gasCharged, state`gasRefunded
    ensures state.Valid() && seen <= |peeks| && (seen < |peeks| ==> state.gasUsed >= state.gasLimit)
    ensures PeekedAll(vm, EnvOf(state), state.gasLimit, minable, peeks[..seen], moments)
    ensures included == IncludedOf(vm, EnvOf(state), state.gasLimit, minable, peeks[..seen], moments)
    ensures |moments| == seen + 1
    ensures moments[0] == old(MomentOf(state, blockGasLimit)) && exists gp :: Last(moments) == MomentOf(state, gp)
    ensures old(state.gasUsed) <= state.gasUsed
    ensures state.gasUsed == old(state.gasUsed) || state.gasUsed <= state.gasLimit
  {
    included, seen := [], 0;
    var gp := blockGasLimit;
    ghost var now := MomentOf(state, gp);
    moments := [now];
    assert PeekedAll(vm, EnvOf(state), state.gasLimit, minable, peeks[..0], moments);
    hide VmOk, Total, Money, Solvent, StateDB.Worth, Peeked, Includes, PeekedAll, IncludedOf, MomentOf;
    var i := 0;
    while state.gasUsed < state.gasLimit && i < |peeks|
      invariant 0 <= i <= |peeks| && seen == i && state.Valid() && |moments| == i + 1
      invariant PeekedAll(vm, EnvOf(state), state.gasLimit, minable, peeks[..i], moments)
      invariant included == IncludedOf(vm, EnvOf(state), state.gasLimit, minable, peeks[..i], moments)
      invariant moments[0] == old(MomentOf(state, blockGasLimit)) && Last(moments) == MomentOf(state, gp)
      invariant old(state.gasUsed) <= state.gasUsed && (state.gasUsed == old(state.gasUsed) || state.gasUsed <= state.gasLimit)
      decreases |peeks| - i
    {
      var done;
      done, gp := TryTransaction(state, vm, gp, peeks[i], minable);
      now := MomentOf(state, gp);
      PeekNext(vm, EnvOf(state), state.gasLimit, minable, peeks[..i], moments, peeks[i], now);
      assert peeks[..i + 1] == peeks[..i] + [peeks[i]];
      if done {
        included := included + [peeks[i]];
      }
      i, seen, moments := i + 1, seen + 1, moments + [now];
    }
  }

  /**
   * How a block was built: the cursor's deposits up to the cross-shard limit, then the pending transactions that
   * applied, in order, each on what came before.
   */
  ghost predicate MinedFrom(vm: Vm, env: Env, ddosFixRootHeight: nat, start: Moment, ahead: seq<Event>, block: MinorBlock,
                            limit: int, minable: (Scene, Tx) -> bool, peeks: seq<Tx>, delivered: seq<Event>, arrived: seq<Moment>,
                            moments: seq<Moment>)
    requires env.cfg.localFeeRate.den > 0
  {
    && Arrivals(vm, env, ddosFixRootHeight, delivered, arrived) && arrived[0] == start && delivered <= ahead
    && BelowLimit(arrived, block.xShardGasLimit) && CursorStops(block.xShardGasLimit, ahead, delivered, arrived)
    && 1 <= |moments| <= |peeks| + 1 && moments[0] == Last(arrived).(gp := block.gasLimit)
    && PeekedAll(vm, env, limit, minable, peeks[..|moments| - 1], moments)
    && block.txs == IncludedOf(vm, env, limit, minable, peeks[..|moments| - 1], moments)
  }

  /**
   * Builds a block on a parent state: deposits first, then transactions in what is left, then the reward. In-shard
   * transactions use at most the gas limit less the cross-shard limit, and the deposits exceed the
   * cross-shard limit by less than one deposit's gas.
   */
  method CreateBlockToMine(state: StateDB, vm: Vm, bc: Chain, prevRoot: Hash, info: CursorInfo, gasLimit: nat,
                           xShardGasLimit: nat, ddosFixRootHeight: nat, peeks: seq<Tx>, minable: (Scene, Tx) -> bool,
                           reward: seq<(Token, nat)>)
    returns (r: Option<MinorBlock>, deposits: seq<Deposit>, xShardGas: nat, ghost run: BlockRun, ghost arrived: seq<Moment>,
             ghost moments: seq<Moment>)
    requires state.Valid() && VmOk(vm) && bc.genesisToken == state.cfg.genesisToken && ProtocolChain(bc)
    requires state.gasUsed == 0 && state.gasLimit == gasLimit && forall i :: 0 <= i < |peeks| ==> SmallTx(peeks[i])
    requires Tree(bc.roots, bc.genesisRootHeight) && prevRoot in bc.roots
    requires ValidInfo(bc, Path(bc.roots, bc.genesisRootHeight, prevRoot), bc.genesisRootHeight, info)
    modifies state
    ensures run.path == Path(bc.roots, bc.genesisRootHeight, prevRoot) && IsRun(bc, bc.genesisRootHeight, info, run)
    ensures r.None? ==> var ahead := Rest(bc, run.path, bc.genesisRootHeight, run.info);
                        arrived != [] && ahead != [] && Blocks(vm, state.EvmEnabled(), Last(arrived).scene, ahead[0])
    ensures r.Some? ==>
              && r.value == MinorBlock(state.blockCoinbase, state.timestamp, prevRoot, r.value.txs, gasLimit, xShardGasLimit, reward)
              && BlockEnv(state.cfg, r.value) == EnvOf(state)
    ensures r.Some? ==>
              MinedFrom(vm, EnvOf(state), ddosFixRootHeight, old(MomentOf(state, 0)),
                        Rest(bc, Path(bc.roots, bc.genesisRootHeight, prevRoot), bc.genesisRootHeight, info), r.value,
                        state.gasLimit, minable, peeks, run.delivered, arrived, moments)
    ensures r.Some? ==> |moments| == |peeks| + 1 || Last(moments).gasUsed >= state.gasLimit
    ensures r.Some? ==>
              && state.balances == Rewarded(Last(moments).scene.balances, state.blockCoinbase, reward)
              && state.nonces == Last(moments).scene.nonces && state.world == Last(moments).scene.world
              && state.xShardList == Last(moments).sent && state.blockFee == Last(moments).fee
    ensures r.Some? ==> xShardGas <= state.gasUsed
    ensures r.Some? ==> state.gasUsed - xShardGas <= if gasLimit >= xShardGasLimit then gasLimit - xShardGasLimit else 0
    ensures r.Some? ==> WithinLimit(xShardGas, xShardGasLimit, deposits, 0) && deposits == DepositsOf(run.delivered)
  {
    hide VmOk, Total, Money, Solvent, StateDB.Worth, Path, Tree, ValidInfo, Rest, ProtocolChain, Arrivals, BelowLimit, PeekedAll,
      IncludedOf, WithinLimit, Blocks, FairDeposits, Rewarded, DepositsOf;
    xShardGas := 0;
    var ok, saved;
    ok, deposits, saved, run, arrived :=
      RunCrossShardTxWithCursor(state, vm, bc, prevRoot, info, xShardGasLimit, ddosFixRootHeight);
    if !ok {
      moments := [];
      return None, deposits, 0, run, arrived, moments;
    }
    xShardGas := state.gasUsed;
    if state.gasUsed < xShardGasLimit {
      state.gasLimit := state.gasLimit - (xShardGasLimit - state.gasUsed);
    }
    ghost var seen;
    var included;
    included, seen, moments := AddTransactionsToBlock(state, vm, gasLimit, peeks, minable);
    AddReward(state, reward);
    r := Some(MinorBlock(state.blockCoinbase, state.timestamp, prevRoot, included, gasLimit, xShardGasLimit, reward));
  }

  /** A cross-shard message sends its deposit: it is accepted and its sender may transfer. */
  predicate Leaves(vm: Vm, s: Scene, msg: Message, price: nat, gp: nat) {
    Accepted(vm, s, msg, price, gp, false) && !Barred(Paid(s, msg, price), msg)
  }

  /**
   * A cross-shard message from both ends: what the source charges, what the target charges and what
   * both refund never exceeds the gas bought, and is exactly the gas bought unless the target runs
   * before activation with a reserve in the deposit, or waives its share for a zero gas price.
   */
  method TransferAcross(source: StateDB, target: StateDB, vm: Vm, msg: Message, gasPriceInGasToken: nat, gp: nat,
                        checkIsFromRootChain: bool)
    returns (arrived: bool, ghost settled: int)
    requires source != target && source.Valid() && target.Valid() && VmOk(vm)
    requires source.cfg == target.cfg && msg.isCrossShard && |msg.data| < 0x1_0000_0000_0000
    modifies source, target
    ensures settled == source.gasCharged - old(source.gasCharged) + source.gasRefunded - old(source.gasRefunded)
                       + target.gasCharged - old(target.gasCharged) + target.gasRefunded - old(target.gasRefunded)
    ensures arrived ==> Leaves(vm, old(SceneOf(source)), msg, gasPriceInGasToken, gp)
    ensures !target.EvmEnabled() ==> (arrived <==> Leaves(vm, old(SceneOf(source)), msg, gasPriceInGasToken, gp))
    ensures arrived ==> |source.xShardList| == |old(source.xShardList)| + 1
    ensures arrived ==> settled <= msg.gas
    ensures arrived ==>
              (settled == msg.gas <==>
               if target.EvmEnabled() then checkIsFromRootChain || msg.gasPrice != 0
               else (msg.to.Some? && !source.EvmEnabled())
                    || msg.gas == DataGas(msg.data, msg.to.None?) + GTXX_SHARD_COST)
  {
    hide Total, Money, Solvent, StateDB.Worth, Accepted, Deliverable;
    var st := new StateTransition(source, vm, msg, gasPriceInGasToken, false, 0, false, gp);
    var r := st.TransitionDb();
    arrived := r.Done? && !r.failed;
    if arrived {
      var d := source.xShardList[|source.xShardList| - 1];
      arrived := ApplyCrossShardDeposit(target, vm, d, checkIsFromRootChain);
    }
    settled := source.gasCharged - old(source.gasCharged) + source.gasRefunded - old(source.gasRefunded)
             + target.gasCharged - old(target.gasCharged) + target.gasRefunded - old(target.gasRefunded);
  }

  /** A machine that transfers nothing. */
  function IdleVm(): Vm {
    Vm((w: World, b: Balances, n: Nonces, k: nat, c: Call) =>
         VmOutcome(b, n[c.msg.from := NonceIn(n, c.msg.from) + NoncesUsed(c, NoErr)], w, c.gas, k, NoErr),
       (w: World, b: Balances, t: Token, g: nat, p: nat) => PayOutcome(b, w, 100, None), (a: Recipient, n: nat) => 0)
  }

  lemma IdleVmIsOk()
    ensures VmOk(IdleVm())
  {
    hide Solvent, Total;
  }

  /** One unit of gas more than is due, sent from a shard after activation to one before it, is lost. */
  method ReserveIsStranded() returns (source: StateDB, target: StateDB, arrived: bool, ghost settled: int, gas: nat)
    ensures arrived && settled < gas && source.EvmEnabled() && !target.EvmEnabled()
  {
    IdleVmIsOk();
    hide VmOk, MulRate;
    var cfg := Settings(0, Rate(1, 2), 1, 0);
    source := new StateDB(cfg, 1, 0, map[], map[], map[], 0, 0);
    target := new StateDB(cfg, 0, 0, map[], map[], map[], 0, 0);
    gas := TX_GAS + GTXX_SHARD_COST + 1;
    var msg := Message(1, Some(2), 0, true, 0, gas, 0, [], true, 0, 0, 0, 0, 100);
    arrived, settled := TransferAcross(source, target, IdleVm(), msg, 0, gas, true);
  }

  /** A pending transaction with less gas than is due is not included, but the money for its gas is gone from the miner's state. */
  method FailedAttemptIsNotUndone() returns (state: StateDB, done: bool, ghost before: int)
    ensures !done && state.Worth(0) < before
  {
    IdleVmIsOk();
    hide VmOk, MulRate, Solvent;
    var balances: Balances := map[0 := map[1 := 5]];
    assert Solvent(balances) by { OneHolder(); }
    state := new StateDB(Settings(0, Rate(1, 2), 1, 0), 0, 0, map[], balances, map[], 0, 100);
    before := state.Worth(0);
    var tx := Tx.Tx(0, 1, Some(2), 0, 0, 5, 1, [], false, 0, 0, 0);
    var gp;
    done, gp := TryTransaction(state, IdleVm(), 100, tx, (s: Scene, tx: Tx) => true);
  }

  lemma OneHolder()
    ensures Solvent(map[0 := map[1 := 5]])
  {
  }
}
