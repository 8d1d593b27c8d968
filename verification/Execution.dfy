/** Executing a minor block: incoming deposits first, then its transactions, then its reward. */
module Execution {
  import opened BlockTree
  import opened ChainTypes
  import opened Ledger
  import opened Transition
  import opened Cursor
  import opened Delivery

  datatype Tx = Tx(
    hash: Hash, from: Recipient, to: Option<Recipient>, nonce: nat, value: nat, gas: nat, gasPrice: nat,
    data: seq<Byte>, isCrossShard: bool, toKey: bv32, transferToken: Token, gasToken: Token)

  predicate SmallTx(tx: Tx) {
    |tx.data| < 0x1_0000_0000_0000
  }

  /** A deposit as shards and root blocks make them: gas in the genesis token, none for a root reward. */
  ghost predicate ProtocolDeposit(genesisToken: Token, d: Deposit) {
    d.gasToken == genesisToken && (d.fromRoot ==> d.gasPrice == 0) && |d.data| < 0x1_0000_0000_0000
  }

  ghost predicate AllProtocol(genesisToken: Token, s: seq<Deposit>) {
    forall i :: 0 <= i < |s| ==> ProtocolDeposit(genesisToken, s[i])
  }

  datatype TxResult = TxFailed(err: ApplyErr) | TxDone(gas: nat, failed: bool)

  datatype ApplyErr = NoGasPrice | NoReserve | Rejected(err: TxErr)

  function MessageOf(tx: Tx, gasPrice: nat, refundRate: nat): Message {
    Message(tx.from, tx.to, tx.nonce, true, tx.value, tx.gas, gasPrice, tx.data, tx.isCrossShard, tx.toKey, tx.hash,
            tx.transferToken, tx.gasToken, refundRate)
  }

  /** The native-token contract never promises to refund more than was paid. */
  ghost predicate FairRates(vm: Vm) {
    forall w, b, t, g, p :: vm.pay(w, b, t, g, p).refundRate <= 100
  }

  function SceneOf(state: StateDB): Scene
    reads state`balances, state`world, state`refundCounter, state`nonces
  {
    Scene(state.cfg.genesisToken, state.senderDisallow, state.world, state.balances, state.nonces, state.refundCounter)
  }

  function EnvOf(state: StateDB): Env {
    Env(state.cfg, state.blockCoinbase, state.EvmEnabled())
  }

  /** A shard between two messages of a block: what it finds, the gas used and left, the deposits sent, the fees. */
  datatype Moment = Moment(scene: Scene, gasUsed: nat, gp: nat, sent: seq<Deposit>, fee: nat)

  function MomentOf(state: StateDB, gp: nat): (m: Moment)
    reads state`balances, state`world, state`refundCounter, state`nonces, state`gasUsed, state`xShardList, state`blockFee
    ensures m.gasUsed == state.gasUsed
  {
    Moment(SceneOf(state), state.gasUsed, gp, state.xShardList, state.blockFee)
  }

  function Past(m: Moment, e: Effect, gp: nat): Moment {
    Moment(e.scene, m.gasUsed + e.used, gp, m.sent + e.sent, m.fee + e.fee)
  }

  /** The moment after an accepted message; the gas of a cross-shard one does not return to the block. */
  function AfterMessage(vm: Vm, env: Env, m: Moment, msg: Message, price: nat): Moment
    requires env.cfg.localFeeRate.den > 0 && Due(msg) <= msg.gas <= m.gp
  {
    var e := MessageEffect(vm, env, m.scene, msg, price, false);
    Past(m, e, m.gp - msg.gas + if msg.isCrossShard then 0 else e.refunded)
  }

  /** The gas price in the genesis token, how much of it is refundable, and the scene after the conversion. */
  datatype Conversion = Conversion(price: nat, refundRate: nat, scene: Scene)

  /** What the native-token contract makes of a transaction's gas price, if it knows a price and has the reserve. */
  function Convert(vm: Vm, contract: Recipient, s: Scene, tx: Tx): Option<Conversion> {
    var p := vm.pay(s.world, s.balances, tx.gasToken, tx.gas, tx.gasPrice);
    if p.price.None? || p.price.value == 0 then None
    else if BalanceOf(p.balances, contract, s.genesisToken) < tx.gas * p.price.value then None
    else
      var given := Plus(p.balances, contract, -(tx.gas * p.price.value), s.genesisToken);
      Some(Conversion(p.price.value, p.refundRate,
                      s.(world := p.world, balances := Plus(given, contract, tx.gas * tx.gasPrice, tx.gasToken))))
  }

  /**
   * Converts the gas price of a transaction that pays in another token: the native-token contract
   * gives up the converted gas money and takes what the sender will pay.
   */
  method PayNativeTokenAsGas(state: StateDB, vm: Vm, tx: Tx) returns (r: Option<(nat, nat)>, err: ApplyErr)
    requires state.Valid() && VmOk(vm)
    modifies state`balances, state`world
    ensures state.Valid()
    ensures r.Some? && FairRates(vm) ==> r.value.1 <= 100
    ensures var c := Convert(vm, state.cfg.nativeTokenContract, old(SceneOf(state)), tx);
            && (r.Some? <==> c.Some?)
            && (r.Some? ==> r.value == (c.value.price, c.value.refundRate) && SceneOf(state) == c.value.scene)
    ensures r.None? ==> forall u :: state.Worth(u) == old(state.Worth(u))
    ensures r.Some? ==> forall u :: state.Worth(u) == old(state.Worth(u))
                                    - (if u == state.cfg.genesisToken then tx.gas * r.value.0 else 0)
                                    + (if u == tx.gasToken then tx.gas * tx.gasPrice else 0)
  {
    var p := vm.pay(state.world, state.balances, tx.gasToken, tx.gas, tx.gasPrice);
    state.balances, state.world := p.balances, p.world;
    if p.price.None? || p.price.value == 0 {
      return None, NoGasPrice;
    }
    hide VmOk, Total, Money, Solvent;
    var contract := state.cfg.nativeTokenContract;
    if state.GetBalance(contract, state.cfg.genesisToken) < tx.gas * p.price.value {
      return None, NoReserve;
    }
    state.SubBalance(contract, tx.gas * p.price.value, state.cfg.genesisToken);
    state.AddBalance(contract, tx.gas * tx.gasPrice, tx.gasToken);
    return Some((p.price.value, p.refundRate)), NoReserve;
  }

  /** A transaction succeeds: its gas price can be converted if need be, and its message is accepted. */
  predicate Applies(vm: Vm, contract: Recipient, s: Scene, tx: Tx, gp: nat) {
    if tx.gasToken == s.genesisToken then Accepted(vm, s, MessageOf(tx, tx.gasPrice, 100), tx.gasPrice, gp, false)
    else
      var c := Convert(vm, contract, s, tx);
      c.Some? && Accepted(vm, c.value.scene, MessageOf(tx, c.value.price, c.value.refundRate), tx.gasPrice, gp, false)
  }

  /** The moment after a transaction; one that does not apply changes nothing. */
  function AfterTx(vm: Vm, env: Env, m: Moment, tx: Tx): Moment
    requires env.cfg.localFeeRate.den > 0
  {
    if !Applies(vm, env.cfg.nativeTokenContract, m.scene, tx, m.gp) then m
    else
      AppliesHasGas(vm, env.cfg.nativeTokenContract, m.scene, tx, m.gp);
      var e := TxEffect(vm, env, m.scene, tx, m.gp);
      Past(m, e, m.gp - tx.gas + if tx.isCrossShard then 0 else e.refunded)
  }

  lemma AppliesHasGas(vm: Vm, contract: Recipient, s: Scene, tx: Tx, gp: nat)
    requires Applies(vm, contract, s, tx, gp)
    ensures tx.gas <= gp
  {
  }

  /** What a transaction that applies does: what its message does, after its gas price is converted if need be. */
  function TxEffect(vm: Vm, env: Env, s: Scene, tx: Tx, gp: nat): Effect
    requires env.cfg.localFeeRate.den > 0 && Applies(vm, env.cfg.nativeTokenContract, s, tx, gp)
  {
    if tx.gasToken == s.genesisToken then MessageEffect(vm, env, s, MessageOf(tx, tx.gasPrice, 100), tx.gasPrice, false)
    else
      var c := Convert(vm, env.cfg.nativeTokenContract, s, tx).value;
      MessageEffect(vm, env, c.scene, MessageOf(tx, c.price, c.refundRate), tx.gasPrice, false)
  }

  /** The transaction is turned away before it pays for gas: it is not due, the sender lacks the money or the block the gas. */
  predicate TurnedAway(s: Scene, tx: Tx, gp: nat) {
    && tx.gasToken == s.genesisToken
    && (NonceIn(s.nonces, tx.from) != tx.nonce || tx.gas * tx.gasPrice > BalanceOf(s.balances, tx.from, tx.gasToken) || tx.gas > gp)
  }

  /** What a failed transaction takes away: the gas money if it was paid, and the effect of a conversion. */
  function Wasted(vm: Vm, contract: Recipient, s: Scene, tx: Tx, gp: nat, u: Token): int {
    var gasMoney: int := if u == tx.gasToken then tx.gas * tx.gasPrice else 0;
    if tx.gasToken == s.genesisToken then
      if BuysIn(s, MessageOf(tx, tx.gasPrice, 100), tx.gasPrice, gp) then gasMoney else 0
    else
      var c := Convert(vm, contract, s, tx);
      if c.None? then 0
      else
        (if u == s.genesisToken then tx.gas * c.value.price else 0) - gasMoney
        + if BuysIn(c.value.scene, MessageOf(tx, c.value.price, c.value.refundRate), tx.gasPrice, gp) then gasMoney else 0
  }

  /** Applies one transaction of a block: when it succeeds, nothing the shard accounts for is lost. */
  method ApplyTransaction(state: StateDB, vm: Vm, gp: nat, tx: Tx) returns (r: TxResult, gpAfter: nat)
    requires state.Valid() && VmOk(vm) && SmallTx(tx)
    modifies state`balances, state`nonces, state`world, state`refundCounter, state`gasUsed, state`blockFee
    modifies state`xShardList, state`withheld, state`overRefunded, state`gasCharged, state`gasRefunded
    ensures state.Valid()
    ensures r.TxDone? <==> Applies(vm, state.cfg.nativeTokenContract, old(SceneOf(state)), tx, gp)
    ensures r.TxDone? ==> MomentOf(state, gpAfter) == AfterTx(vm, EnvOf(state), old(MomentOf(state, gp)), tx)
    ensures r.TxDone? ==>
              var e := TxEffect(vm, EnvOf(state), old(SceneOf(state)), tx, gp);
              r.failed == e.failed && r.gas == if tx.isCrossShard then state.gasUsed else e.charged
    ensures r.TxFailed? ==> state.gasUsed == old(state.gasUsed)
    ensures TurnedAway(old(SceneOf(state)), tx, gp) ==>
              r.TxFailed? && MomentOf(state, gpAfter) == old(MomentOf(state, gp)) && unchanged(state)
    ensures r.TxFailed? ==>
              forall u :: state.Worth(u) == old(state.Worth(u))
                          - Wasted(vm, state.cfg.nativeTokenContract, old(SceneOf(state)), tx, gp, u)
    ensures r.TxDone? ==> NonceIn(state.nonces, tx.from) == old(NonceIn(state.nonces, tx.from)) + 1
    ensures r.TxDone? ==> old(state.gasUsed) <= state.gasUsed <= old(state.gasUsed) + tx.gas
    ensures r.TxDone? ==> forall u :: state.Worth(u) == old(state.Worth(u))
    ensures r.TxDone? ==> AllProtocol(state.cfg.genesisToken, old(state.xShardList))
                          ==> AllProtocol(state.cfg.genesisToken, state.xShardList)
    ensures FairRates(vm) ==> state.overRefunded == old(state.overRefunded)
  {
    hide VmOk, Solvent, Total, Money, Plus, BalanceOf, StateDB.Worth, FairRates, StateTransition.OnlyParties, Convert, Accepted,
      MessageEffect;
    var gasPrice, refundRate := tx.gasPrice, 100;
    if tx.gasToken != state.cfg.genesisToken {
      var paid, err := PayNativeTokenAsGas(state, vm, tx);
      if paid.None? {
        return TxFailed(err), gp;
      }
      gasPrice, refundRate := paid.value.0, paid.value.1;
    }
    r, gpAfter := ApplyMessage(state, vm, gp, MessageOf(tx, gasPrice, refundRate), tx.gasPrice);
  }

  lemma AcceptedBuys(vm: Vm, s: Scene, msg: Message, price: nat, gp: nat)
    ensures Accepted(vm, s, msg, price, gp, false) ==> BuysIn(s, msg, price, gp) && Due(msg) <= msg.gas <= gp
  {
  }

  /** Applies a message whose gas is bought at a price in its gas token and spent at one in the genesis token. */
  method ApplyMessage(state: StateDB, vm: Vm, gp: nat, msg: Message, price: nat) returns (r: TxResult, gpAfter: nat)
    requires state.Valid() && VmOk(vm) && |msg.data| < 0x1_0000_0000_0000
    modifies state`balances, state`nonces, state`world, state`refundCounter, state`gasUsed, state`blockFee
    modifies state`xShardList, state`withheld, state`overRefunded, state`gasCharged, state`gasRefunded
    ensures state.Valid()
    ensures r.TxDone? <==> Accepted(vm, old(SceneOf(state)), msg, price, gp, false)
    ensures r.TxDone? ==> Due(msg) <= msg.gas <= gp
                          && MomentOf(state, gpAfter) == AfterMessage(vm, EnvOf(state), old(MomentOf(state, gp)), msg, price)
                          && var e := MessageEffect(vm, EnvOf(state), old(SceneOf(state)), msg, price, false);
                             r.failed == e.failed && r.gas == if msg.isCrossShard then state.gasUsed else e.charged
    ensures r.TxFailed? ==> state.gasUsed == old(state.gasUsed)
    ensures !BuysIn(old(SceneOf(state)), msg, price, gp) ==> r.TxFailed? && gpAfter == gp && unchanged(state)
    ensures r.TxFailed? ==>
              forall u :: state.Worth(u) == old(state.Worth(u))
                          - if BuysIn(old(SceneOf(state)), msg, price, gp) && u == msg.gasToken then msg.gas * price else 0
    ensures r.TxDone? ==> NonceIn(state.nonces, msg.from) == old(NonceIn(state.nonces, msg.from)) + 1
    ensures r.TxDone? ==> old(state.gasUsed) <= state.gasUsed <= old(state.gasUsed) + msg.gas
    ensures r.TxDone? ==>
              forall u :: state.Worth(u) == old(state.Worth(u))
                          + (if u == state.cfg.genesisToken then msg.gas * msg.gasPrice else 0)
                          - (if u == msg.gasToken then msg.gas * price else 0)
    ensures r.TxDone? ==> AllProtocol(state.cfg.genesisToken, old(state.xShardList))
                          ==> AllProtocol(state.cfg.genesisToken, state.xShardList)
    ensures msg.refundRate <= 100 ==> state.overRefunded == old(state.overRefunded)
  {
    AcceptedBuys(vm, SceneOf(state), msg, price, gp);
    hide VmOk, Solvent, Total, Money, Plus, BalanceOf, StateDB.Worth, StateTransition.OnlyParties, Accepted, MessageEffect, Due;
    var st := new StateTransition(state, vm, msg, price, false, 0, false, gp);
    var res := st.TransitionDb();
    gpAfter := st.gp;
    if res.Failed? {
      return TxFailed(Rejected(res.err)), gpAfter;
    }
    return TxDone(res.usedGas, res.failed), gpAfter;
  }

  // ---------- incoming deposits ----------

  function GasUsedStart(d: Deposit, checkIsFromRootChain: bool): nat {
    if (if checkIsFromRootChain then d.fromRoot else d.gasPrice == 0) then 0 else GTXX_SHARD_COST
  }

  /** The message a deposit becomes on its target shard. */
  function MessageFor(d: Deposit): Message {
    Message(d.from, Some(d.to), 0, false, d.value, d.gasRemained, d.gasPrice, d.data, false, d.toKey, d.txHash,
            d.transferToken, d.gasToken, d.refundRate)
  }

  /** The deposit can be applied: before activation always, after it unless the machine cannot transfer the value. */
  predicate Deliverable(vm: Vm, evmEnabled: bool, s: Scene, d: Deposit) {
    evmEnabled ==>
      var credited := s.(balances := Plus(s.balances, d.from, d.value, d.transferToken));
      Answer(vm, credited, MessageFor(d), d.createContract, true, d.gasRemained) != InsufficientBalance
  }

  /** The moment after a deposit. */
  function AfterDeposit(vm: Vm, env: Env, m: Moment, d: Deposit, checkIsFromRootChain: bool): Moment
    requires env.cfg.localFeeRate.den > 0
  {
    var start := GasUsedStart(d, checkIsFromRootChain);
    if env.evmEnabled then Past(m, EvmEffect(vm, env, m.scene, d, start), m.gp)
    else m.(scene := m.scene.(balances := Credited(m.scene.balances, env.cfg, env.miner, d)), gasUsed := m.gasUsed + start,
            fee := m.fee + MulRate(d.gasPrice * GTXX_SHARD_COST, env.cfg.localFeeRate))
  }

  /** After activation: the sender gets the value here and the virtual machine transfers it on. */
  function EvmEffect(vm: Vm, env: Env, s: Scene, d: Deposit, gasUsedStart: nat): Effect
    requires env.cfg.localFeeRate.den > 0
  {
    var credited := s.(balances := Plus(s.balances, d.from, d.value, d.transferToken));
    CallEffect(vm, env, credited, MessageFor(d), d.createContract, true, d.gasRemained, d.gasRemained + gasUsedStart)
  }

  /**
   * Credits a deposit on its target shard: the value, the gas it was charged for there and the gas
   * refunded. Before the virtual machine is enabled the reserved gas is not refunded to anyone.
   */
  method ApplyCrossShardDeposit(state: StateDB, vm: Vm, d: Deposit, checkIsFromRootChain: bool) returns (ok: bool)
    requires state.Valid() && VmOk(vm) && ProtocolDeposit(state.cfg.genesisToken, d)
    modifies state`balances, state`nonces, state`world, state`refundCounter, state`gasUsed, state`blockFee
    modifies state`xShardList, state`withheld, state`stranded, state`overRefunded, state`gasCharged, state`gasRefunded
    ensures state.Valid()
    ensures ok <==> Deliverable(vm, state.EvmEnabled(), old(SceneOf(state)), d)
    ensures ok ==> forall gp :: MomentOf(state, gp)
                                == AfterDeposit(vm, EnvOf(state), old(MomentOf(state, gp)), d, checkIsFromRootChain)
    ensures ok ==> state.gasUsed <= old(state.gasUsed) + d.gasRemained + GTXX_SHARD_COST
    ensures ok ==> state.xShardList == old(state.xShardList)
    ensures d.refundRate <= 100 ==> state.overRefunded == old(state.overRefunded)
    ensures ok ==> forall u :: state.Worth(u) == old(state.Worth(u)) + Carried(d, u)
    ensures ok ==> state.stranded == old(state.stranded) + if state.EvmEnabled() then 0 else d.gasRemained * d.gasPrice
    ensures ok ==> state.gasCharged + state.gasRefunded == old(state.gasCharged) + old(state.gasRefunded)
                   + if state.EvmEnabled() then d.gasRemained + GasUsedStart(d, checkIsFromRootChain) else GTXX_SHARD_COST
    ensures !state.EvmEnabled() ==> ok && state.balances == Credited(old(state.balances), state.cfg, state.blockCoinbase, d)
  {
    hide VmOk, Total, Money, Solvent, StateDB.Worth, Credited, EvmEffect, Answer, Plus, Carried;
    var gasUsedStart := GasUsedStart(d, checkIsFromRootChain);
    if !state.EvmEnabled() {
      CreditBeforeEvm(state, d, gasUsedStart);
      return true;
    }
    ok := ApplyByEvm(state, vm, d, gasUsedStart);
    if ok {
      ByEvmIsCarried(d, checkIsFromRootChain);
    }
  }

  lemma ByEvmIsCarried(d: Deposit, checkIsFromRootChain: bool)
    requires d.fromRoot ==> d.gasPrice == 0
    ensures forall u :: Carried(d, u) == (if u == d.transferToken then d.value else 0)
                        + if u == d.gasToken then (d.gasRemained + GasUsedStart(d, checkIsFromRootChain)) * d.gasPrice else 0
  {
    Distribute(d.gasRemained, GTXX_SHARD_COST, d.gasPrice);
  }

  method ApplyByEvm(state: StateDB, vm: Vm, d: Deposit, gasUsedStart: nat) returns (ok: bool)
    requires state.Valid() && VmOk(vm) && ProtocolDeposit(state.cfg.genesisToken, d)
    modifies state`balances, state`nonces, state`world, state`refundCounter, state`gasUsed, state`blockFee
    modifies state`xShardList, state`withheld, state`overRefunded, state`gasCharged, state`gasRefunded
    ensures state.Valid()
    ensures ok <==> Deliverable(vm, true, old(SceneOf(state)), d)
    ensures ok ==>
              var e := EvmEffect(vm, EnvOf(state), old(SceneOf(state)), d, gasUsedStart);
              && SceneOf(state) == e.scene && e.sent == [] && state.gasUsed == old(state.gasUsed) + e.used
              && state.blockFee == old(state.blockFee) + e.fee
    ensures ok ==> state.gasUsed <= old(state.gasUsed) + d.gasRemained + gasUsedStart
    ensures ok ==> state.xShardList == old(state.xShardList)
    ensures d.refundRate <= 100 ==> state.overRefunded == old(state.overRefunded)
    ensures ok ==> forall u :: state.Worth(u) == old(state.Worth(u)) + (if u == d.transferToken then d.value else 0)
                               + if u == d.gasToken then (d.gasRemained + gasUsedStart) * d.gasPrice else 0
    ensures ok ==> state.gasCharged + state.gasRefunded
                   == old(state.gasCharged) + old(state.gasRefunded) + d.gasRemained + gasUsedStart
  {
    hide VmOk, Total, Money, Solvent, Outcome, Plus, BalanceOf, StateDB.Worth, Accepted, FeePaid, Refunded, LocalFee;
    state.AddBalance(d.from, d.value, d.transferToken);
    var st := new StateTransition(state, vm, MessageFor(d), d.gasPrice, true, gasUsedStart, d.createContract,
                                  if state.gasLimit < 0 then 0 else state.gasLimit);
    var res := st.TransitionDb();
    return res.Done?;
  }

  /** The recipient gets the value, and the miner the local share of the fee. */
  function Credited(b: Balances, cfg: Settings, miner: Recipient, d: Deposit): Balances
    requires cfg.localFeeRate.den > 0
  {
    Plus(Plus(b, d.to, d.value, d.transferToken),
         miner, MulRate(d.gasPrice * GTXX_SHARD_COST, cfg.localFeeRate), d.gasToken)
  }

  method CreditBeforeEvm(state: StateDB, d: Deposit, gasUsedStart: nat)
    requires state.Valid() && ProtocolDeposit(state.cfg.genesisToken, d)
    modifies state`balances, state`gasUsed, state`blockFee, state`withheld, state`stranded, state`gasCharged
    ensures state.Valid() && state.gasUsed == old(state.gasUsed) + gasUsedStart
    ensures state.gasCharged == old(state.gasCharged) + GTXX_SHARD_COST
    ensures state.stranded == old(state.stranded) + d.gasRemained * d.gasPrice
    ensures state.balances == Credited(old(state.balances), state.cfg, state.blockCoinbase, d)
    ensures state.blockFee == old(state.blockFee) + MulRate(d.gasPrice * GTXX_SHARD_COST, state.cfg.localFeeRate)
    ensures forall u :: state.Worth(u) == old(state.Worth(u)) + Carried(d, u)
  {
    hide Total, Money, Solvent, MulRate, Plus, WithinRate;
    state.AddBalance(d.to, d.value, d.transferToken);
    state.gasUsed := state.gasUsed + gasUsedStart;
    var fee := d.gasPrice * GTXX_SHARD_COST;
    var xShardFee := MulRate(fee, state.cfg.localFeeRate);
    WithinRateKept(state.blockFee, state.withheld, fee, state.cfg.localFeeRate);
    state.AddBalance(state.blockCoinbase, xShardFee, d.gasToken);
    state.blockFee := state.blockFee + xShardFee;
    state.withheld := state.withheld + (fee - xShardFee);
    state.gasCharged := state.gasCharged + GTXX_SHARD_COST;
    state.stranded := state.stranded + d.gasRemained * d.gasPrice;
    Distribute(d.gasRemained, GTXX_SHARD_COST, d.gasPrice);
  }

  // ---------- running the cursor ----------

  function DepositsOf(s: seq<Event>): seq<Deposit> {
    if s == [] then []
    else DepositsOf(s[..|s| - 1]) + if s[|s| - 1].Yield? then [s[|s| - 1].deposit] else []
  }

  ghost predicate ProtocolChain(bc: Chain) {
    forall h, i :: h in bc.lists && 0 <= i < |bc.lists[h]| ==> ProtocolDeposit(bc.genesisToken, bc.lists[h][i])
  }

  ghost predicate ProtocolEvents(t: Token, s: seq<Event>) {
    forall i :: 0 <= i < |s| && s[i].Yield? ==> ProtocolDeposit(t, s[i].deposit)
  }

  lemma {:induction false} ListProtocol(bc: Chain, height: nat, m: nat, h: Hash, d: nat, after: seq<Event>)
    requires ProtocolChain(bc) && h in bc.lists && ProtocolEvents(bc.genesisToken, after)
    ensures ProtocolEvents(bc.genesisToken, ListThen(height, m, bc.lists[h], d, after))
    decreases |bc.lists[h]| - d
  {
    hide ProtocolDeposit;
    if d < |bc.lists[h]| {
      ListProtocol(bc, height, m, h, d + 1, after);
    }
  }

  lemma {:induction false} HeadersProtocol(bc: Chain, rb: RootBlock, m: nat, after: seq<Event>)
    requires ProtocolChain(bc) && m >= 1 && ProtocolEvents(bc.genesisToken, after)
    ensures ProtocolEvents(bc.genesisToken, HeadersThen(bc, rb, m, after))
    decreases |rb.body.headers| - m
  {
    hide ProtocolDeposit, ProtocolChain, ListThen;
    if m <= |rb.body.headers| {
      HeadersProtocol(bc, rb, m + 1, after);
      var h := rb.body.headers[m - 1].hash;
      if h in bc.lists {
        ListProtocol(bc, rb.number, m, h, 0, HeadersThen(bc, rb, m + 1, after));
      }
    }
  }

  lemma {:induction false} StreamProtocol(bc: Chain, path: seq<RootBlock>)
    requires ProtocolChain(bc)
    ensures ProtocolEvents(bc.genesisToken, Stream(bc, path))
  {
    if path != [] {
      StreamProtocol(bc, path[1..]);
      HeadersProtocol(bc, path[0], 1, Stream(bc, path[1..]));
      assert ProtocolDeposit(bc.genesisToken, CoinbaseDeposit(bc, path[0]));
      hide ProtocolDeposit, ProtocolChain, HeadersThen, CoinbaseDeposit;
    }
  }

  /** Everything ahead of a cursor was made by a shard or a root block. */
  lemma RestProtocol(bc: Chain, path: seq<RootBlock>, base: nat, ci: CursorInfo)
    requires ProtocolChain(bc) && ValidInfo(bc, path, base, ci)
    ensures ProtocolEvents(bc.genesisToken, Rest(bc, path, base, ci))
  {
    var k := ci.rootBlockHeight - base;
    if k < |path| {
      var rb, m, later := path[k], ci.minorBlockIndex, Stream(bc, path[k + 1..]);
      StreamProtocol(bc, path[k + 1..]);
      HeadersProtocol(bc, rb, m + 1, later);
      assert ProtocolDeposit(bc.genesisToken, CoinbaseDeposit(bc, rb));
      if m > 0 {
        ListProtocol(bc, rb.number, m, rb.body.headers[m - 1].hash, ci.depositIndex + 1,
                     HeadersThen(bc, rb, m + 1, later));
      }
      hide ProtocolDeposit, ProtocolChain, HeadersThen, CoinbaseDeposit, ListThen, Stream;
    }
  }

  /** A run can be prolonged by the next event. */
  lemma ExtendRun(c: Chain, base: nat, from: CursorInfo, run: BlockRun, e: Event)
    requires IsRun(c, base, from, run) && e.Yield? && ValidInfo(c, run.path, base, e.at)
    requires Rest(c, run.path, base, run.info) == [e] + Rest(c, run.path, base, e.at)
    ensures IsRun(c, base, from, BlockRun(run.path, run.delivered + [e], e.at))
    ensures DepositsOf(run.delivered + [e]) == DepositsOf(run.delivered) + [e.deposit]
  {
    hide Rest, ValidInfo;
    assert (run.delivered + [e])[..|run.delivered|] == run.delivered;
    assert run.delivered + ([e] + Rest(c, run.path, base, e.at)) == run.delivered + [e] + Rest(c, run.path, base, e.at);
  }

  lemma EndRun(c: Chain, base: nat, from: CursorInfo, run: BlockRun, end: CursorInfo)
    requires IsRun(c, base, from, run) && ValidInfo(c, run.path, base, end)
    requires Rest(c, run.path, base, run.info) == [] == Rest(c, run.path, base, end)
    ensures IsRun(c, base, from, BlockRun(run.path, run.delivered, end))
  {
  }

  datatype Step = Finished | Faulted | Applied(deposit: Deposit)

  /** The cursor cannot get past the event: it is unreadable, or its deposit cannot be applied. */
  predicate Blocks(vm: Vm, evmEnabled: bool, s: Scene, e: Event) {
    e.Fault? || !Deliverable(vm, evmEnabled, s, e.deposit)
  }

  /** A deposit that the cursor yields takes the shard from one moment to another. */
  predicate Arrives(vm: Vm, env: Env, ddosFixRootHeight: nat, m: Moment, e: Event, next: Moment)
    requires env.cfg.localFeeRate.den > 0
  {
    && !Blocks(vm, env.evmEnabled, m.scene, e)
    && next == AfterDeposit(vm, env, m, e.deposit, e.at.rootBlockHeight >= ddosFixRootHeight)
  }

  /** The moments before, between and after the deposits delivered to a block. */
  ghost predicate Arrivals(vm: Vm, env: Env, ddosFixRootHeight: nat, delivered: seq<Event>, ms: seq<Moment>)
    requires env.cfg.localFeeRate.den > 0
  {
    && |ms| == |delivered| + 1
    && forall i {:trigger delivered[i]} ::
         0 <= i < |delivered| ==> Arrives(vm, env, ddosFixRootHeight, ms[i], delivered[i], ms[i + 1])
  }

  function Last<T>(s: seq<T>): T
    requires s != []
  {
    s[|s| - 1]
  }

  lemma ArriveNext(vm: Vm, env: Env, ddosFixRootHeight: nat, delivered: seq<Event>, ms: seq<Moment>, e: Event, next: Moment)
    requires env.cfg.localFeeRate.den > 0 && Arrivals(vm, env, ddosFixRootHeight, delivered, ms)
    requires Arrives(vm, env, ddosFixRootHeight, Last(ms), e, next)
    ensures Arrivals(vm, env, ddosFixRootHeight, delivered + [e], ms + [next])
  {
    hide Arrives;
    var es, ns := delivered + [e], ms + [next];
    forall i | 0 <= i < |es|
      ensures Arrives(vm, env, ddosFixRootHeight, ns[i], es[i], ns[i + 1])
    {
      if i < |delivered| {
        assert es[i] == delivered[i];
      }
    }
  }

  /** The cross-shard gas limit was not reached before the last deposit. */
  ghost predicate BelowLimit(ms: seq<Moment>, limit: nat) {
    forall i :: 0 < i < |ms| - 1 ==> ms[i].gasUsed < limit
  }

  lemma BelowNext(ms: seq<Moment>, limit: nat, next: Moment)
    requires BelowLimit(ms, limit) && ms != [] && (|ms| > 1 ==> Last(ms).gasUsed < limit)
    ensures BelowLimit(ms + [next], limit)
  {
  }

  /** Takes the next deposit from the cursor and applies it. */
  method ApplyNext(cursor: XShardTxCursor, state: StateDB, vm: Vm, ddosFixRootHeight: nat) returns (r: Step)
    requires cursor.Valid() && state.Valid() && VmOk(vm)
    requires cursor.bc.genesisToken == state.cfg.genesisToken && ProtocolChain(cursor.bc)
    modifies cursor
    modifies state`balances, state`nonces, state`world, state`refundCounter, state`gasUsed, state`blockFee
    modifies state`xShardList, state`withheld, state`stranded, state`overRefunded, state`gasCharged, state`gasRefunded
    ensures r.Faulted? <==> old(cursor.Ahead()) != [] && Blocks(vm, state.EvmEnabled(), old(SceneOf(state)), old(cursor.Ahead())[0])
    ensures !r.Faulted? ==> cursor.Valid() && state.Valid() && state.xShardList == old(state.xShardList)
    ensures !r.Faulted? && state.EvmEnabled() ==> state.stranded == old(state.stranded)
    ensures r.Finished? || (r.Applied? && r.deposit.refundRate <= 100) ==> state.overRefunded == old(state.overRefunded)
    ensures r.Finished? ==> old(cursor.Ahead()) == [] && cursor.Ahead() == []
    ensures r.Finished? ==> state.gasUsed == old(state.gasUsed) && forall u :: state.Worth(u) == old(state.Worth(u))
    ensures r.Applied? ==> old(cursor.Ahead()) == [Yield(cursor.Info(), r.deposit)] + cursor.Ahead()
    ensures r.Applied? ==> Arrives(vm, EnvOf(state), ddosFixRootHeight, old(MomentOf(state, 0)),
                                   Yield(cursor.Info(), r.deposit), MomentOf(state, 0))
    ensures r.Finished? ==> MomentOf(state, 0) == old(MomentOf(state, 0))
    ensures r.Applied? ==> state.gasUsed <= old(state.gasUsed) + r.deposit.gasRemained + GTXX_SHARD_COST
    ensures r.Applied? ==> forall u :: state.Worth(u) == old(state.Worth(u)) + Carried(r.deposit, u)
  {
    hide VmOk, Total, Money, Solvent, ProtocolChain, ProtocolDeposit, AfterDeposit, Deliverable, XShardTxCursor.Valid,
      StateDB.Worth, Carried;
    var next, check := Fetch(cursor, ddosFixRootHeight);
    if next == Error {
      return Faulted;
    }
    if next == Eof {
      return Finished;
    }
    var ok := ApplyCrossShardDeposit(state, vm, next.deposit, check);
    return if ok then Applied(next.deposit) else Faulted;
  }

  /** Takes the next deposit from the cursor, and whether its root block is past the fix of the deposits' gas. */
  method Fetch(cursor: XShardTxCursor, ddosFixRootHeight: nat) returns (next: NextTx, check: bool)
    requires cursor.Valid() && ProtocolChain(cursor.bc)
    modifies cursor
    ensures next == Error <==> old(cursor.Ahead()) != [] && old(cursor.Ahead())[0].Fault?
    ensures next == Eof ==> cursor.Valid() && old(cursor.Ahead()) == [] && cursor.Ahead() == []
    ensures next.Tx? ==>
              && cursor.Valid() && old(cursor.Ahead()) == [Yield(cursor.Info(), next.deposit)] + cursor.Ahead()
              && ProtocolDeposit(cursor.bc.genesisToken, next.deposit)
              && (check <==> cursor.Info().rootBlockHeight >= ddosFixRootHeight)
  {
    hide Path, Tree, Rest, ValidInfo, ProtocolChain, ProtocolDeposit, PaysReward;
    ghost var ahead := cursor.Ahead();
    RestProtocol(cursor.bc, cursor.path, cursor.bc.genesisRootHeight, cursor.Info());
    next := cursor.GetNextTx();
    check := cursor.rBlock.Some? && cursor.rBlock.value.number >= ddosFixRootHeight;
    if next.Tx? {
      assert ahead[0] == Yield(cursor.Info(), next.deposit);
    }
  }

  ghost predicate FairDeposits(s: seq<Deposit>) {
    forall i :: 0 <= i < |s| ==> s[i].refundRate <= 100
  }

  lemma FairAppend(s: seq<Deposit>, d: Deposit)
    ensures FairDeposits(s + [d]) <==> FairDeposits(s) && d.refundRate <= 100
  {
    assert (s + [d])[|s|] == d && forall i :: 0 <= i < |s| ==> (s + [d])[i] == s[i];
  }

  /** All deposits but the last were applied below the limit. */
  ghost predicate WithinLimit(gasUsed: nat, limit: nat, applied: seq<Deposit>, gasBefore: nat) {
    if applied == [] then gasUsed == gasBefore
    else gasUsed < limit + applied[|applied| - 1].gasRemained + GTXX_SHARD_COST
         || gasUsed <= gasBefore + applied[|applied| - 1].gasRemained + GTXX_SHARD_COST
  }

  lemma LimitNext(gasUsed: nat, gasUsed': nat, limit: nat, applied: seq<Deposit>, d: Deposit, gasBefore: nat)
    requires WithinLimit(gasUsed, limit, applied, gasBefore) && (applied != [] ==> gasUsed < limit)
    requires gasUsed' <= gasUsed + d.gasRemained + GTXX_SHARD_COST
    ensures WithinLimit(gasUsed', limit, applied + [d], gasBefore)
  {
  }

  /** The deposits applied so far are a run of the cursor, each applied on what the one before left. */
  ghost predicate Consumed(vm: Vm, env: Env, ddosFixRootHeight: nat, bc: Chain, info: CursorInfo, limit: nat, run: BlockRun,
                           txList: seq<Deposit>, arrived: seq<Moment>)
    requires env.cfg.localFeeRate.den > 0
  {
    && IsRun(bc, bc.genesisRootHeight, info, run) && txList == DepositsOf(run.delivered)
    && Arrivals(vm, env, ddosFixRootHeight, run.delivered, arrived) && |txList| == |run.delivered|
    && BelowLimit(arrived, limit) && WithinLimit(Last(arrived).gasUsed, limit, txList, arrived[0].gasUsed)
  }

  lemma ConsumedNone(vm: Vm, env: Env, ddosFixRootHeight: nat, bc: Chain, info: CursorInfo, limit: nat, path: seq<RootBlock>,
                     start: Moment)
    requires env.cfg.localFeeRate.den > 0 && ValidInfo(bc, path, bc.genesisRootHeight, info)
    ensures Consumed(vm, env, ddosFixRootHeight, bc, info, limit, BlockRun(path, [], info), [], [start])
  {
    hide Rest, ValidInfo, Arrives;
  }

  lemma ConsumeNext(vm: Vm, env: Env, ddosFixRootHeight: nat, bc: Chain, info: CursorInfo, limit: nat, run: BlockRun,
                    txList: seq<Deposit>, arrived: seq<Moment>, e: Event, next: Moment)
    requires env.cfg.localFeeRate.den > 0 && Consumed(vm, env, ddosFixRootHeight, bc, info, limit, run, txList, arrived)
    requires txList != [] ==> Last(arrived).gasUsed < limit
    requires e.Yield? && ValidInfo(bc, run.path, bc.genesisRootHeight, e.at)
    requires Rest(bc, run.path, bc.genesisRootHeight, run.info) == [e] + Rest(bc, run.path, bc.genesisRootHeight, e.at)
    requires Arrives(vm, env, ddosFixRootHeight, Last(arrived), e, next)
    requires next.gasUsed <= Last(arrived).gasUsed + e.deposit.gasRemained + GTXX_SHARD_COST
    ensures Consumed(vm, env, ddosFixRootHeight, bc, info, limit, BlockRun(run.path, run.delivered + [e], e.at),
                     txList + [e.deposit], arrived + [next])
  {
    hide IsRun, DepositsOf, Arrivals, Arrives, BelowLimit, WithinLimit, Rest, ValidInfo;
    assert |arrived| == |run.delivered| + 1 by {
      assert Arrivals(vm, env, ddosFixRootHeight, run.delivered, arrived);
      ArrivalsCount(vm, env, ddosFixRootHeight, run.delivered, arrived);
    }
    ExtendRun(bc, bc.genesisRootHeight, info, run, e);
    ArriveNext(vm, env, ddosFixRootHeight, run.delivered, arrived, e, next);
    BelowNext(arrived, limit, next);
    LimitNext(Last(arrived).gasUsed, next.gasUsed, limit, txList, e.deposit, arrived[0].gasUsed);
  }

  lemma ArrivalsCount(vm: Vm, env: Env, ddosFixRootHeight: nat, delivered: seq<Event>, ms: seq<Moment>)
    requires env.cfg.localFeeRate.den > 0 && Arrivals(vm, env, ddosFixRootHeight, delivered, ms)
    ensures |ms| == |delivered| + 1
  {
  }

  lemma ConsumeEnd(vm: Vm, env: Env, ddosFixRootHeight: nat, bc: Chain, info: CursorInfo, limit: nat, run: BlockRun,
                   txList: seq<Deposit>, arrived: seq<Moment>, end: CursorInfo)
    requires env.cfg.localFeeRate.den > 0 && Consumed(vm, env, ddosFixRootHeight, bc, info, limit, run, txList, arrived)
    requires ValidInfo(bc, run.path, bc.genesisRootHeight, end)
    requires Rest(bc, run.path, bc.genesisRootHeight, run.info) == [] == Rest(bc, run.path, bc.genesisRootHeight, end)
    ensures Consumed(vm, env, ddosFixRootHeight, bc, info, limit, BlockRun(run.path, run.delivered, end), txList, arrived)
  {
    hide DepositsOf, Arrivals, BelowLimit, WithinLimit, Rest, ValidInfo;
    EndRun(bc, bc.genesisRootHeight, info, run, end);
  }

  lemma ConsumedFacts(vm: Vm, env: Env, ddosFixRootHeight: nat, bc: Chain, info: CursorInfo, limit: nat, run: BlockRun,
                      txList: seq<Deposit>, arrived: seq<Moment>)
    requires env.cfg.localFeeRate.den > 0 && Consumed(vm, env, ddosFixRootHeight, bc, info, limit, run, txList, arrived)
    ensures IsRun(bc, bc.genesisRootHeight, info, run) && txList == DepositsOf(run.delivered) && arrived != []
    ensures Arrivals(vm, env, ddosFixRootHeight, run.delivered, arrived) && BelowLimit(arrived, limit)
    ensures WithinLimit(Last(arrived).gasUsed, limit, txList, arrived[0].gasUsed)
    ensures |arrived| == |txList| + 1 && |txList| == |run.delivered|
  {
    hide DepositsOf, BelowLimit, WithinLimit, IsRun;
  }

  /**
   * Runs the cursor until the end of the root chain or until the cross-shard gas limit is reached.
   * Whatever stops it, the deposits applied and the position saved form a run of the cursor, and
   * everything they carried has arrived; the gas used exceeds the limit by less than one deposit.
   */
  method RunCrossShardTxWithCursor(state: StateDB, vm: Vm, bc: Chain, prevRoot: Hash, info: CursorInfo,
                                   xShardGasLimit: nat, ddosFixRootHeight: nat)
    returns (ok: bool, txList: seq<Deposit>, saved: CursorInfo, ghost run: BlockRun, ghost arrived: seq<Moment>)
    requires state.Valid() && VmOk(vm) && bc.genesisToken == state.cfg.genesisToken && ProtocolChain(bc)
    requires Tree(bc.roots, bc.genesisRootHeight) && prevRoot in bc.roots
    requires ValidInfo(bc, Path(bc.roots, bc.genesisRootHeight, prevRoot), bc.genesisRootHeight, info)
    modifies state`balances, state`nonces, state`world, state`refundCounter, state`gasUsed, state`blockFee
    modifies state`xShardList, state`withheld, state`stranded, state`overRefunded, state`gasCharged, state`gasRefunded
    ensures run.path == Path(bc.roots, bc.genesisRootHeight, prevRoot) && IsRun(bc, bc.genesisRootHeight, info, run)
    ensures Arrivals(vm, EnvOf(state), ddosFixRootHeight, run.delivered, arrived) && arrived[0] == old(MomentOf(state, 0))
    ensures !ok ==> var ahead := Rest(bc, run.path, bc.genesisRootHeight, run.info);
                    && ahead != [] && Blocks(vm, state.EvmEnabled(), Last(arrived).scene, ahead[0])
                    && (|arrived| > 1 ==> Last(arrived).gasUsed < xShardGasLimit)
    ensures arrived != [] && BelowLimit(arrived, xShardGasLimit)
    ensures ok ==> MomentOf(state, 0) == Last(arrived)
    ensures ok ==> state.Valid() && state.xShardList == old(state.xShardList)
    ensures ok && state.EvmEnabled() ==> state.stranded == old(state.stranded)
    ensures ok && FairDeposits(txList) ==> state.overRefunded == old(state.overRefunded)
    ensures ok ==> run.info == saved && txList == DepositsOf(run.delivered)
    ensures ok ==> Rest(bc, run.path, bc.genesisRootHeight, saved) == [] || state.gasUsed >= xShardGasLimit
    ensures ok ==> WithinLimit(state.gasUsed, xShardGasLimit, txList, old(state.gasUsed))
    ensures ok && Rest(bc, run.path, bc.genesisRootHeight, info) != [] ==> txList != [] && run.delivered != []
    ensures ok ==> forall u :: state.Worth(u) == old(state.Worth(u)) + Money(txList, u)
  {
    assert forall u :: Money([], u) == 0;
    hide Path, Tree, Rest, ValidInfo, VmOk, Solvent, Total, ProtocolChain, StateDB.Worth, IsRun, DepositsOf, Money,
         Carried, FairDeposits, WithinLimit, Blocks, Arrives, Arrivals, BelowLimit, MomentOf, Consumed, XShardTxCursor.OnPath,
         XShardTxCursor.Settled;
    var cursor := new XShardTxCursor(bc, prevRoot, info);
    ghost var start, env := MomentOf(state, 0), EnvOf(state);
    ok, txList, saved, arrived := true, [], info, [start];
    run := BlockRun(Path(bc.roots, bc.genesisRootHeight, prevRoot), [], info);
    ghost var path, ahead := run.path, cursor.Ahead();
    ConsumedNone(vm, env, ddosFixRootHeight, bc, info, xShardGasLimit, path, start);
    var more := true;
    while more
      invariant cursor.Valid() && cursor.bc == bc && cursor.path == path
      invariant state.Valid() && state.xShardList == old(state.xShardList)
      invariant state.EvmEnabled() ==> state.stranded == old(state.stranded)
      invariant FairDeposits(txList) ==> state.overRefunded == old(state.overRefunded)
      invariant run.path == path && cursor.Info() == run.info
      invariant Consumed(vm, env, ddosFixRootHeight, bc, info, xShardGasLimit, run, txList, arrived)
      invariant arrived != [] && arrived[0] == start && Last(arrived) == MomentOf(state, 0)
      invariant !more ==> cursor.Ahead() == [] || state.gasUsed >= xShardGasLimit
      invariant txList == [] ==> if more then cursor.Ahead() == ahead else ahead == []
      invariant more && txList != [] ==> state.gasUsed < xShardGasLimit
      invariant forall u :: state.Worth(u) == old(state.Worth(u)) + Money(txList, u)
      decreases more, |cursor.Ahead()|
    {
      var step := ApplyNext(cursor, state, vm, ddosFixRootHeight);
      if step.Faulted? {
        ConsumedFacts(vm, env, ddosFixRootHeight, bc, info, xShardGasLimit, run, txList, arrived);
        ok := false;
        return;
      }
      if step.Finished? {
        ConsumeEnd(vm, env, ddosFixRootHeight, bc, info, xShardGasLimit, run, txList, arrived, cursor.Info());
        run := BlockRun(path, run.delivered, cursor.Info());
        more := false;
      } else {
        ghost var e, now := Yield(cursor.Info(), step.deposit), MomentOf(state, 0);
        ConsumeNext(vm, env, ddosFixRootHeight, bc, info, xShardGasLimit, run, txList, arrived, e, now);
        MoneyAppend(txList, step.deposit);
        FairAppend(txList, step.deposit);
        run, arrived := BlockRun(path, run.delivered + [e], e.at), arrived + [now];
        txList := txList + [step.deposit];
        if state.gasUsed >= xShardGasLimit {
          more := false;
        }
      }
    }
    ConsumedFacts(vm, env, ddosFixRootHeight, bc, info, xShardGasLimit, run, txList, arrived);
    saved := cursor.Info();
  }

  // ---------- whole blocks ----------

  function Subsidy(reward: seq<(Token, nat)>, t: Token): nat {
    if reward == [] then 0
    else Subsidy(reward[..|reward| - 1], t) + if reward[|reward| - 1].0 == t then reward[|reward| - 1].1 else 0
  }

  /** Balances after the miner has been credited with every token of a reward. */
  ghost function Rewarded(b: Balances, miner: Recipient, reward: seq<(Token, nat)>): Balances {
    if reward == [] then b
    else
      var last := reward[|reward| - 1];
      Plus(Rewarded(b, miner, reward[..|reward| - 1]), miner, last.1, last.0)
  }

  /** Credits the block reward, one token after another. */
  method AddReward(state: StateDB, reward: seq<(Token, nat)>)
    requires state.Valid()
    modifies state`balances
    ensures state.Valid() && state.balances == Rewarded(old(state.balances), state.blockCoinbase, reward)
    ensures forall u :: state.Worth(u) == old(state.Worth(u)) + Subsidy(reward, u)
  {
    for i := 0 to |reward|
      invariant state.Valid() && state.balances == Rewarded(old(state.balances), state.blockCoinbase, reward[..i])
      invariant forall u :: state.Worth(u) == old(state.Worth(u)) + Subsidy(reward[..i], u)
    {
      assert reward[..i + 1][..i] == reward[..i];
      hide Total, Money, Solvent, Plus;
      state.AddBalance(state.blockCoinbase, reward[i].1, reward[i].0);
    }
    assert reward[..|reward|] == reward;
  }

  /** The transaction is not valid at this moment, or cannot be applied. */
  predicate Fails(vm: Vm, contract: Recipient, validate: (Moment, Tx) -> bool, m: Moment, tx: Tx) {
    !validate(m, tx) || !Applies(vm, contract, m.scene, tx, m.gp)
  }

  /** A transaction takes the shard from one moment to another and uses up one nonce of its sender. */
  predicate TxApplied(vm: Vm, env: Env, validate: (Moment, Tx) -> bool, m: Moment, tx: Tx, next: Moment)
    requires env.cfg.localFeeRate.den > 0
  {
    && !Fails(vm, env.cfg.nativeTokenContract, validate, m, tx) && next == AfterTx(vm, env, m, tx)
    && NonceIn(next.scene.nonces, tx.from) == NonceIn(m.scene.nonces, tx.from) + 1
  }

  /** The moments before, between and after the transactions of a block. */
  ghost predicate Chained(vm: Vm, env: Env, validate: (Moment, Tx) -> bool, txs: seq<Tx>, ms: seq<Moment>)
    requires env.cfg.localFeeRate.den > 0
  {
    && |ms| == |txs| + 1
    && forall i {:trigger txs[i]} :: 0 <= i < |txs| ==> TxApplied(vm, env, validate, ms[i], txs[i], ms[i + 1])
  }

  lemma ChainNext(vm: Vm, env: Env, validate: (Moment, Tx) -> bool, txs: seq<Tx>, ms: seq<Moment>, tx: Tx, next: Moment)
    requires env.cfg.localFeeRate.den > 0 && Chained(vm, env, validate, txs, ms)
    requires TxApplied(vm, env, validate, Last(ms), tx, next)
    ensures Chained(vm, env, validate, txs + [tx], ms + [next])
  {
    hide TxApplied;
    var ts, ns := txs + [tx], ms + [next];
    forall i | 0 <= i < |ts|
      ensures TxApplied(vm, env, validate, ns[i], ts[i], ns[i + 1])
    {
      if i < |txs| {
        assert ts[i] == txs[i];
      }
    }
  }

  /** Validates a transaction and applies it. */
  method ApplyValid(state: StateDB, vm: Vm, gp: nat, tx: Tx, validate: (Moment, Tx) -> bool) returns (ok: bool, gpAfter: nat)
    requires state.Valid() && VmOk(vm) && SmallTx(tx)
    modifies state`balances, state`nonces, state`world, state`refundCounter, state`gasUsed, state`blockFee
    modifies state`xShardList, state`withheld, state`overRefunded, state`gasCharged, state`gasRefunded
    ensures state.Valid()
    ensures ok <==> !Fails(vm, state.cfg.nativeTokenContract, validate, old(MomentOf(state, gp)), tx)
    ensures ok ==> TxApplied(vm, EnvOf(state), validate, old(MomentOf(state, gp)), tx, MomentOf(state, gpAfter))
    ensures ok ==> AllProtocol(state.cfg.genesisToken, old(state.xShardList))
                   ==> AllProtocol(state.cfg.genesisToken, state.xShardList)
    ensures FairRates(vm) ==> state.overRefunded == old(state.overRefunded)
    ensures ok ==> forall u :: state.Worth(u) == old(state.Worth(u))
  {
    hide VmOk, Total, Money, Solvent, StateDB.Worth, AllProtocol, FairRates, Applies, Wasted, AfterTx;
    if !validate(MomentOf(state, gp), tx) {
      return false, gp;
    }
    var r;
    r, gpAfter := ApplyTransaction(state, vm, gp, tx);
    ok := r.TxDone?;
  }

  /** Applies the transactions of a block in order, each on what the one before left, up to one that fails. */
  method ApplyAll(state: StateDB, vm: Vm, txs: seq<Tx>, gasLimit: nat, validate: (Moment, Tx) -> bool)
    returns (ok: bool, ghost moments: seq<Moment>)
    requires state.Valid() && VmOk(vm) && forall tx :: tx in txs ==> SmallTx(tx)
    modifies state`balances, state`nonces, state`world, state`refundCounter, state`gasUsed, state`blockFee
    modifies state`xShardList, state`withheld, state`overRefunded, state`gasCharged, state`gasRefunded
    ensures state.Valid() && 1 <= |moments| <= |txs| + 1 && moments[0] == old(MomentOf(state, gasLimit))
    ensures Chained(vm, EnvOf(state), validate, txs[..|moments| - 1], moments)
    ensures if |moments| == |txs| + 1 then ok && exists gp :: Last(moments) == MomentOf(state, gp)
            else !ok && Fails(vm, state.cfg.nativeTokenContract, validate, Last(moments), txs[|moments| - 1])
    ensures ok && AllProtocol(state.cfg.genesisToken, old(state.xShardList)) ==>
              AllProtocol(state.cfg.genesisToken, state.xShardList)
    ensures ok && FairRates(vm) ==> state.overRefunded == old(state.overRefunded)
    ensures ok ==> forall u :: state.Worth(u) == old(state.Worth(u))
  {
    var gp := gasLimit;
    ghost var now := MomentOf(state, gp);
    moments := [now];
    assert Chained(vm, EnvOf(state), validate, txs[..0], moments);
    hide VmOk, Total, Money, Solvent, StateDB.Worth, AllProtocol, FairRates, Fails, TxApplied, Chained, MomentOf;
    for i := 0 to |txs|
      invariant state.Valid() && |moments| == i + 1 && moments[0] == old(MomentOf(state, gasLimit))
      invariant Last(moments) == MomentOf(state, gp) && Chained(vm, EnvOf(state), validate, txs[..i], moments)
      invariant AllProtocol(state.cfg.genesisToken, old(state.xShardList)) ==>
                  AllProtocol(state.cfg.genesisToken, state.xShardList)
      invariant FairRates(vm) ==> state.overRefunded == old(state.overRefunded)
      invariant forall u :: state.Worth(u) == old(state.Worth(u))
    {
      ok, gp := ApplyValid(state, vm, gp, txs[i], validate);
      if !ok {
        return;
      }
      now := MomentOf(state, gp);
      ChainNext(vm, EnvOf(state), validate, txs[..i], moments, txs[i], now);
      assert txs[..i + 1] == txs[..i] + [txs[i]];
      moments := moments + [now];
    }
    ok := true;
  }

  /**
   * Applies all transactions of a block in order, each on what the one before left, then its reward; any failing
   * transaction fails the block.
   */
  method Process(state: StateDB, vm: Vm, txs: seq<Tx>, gasLimit: nat, reward: seq<(Token, nat)>,
                 validate: (Moment, Tx) -> bool) returns (ok: bool, ghost moments: seq<Moment>)
    requires state.Valid() && VmOk(vm) && forall tx :: tx in txs ==> SmallTx(tx)
    modifies state`balances, state`nonces, state`world, state`refundCounter, state`gasUsed, state`blockFee
    modifies state`xShardList, state`withheld, state`overRefunded, state`gasCharged, state`gasRefunded, state`gasLimit
    ensures state.gasLimit == gasLimit && 1 <= |moments| <= |txs| + 1 && moments[0] == old(MomentOf(state, gasLimit))
    ensures Chained(vm, EnvOf(state), validate, txs[..|moments| - 1], moments)
    ensures ok <==> |moments| == |txs| + 1
    ensures !ok ==> Fails(vm, state.cfg.nativeTokenContract, validate, Last(moments), txs[|moments| - 1])
    ensures ok ==> state.nonces == Last(moments).scene.nonces && state.world == Last(moments).scene.world
    ensures ok ==> state.balances == Rewarded(Last(moments).scene.balances, state.blockCoinbase, reward)
    ensures ok ==> state.xShardList == Last(moments).sent && state.blockFee == Last(moments).fee
    ensures ok ==> state.Valid()
    ensures ok && AllProtocol(state.cfg.genesisToken, old(state.xShardList)) ==>
              AllProtocol(state.cfg.genesisToken, state.xShardList)
    ensures ok && FairRates(vm) ==> state.overRefunded == old(state.overRefunded)
    ensures ok ==> forall u :: state.Worth(u) == old(state.Worth(u)) + Subsidy(reward, u)
  {
    hide VmOk, Total, Money, Solvent, StateDB.Worth, AllProtocol, FairRates, Fails, Chained, Rewarded, Subsidy;
    state.gasLimit := gasLimit;
    ok, moments := ApplyAll(state, vm, txs, gasLimit, validate);
    if ok {
      AddReward(state, reward);
    }
  }

  /** The parts of a minor block that execution reads. */
  datatype MinorBlock = MinorBlock(
    coinbase: Recipient, time: nat, prevRoot: Hash, txs: seq<Tx>, gasLimit: nat, xShardGasLimit: nat,
    reward: seq<(Token, nat)>)

  /** What executing a block gives: the new state of its shard, the deposits applied and sent, the fees
      its miner got, and the position saved. */
  datatype Executed = Executed(
    balances: Balances, nonces: Nonces, world: World, delivered: seq<Deposit>, sent: seq<Deposit>, fee: nat,
    saved: CursorInfo)

  /** Fee tax kept back, reserved gas stranded, and money made by refund rates above 100. */
  datatype Kept = Kept(withheld: nat, stranded: nat, overRefunded: nat)

  /** What is kept of token t besides balances and deposits. */
  function KeptOf(k: Kept, genesisToken: Token, t: Token): int {
    if t == genesisToken then k.withheld + k.stranded - k.overRefunded else 0
  }

  /** Balances before and after a block that delivered, sent and minted. */
  ghost predicate Conserves(genesisToken: Token, before: Balances, after: Balances, delivered: seq<Deposit>,
                            sent: seq<Deposit>, kept: Kept, reward: seq<(Token, nat)>) {
    forall u :: Total(after, u) + Money(sent, u) + KeptOf(kept, genesisToken, u)
                == Total(before, u) + Money(delivered, u) + Subsidy(reward, u)
  }

  /** How far executing a block got: the deposits delivered with the moments around them, then those of its transactions. */
  datatype Trail = Trail(delivered: seq<Event>, arrived: seq<Moment>, applied: seq<Moment>)

  /** The moment a block starts from. */
  function StartOf(cfg: Settings, senderDisallow: map<Recipient, int>, balances: Balances, nonces: Nonces, world: World): Moment {
    Moment(Scene(cfg.genesisToken, senderDisallow, world, balances, nonces, 0), 0, 0, [], 0)
  }

  function BlockEnv(cfg: Settings, block: MinorBlock): Env {
    Env(cfg, block.coinbase, block.time >= cfg.enableEvmTimestamp)
  }

  /** The cursor stops at the end of what is ahead, or after a deposit with which the gas limit is reached. */
  ghost predicate CursorStops(limit: nat, ahead: seq<Event>, delivered: seq<Event>, arrived: seq<Moment>) {
    delivered == ahead || (delivered != [] && arrived != [] && Last(arrived).gasUsed >= limit)
  }

  /** Everything on the trail follows from what came before it; the transactions start where the deposits ended. */
  ghost predicate Traced(vm: Vm, env: Env, validate: (Moment, Tx) -> bool, ddosFixRootHeight: nat, start: Moment,
                         block: MinorBlock, ahead: seq<Event>, t: Trail)
    requires env.cfg.localFeeRate.den > 0
  {
    && Arrivals(vm, env, ddosFixRootHeight, t.delivered, t.arrived) && t.arrived[0] == start && t.delivered <= ahead
    && BelowLimit(t.arrived, block.xShardGasLimit) && |t.applied| <= |block.txs| + 1
    && (t.applied != [] ==>
          && CursorStops(block.xShardGasLimit, ahead, t.delivered, t.arrived)
          && t.applied[0] == Last(t.arrived).(gp := block.gasLimit)
          && Chained(vm, env, validate, block.txs[..|t.applied| - 1], t.applied))
  }

  /** Why a block was refused: at the end of its trail the next event ahead or its next transaction fails. */
  ghost predicate Refused(vm: Vm, env: Env, validate: (Moment, Tx) -> bool, ddosFixRootHeight: nat, start: Moment,
                          block: MinorBlock, ahead: seq<Event>, t: Trail)
    requires env.cfg.localFeeRate.den > 0
  {
    && Traced(vm, env, validate, ddosFixRootHeight, start, block, ahead, t)
    && if t.applied == [] then
         && |t.delivered| < |ahead| && Blocks(vm, env.evmEnabled, Last(t.arrived).scene, ahead[|t.delivered|])
         && (t.delivered != [] ==> Last(t.arrived).gasUsed < block.xShardGasLimit)
       else
         && |t.applied| <= |block.txs|
         && Fails(vm, env.cfg.nativeTokenContract, validate, Last(t.applied), block.txs[|t.applied| - 1])
  }

  lemma RefusedAtEvent(vm: Vm, env: Env, validate: (Moment, Tx) -> bool, ddosFixRootHeight: nat, block: MinorBlock,
                       bc: Chain, info: CursorInfo, run: BlockRun, arrived: seq<Moment>)
    requires env.cfg.localFeeRate.den > 0 && IsRun(bc, bc.genesisRootHeight, info, run)
    requires Arrivals(vm, env, ddosFixRootHeight, run.delivered, arrived) && BelowLimit(arrived, block.xShardGasLimit)
    requires var ahead := Rest(bc, run.path, bc.genesisRootHeight, run.info);
             ahead != [] && Blocks(vm, env.evmEnabled, Last(arrived).scene, ahead[0])
    requires |arrived| > 1 ==> Last(arrived).gasUsed < block.xShardGasLimit
    ensures Refused(vm, env, validate, ddosFixRootHeight, arrived[0], block, Rest(bc, run.path, bc.genesisRootHeight, info),
                    Trail(run.delivered, arrived, []))
  {
    hide Rest, ValidInfo, Blocks, Arrives, BelowLimit;
  }

  /** The deposits went through and some transactions after them. */
  lemma TracedToTxs(vm: Vm, env: Env, validate: (Moment, Tx) -> bool, ddosFixRootHeight: nat, block: MinorBlock,
                    bc: Chain, info: CursorInfo, run: BlockRun, arrived: seq<Moment>, applied: seq<Moment>)
    requires env.cfg.localFeeRate.den > 0 && IsRun(bc, bc.genesisRootHeight, info, run)
    requires Arrivals(vm, env, ddosFixRootHeight, run.delivered, arrived) && BelowLimit(arrived, block.xShardGasLimit)
    requires Rest(bc, run.path, bc.genesisRootHeight, run.info) == [] || Last(arrived).gasUsed >= block.xShardGasLimit
    requires Rest(bc, run.path, bc.genesisRootHeight, info) != [] ==> run.delivered != []
    requires 1 <= |applied| <= |block.txs| + 1 && applied[0] == Last(arrived).(gp := block.gasLimit)
    requires Chained(vm, env, validate, block.txs[..|applied| - 1], applied)
    ensures Traced(vm, env, validate, ddosFixRootHeight, arrived[0], block, Rest(bc, run.path, bc.genesisRootHeight, info),
                   Trail(run.delivered, arrived, applied))
  {
    hide Rest, ValidInfo, Arrives, TxApplied, BelowLimit;
  }

  /** Before activation a block without transactions is refused only for an unreadable header. */
  lemma ReadableNotRefused(vm: Vm, env: Env, validate: (Moment, Tx) -> bool, ddosFixRootHeight: nat, start: Moment,
                           block: MinorBlock, ahead: seq<Event>, t: Trail)
    requires env.cfg.localFeeRate.den > 0 && !env.evmEnabled && block.txs == [] && FaultFree(ahead)
    ensures !Refused(vm, env, validate, ddosFixRootHeight, start, block, ahead, t)
  {
    hide Traced;
    assert |t.delivered| < |ahead| ==> ahead[|t.delivered|] in ahead;
  }

  /** The block went through: its result is the end of its trail and its reward. */
  ghost predicate Completed(vm: Vm, env: Env, validate: (Moment, Tx) -> bool, ddosFixRootHeight: nat, start: Moment,
                            block: MinorBlock, ahead: seq<Event>, t: Trail, r: Executed)
    requires env.cfg.localFeeRate.den > 0
  {
    && Traced(vm, env, validate, ddosFixRootHeight, start, block, ahead, t) && |t.applied| == |block.txs| + 1
    && var last := Last(t.applied);
       && r.balances == Rewarded(last.scene.balances, block.coinbase, block.reward)
       && r.nonces == last.scene.nonces && r.world == last.scene.world && r.sent == last.sent && r.fee == last.fee
       && r.delivered == DepositsOf(t.delivered)
  }

  /** Executes a minor block on its parent's state. */
  method ExecuteOn(state: StateDB, vm: Vm, bc: Chain, block: MinorBlock, info: CursorInfo, validate: (Moment, Tx) -> bool,
                   ddosFixRootHeight: nat)
    returns (ok: bool, delivered: seq<Deposit>, ghost run: BlockRun, saved: CursorInfo, ghost trail: Trail)
    requires state.Valid() && VmOk(vm) && state.timestamp == block.time && state.blockCoinbase == block.coinbase
    requires bc.genesisToken == state.cfg.genesisToken && ProtocolChain(bc) && forall tx :: tx in block.txs ==> SmallTx(tx)
    requires Tree(bc.roots, bc.genesisRootHeight) && block.prevRoot in bc.roots
    requires ValidInfo(bc, Path(bc.roots, bc.genesisRootHeight, block.prevRoot), bc.genesisRootHeight, info)
    modifies state
    ensures !ok ==>
              Refused(vm, BlockEnv(state.cfg, block), validate, ddosFixRootHeight, old(MomentOf(state, 0)), block,
                      Rest(bc, Path(bc.roots, bc.genesisRootHeight, block.prevRoot), bc.genesisRootHeight, info), trail)
    ensures ok ==> state.Valid()
    ensures ok ==>
              Traced(vm, BlockEnv(state.cfg, block), validate, ddosFixRootHeight, old(MomentOf(state, 0)), block,
                     Rest(bc, Path(bc.roots, bc.genesisRootHeight, block.prevRoot), bc.genesisRootHeight, info), trail)
    ensures ok ==> |trail.applied| == |block.txs| + 1 && var last := Last(trail.applied);
                   && state.balances == Rewarded(last.scene.balances, block.coinbase, block.reward)
                   && state.nonces == last.scene.nonces && state.world == last.scene.world
                   && state.xShardList == last.sent && state.blockFee == last.fee
    ensures ok ==> trail.delivered == run.delivered
    ensures ok ==> run.path == Path(bc.roots, bc.genesisRootHeight, block.prevRoot) && run.info == saved
    ensures ok ==> IsRun(bc, bc.genesisRootHeight, info, run) && delivered == DepositsOf(run.delivered)
    ensures ok && Rest(bc, run.path, bc.genesisRootHeight, info) != [] ==> delivered != [] && run.delivered != []
    ensures ok && AllProtocol(state.cfg.genesisToken, old(state.xShardList)) ==>
              AllProtocol(state.cfg.genesisToken, state.xShardList)
    ensures ok && state.EvmEnabled() ==> state.stranded == old(state.stranded)
    ensures ok && FairRates(vm) && FairDeposits(delivered) ==> state.overRefunded == old(state.overRefunded)
    ensures ok ==> forall u :: state.Worth(u) == old(state.Worth(u)) + Money(delivered, u) + Subsidy(block.reward, u)
  {
    hide VmOk, Solvent, Total, Path, Tree, ProtocolChain, ValidInfo, Rest, Blocks, Fails, Arrivals, Chained, BelowLimit,
      Rewarded, Subsidy, WithinLimit, DepositsOf, IsRun, Traced, AllProtocol, FairRates, FairDeposits, WithinRate,
      StateDB.Worth, Money;
    ghost var env := BlockEnv(state.cfg, block);
    ghost var arrived, applied;
    ok, delivered, saved, run, arrived :=
      RunCrossShardTxWithCursor(state, vm, bc, block.prevRoot, info, block.xShardGasLimit, ddosFixRootHeight);
    trail := Trail(run.delivered, arrived, []);
    if !ok {
      RefusedAtEvent(vm, env, validate, ddosFixRootHeight, block, bc, info, run, arrived);
      return;
    }
    // No effect on the block: Process sets the gas limit again.
    if state.gasUsed < block.xShardGasLimit {
      state.gasLimit := state.gasLimit - (block.xShardGasLimit - state.gasUsed);
    }
    ok, applied := Process(state, vm, block.txs, block.gasLimit, block.reward, validate);
    trail := Trail(run.delivered, arrived, applied);
    TracedToTxs(vm, env, validate, ddosFixRootHeight, block, bc, info, run, arrived, applied);
    assert trail.applied != [];
  }

  /**
   * A new state database on its parent's state executes a minor block: the deposits the cursor yields until the cross-shard gas limit is
   * reached, then its transactions, then its reward, each on what came before. For every token, balances after,
   * deposits sent and tax kept back make up exactly the balances before, the deposits delivered and the reward.
   */
  method RunBlock(cfg: Settings, vm: Vm, bc: Chain, block: MinorBlock, info: CursorInfo,
                  balances: Balances, nonces: Nonces, world: World,
                  senderDisallow: map<Recipient, int>, validate: (Moment, Tx) -> bool, ddosFixRootHeight: nat)
    returns (r: Option<Executed>, ghost run: BlockRun, ghost kept: Kept, ghost trail: Trail)
    requires Solvent(balances) && ProperRate(cfg.localFeeRate) && VmOk(vm)
    requires bc.genesisToken == cfg.genesisToken && ProtocolChain(bc) && forall tx :: tx in block.txs ==> SmallTx(tx)
    requires Tree(bc.roots, bc.genesisRootHeight) && block.prevRoot in bc.roots
    requires ValidInfo(bc, Path(bc.roots, bc.genesisRootHeight, block.prevRoot), bc.genesisRootHeight, info)
    ensures r.None? ==>
              Refused(vm, BlockEnv(cfg, block), validate, ddosFixRootHeight,
                      StartOf(cfg, senderDisallow, balances, nonces, world), block,
                      Rest(bc, Path(bc.roots, bc.genesisRootHeight, block.prevRoot), bc.genesisRootHeight, info), trail)
    ensures r.Some? ==>
              Completed(vm, BlockEnv(cfg, block), validate, ddosFixRootHeight,
                        StartOf(cfg, senderDisallow, balances, nonces, world), block,
                        Rest(bc, Path(bc.roots, bc.genesisRootHeight, block.prevRoot), bc.genesisRootHeight, info), trail,
                        r.value)
    ensures r.Some? ==> trail.delivered == run.delivered
    ensures r.Some? ==> Solvent(r.value.balances)
    ensures r.Some? ==> run.path == Path(bc.roots, bc.genesisRootHeight, block.prevRoot) && run.info == r.value.saved
    ensures r.Some? ==> IsRun(bc, bc.genesisRootHeight, info, run) && r.value.delivered == DepositsOf(run.delivered)
    ensures r.Some? && Rest(bc, run.path, bc.genesisRootHeight, info) != [] ==> r.value.delivered != [] && run.delivered != []
    ensures r.Some? ==>
              Conserves(cfg.genesisToken, balances, r.value.balances, r.value.delivered, r.value.sent, kept, block.reward)
    ensures r.Some? ==> AllProtocol(cfg.genesisToken, r.value.sent)
    ensures r.Some? ==> WithinRate(r.value.fee, kept.withheld, cfg.localFeeRate)
    ensures r.Some? && block.time >= cfg.enableEvmTimestamp ==> kept.stranded == 0
    ensures r.Some? && FairRates(vm) && FairDeposits(r.value.delivered) ==> kept.overRefunded == 0
  {
    var state := new StateDB(cfg, block.time, block.coinbase, senderDisallow, balances, nonces, world, block.gasLimit);
    assert AllProtocol(cfg.genesisToken, []) && forall u :: Money([], u) == 0;
    hide VmOk, Solvent, Total, Path, Tree, ProtocolChain, ValidInfo, Rest, Rewarded, Subsidy, DepositsOf, IsRun,
      Traced, Refused, AllProtocol, FairRates, FairDeposits, Money;
    var ok, delivered, saved;
    ok, delivered, run, saved, trail := ExecuteOn(state, vm, bc, block, info, validate, ddosFixRootHeight);
    kept := Kept(state.withheld, state.stranded, state.overRefunded);
    if ok {
      r := Some(Executed(state.balances, state.nonces, state.world, delivered, state.xShardList, state.blockFee, saved));
    } else {
      r := None;
    }
  }
}
