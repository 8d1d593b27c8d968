/** Applying one message: gas purchase, execution, refund, fee, and cross-shard deposits. */
module Transition {
  import opened BlockTree
  import opened ChainTypes
  import opened Ledger

  const MAX_UINT64: nat := 0xFFFF_FFFF_FFFF_FFFF
  const TX_GAS: nat := 21000
  const TX_GAS_CONTRACT_CREATION: nat := 53000
  const TX_DATA_NON_ZERO_GAS: nat := 68
  const TX_DATA_ZERO_GAS: nat := 4

  datatype Message = Message(
    from: Recipient, to: Option<Recipient>, nonce: nat, checkNonce: bool, value: nat, gas: nat, gasPrice: nat,
    data: seq<Byte>, isCrossShard: bool, toKey: bv32, txHash: Hash, transferToken: Token, gasToken: Token,
    refundRate: nat)

  // ---------- the virtual machine, as a relation ----------

  datatype VmErr = NoErr | InsufficientBalance | PoSWSenderNotAllowed | OtherErr

  /** A call or a creation; for an incoming deposit the sender's nonce was used up on its own shard. */
  datatype Call = Call(create: bool, msg: Message, gas: nat, applyXShard: bool)

  datatype VmOutcome = VmOutcome(
    balances: Balances, nonces: Nonces, world: World, gasLeft: nat, refundCounter: nat, err: VmErr)

  /** The answer of the native-token contract: what a gas price is worth, and how much of it is refundable. */
  datatype PayOutcome = PayOutcome(balances: Balances, world: World, refundRate: nat, price: Option<nat>)

  datatype Vm = Vm(
    run: (World, Balances, Nonces, nat, Call) -> VmOutcome,
    pay: (World, Balances, Token, nat, nat) -> PayOutcome,
    newAddress: (Recipient, nat) -> Recipient)

  ghost predicate KeepsTotals(before: Balances, after: Balances) {
    Solvent(after) && forall t :: Total(after, t) == Total(before, t)
  }

  /** A creation uses up one of the sender's nonces unless the sender cannot pay the value; a call uses none. */
  function NoncesUsed(c: Call, err: VmErr): nat {
    if c.create && !c.applyXShard && err != InsufficientBalance then 1 else 0
  }

  /** Executions move tokens without creating any, overdraw nobody and return no more gas than they got. */
  ghost predicate VmOk(vm: Vm) {
    && (forall w, b, n, k, c :: Solvent(b) ==>
          KeepsTotals(b, vm.run(w, b, n, k, c).balances) && vm.run(w, b, n, k, c).gasLeft <= c.gas)
    && (forall w, b, n, k, c :: var o := vm.run(w, b, n, k, c);
          NonceIn(o.nonces, c.msg.from) == NonceIn(n, c.msg.from) + NoncesUsed(c, o.err))
    && (forall w, b, t, g, p :: Solvent(b) ==> KeepsTotals(b, vm.pay(w, b, t, g, p).balances))
  }

  // ---------- intrinsic gas ----------

  function NonZeroBytes(data: seq<Byte>): (n: nat)
    ensures n <= |data|
  {
    if data == [] then 0 else NonZeroBytes(data[..|data| - 1]) + if data[|data| - 1] != 0 then 1 else 0
  }

  function DataGas(data: seq<Byte>, create: bool): nat {
    (if create then TX_GAS_CONTRACT_CREATION else TX_GAS)
    + NonZeroBytes(data) * TX_DATA_NON_ZERO_GAS + (|data| - NonZeroBytes(data)) * TX_DATA_ZERO_GAS
  }

  method CountNonZero(data: seq<Byte>) returns (nz: nat)
    ensures nz == NonZeroBytes(data)
  {
    nz := 0;
    for i := 0 to |data|
      invariant nz == NonZeroBytes(data[..i])
    {
      assert data[..i + 1][..i] == data[..i];
      if data[i] != 0 {
        nz := nz + 1;
      }
    }
    assert data[..|data|] == data;
  }

  /** The division test refuses exactly the counts whose product does not fit. */
  lemma FitsByDivision(room: nat, unit: nat, count: nat)
    requires unit > 0
    ensures room / unit < count <==> unit * count > room
  {
    var q := room / unit;
    assert unit * q <= room < unit * q + unit;
    if count <= q {
      MulOrder(count, q, unit);
    } else {
      MulOrder(q + 1, count, unit);
      Distribute(q, 1, unit);
    }
  }

  /** Refuses exactly the data whose gas does not fit in 64 bits; the cross-shard cost is added unchecked. */
  method IntrinsicGas(data: seq<Byte>, create: bool, isCrossShard: bool) returns (r: Option<nat>)
    ensures r.None? <==> DataGas(data, create) > MAX_UINT64
    ensures r.Some? ==>
              r.value == (DataGas(data, create) + if isCrossShard then GTXX_SHARD_COST else 0) % (MAX_UINT64 + 1)
  {
    var gas := if create then TX_GAS_CONTRACT_CREATION else TX_GAS;
    if |data| > 0 {
      var nz := CountNonZero(data);
      FitsByDivision(MAX_UINT64 - gas, TX_DATA_NON_ZERO_GAS, nz);
      if (MAX_UINT64 - gas) / TX_DATA_NON_ZERO_GAS < nz {
        return None;
      }
      gas := gas + nz * TX_DATA_NON_ZERO_GAS;
      var z := |data| - nz;
      FitsByDivision(MAX_UINT64 - gas, TX_DATA_ZERO_GAS, z);
      if (MAX_UINT64 - gas) / TX_DATA_ZERO_GAS < z {
        return None;
      }
      gas := gas + z * TX_DATA_ZERO_GAS;
    }
    SmallRemainder(gas);
    if isCrossShard {
      gas := (gas + GTXX_SHARD_COST) % (MAX_UINT64 + 1);
    }
    return Some(gas);
  }

  lemma SmallRemainder(n: nat)
    ensures n <= MAX_UINT64 ==> n % (MAX_UINT64 + 1) == n
  {
  }

  // ---------- the transition ----------

  datatype TxErr = NonceTooHigh | NonceTooLow | InsufficientBalanceForGas | GasLimitReached | OutOfGas
                 | TransferFails

  datatype Result = Failed(err: TxErr) | Done(usedGas: nat, failed: bool)

  /** What a refund at a rate above 100 pays out beyond the gas money it refunds. */
  function Excess(total: nat, refundRate: nat): nat {
    if total * refundRate / 100 > total then total * refundRate / 100 - total else 0
  }

  /** A refund creates money exactly when its rate exceeds 100 by enough to make up a whole unit. */
  lemma ExcessIffOverRate(total: nat, refundRate: nat)
    ensures Excess(total, refundRate) > 0 <==> total * refundRate >= 100 * total + 100
    ensures refundRate <= 100 ==> Excess(total, refundRate) == 0
  {
    var q := total * refundRate / 100;
    assert 100 * q <= total * refundRate < 100 * q + 100;
    if refundRate <= 100 {
      MulOrder(refundRate, 100, total);
    }
  }

  // ---------- which messages are accepted ----------

  /** What a message finds on its shard. */
  datatype Scene = Scene(
    genesisToken: Token, senderDisallow: map<Recipient, int>, world: World, balances: Balances, nonces: Nonces,
    refundCounter: nat)

  /** The sender is a recent miner whose stake the transfer would touch. */
  predicate Barred(s: Scene, msg: Message) {
    && msg.from in s.senderDisallow
    && msg.value + s.senderDisallow[msg.from] > BalanceOf(s.balances, msg.from, s.genesisToken)
  }

  /** The nonces the virtual machine starts with: a call has used up the sender's already. */
  function CallNonces(nonces: Nonces, msg: Message, create: bool, applyXShard: bool): Nonces {
    if create || applyXShard then nonces else nonces[msg.from := NonceIn(nonces, msg.from) + 1]
  }

  /** What comes of a call or a creation with so much gas left; a barred sender's call is not even started. */
  function Outcome(vm: Vm, s: Scene, msg: Message, create: bool, applyXShard: bool, gas: nat): VmOutcome {
    var nonces := CallNonces(s.nonces, msg, create, applyXShard);
    if !create && Barred(s, msg) then VmOutcome(s.balances, nonces, s.world, 0, s.refundCounter, PoSWSenderNotAllowed)
    else vm.run(s.world, s.balances, nonces, s.refundCounter, Call(create, msg, gas, applyXShard))
  }

  function Answer(vm: Vm, s: Scene, msg: Message, create: bool, applyXShard: bool, gas: nat): VmErr {
    Outcome(vm, s, msg, create, applyXShard, gas).err
  }

  /** The nonce is due, the sender has the gas money and the block has the gas. */
  predicate BuysIn(s: Scene, msg: Message, price: nat, gp: nat) {
    && (msg.checkNonce ==> NonceIn(s.nonces, msg.from) == msg.nonce)
    && msg.gas * price <= BalanceOf(s.balances, msg.from, msg.gasToken) && msg.gas <= gp
  }

  /** The scene after the gas is paid for. */
  function Paid(s: Scene, msg: Message, price: nat): Scene {
    s.(balances := Plus(s.balances, msg.from, -(msg.gas * price), msg.gasToken))
  }

  /** The part of the gas that is due in any case. */
  function Due(msg: Message): nat {
    DataGas(msg.data, msg.to.None?) + if msg.isCrossShard then GTXX_SHARD_COST else 0
  }

  /** A message of this shard succeeds: it buys its gas, has enough of it, and can pay what it transfers. */
  predicate Accepted(vm: Vm, s: Scene, msg: Message, price: nat, gp: nat, contractAddress: bool) {
    && BuysIn(s, msg, price, gp) && DataGas(msg.data, msg.to.None?) <= MAX_UINT64 && Due(msg) <= msg.gas
    && (if msg.isCrossShard then msg.value <= BalanceOf(Paid(s, msg, price).balances, msg.from, msg.transferToken)
        else Answer(vm, Paid(s, msg, price), msg, msg.to.None? || contractAddress, false, msg.gas - Due(msg))
             != InsufficientBalance)
  }

  // ---------- what a message leaves behind ----------

  /** What the transition reads of its block. */
  datatype Env = Env(cfg: Settings, miner: Recipient, evmEnabled: bool)

  function Debited(b: Balances, msg: Message): Balances {
    var value: int := msg.value;
    Plus(b, msg.from, -value, msg.transferToken)
  }

  /** The sender gets the part its rate allows, the zero address what is burned. */
  function Repaid(b: Balances, token: Token, msg: Message, total: nat): Balances {
    var part := total * msg.refundRate / 100;
    if msg.refundRate == 100 then Plus(b, msg.from, total, token)
    else if part <= total then Plus(Plus(b, msg.from, part, token), 0, total - part, token)
    else Plus(b, msg.from, part, token)
  }

  function Refunded(b: Balances, env: Env, msg: Message, gas: nat): Balances {
    Repaid(b, env.cfg.genesisToken, msg, gas * msg.gasPrice)
  }

  /** The miner's share of the fee. */
  function LocalFee(env: Env, msg: Message, gasUsed: nat): nat
    requires env.cfg.localFeeRate.den > 0
  {
    MulRate(gasUsed * msg.gasPrice, env.cfg.localFeeRate)
  }

  function FeePaid(b: Balances, env: Env, msg: Message, gasUsed: nat): Balances
    requires env.cfg.localFeeRate.den > 0
  {
    Plus(b, env.miner, LocalFee(env, msg, gasUsed), env.cfg.genesisToken)
  }

  /**
   * The scene after a message, the deposits it sent, the gas charged and refunded, the gas that counts against
   * the block, the miner's share of the fee, and whether the message failed.
   */
  datatype Effect = Effect(
    scene: Scene, sent: seq<Deposit>, charged: nat, refunded: nat, used: nat, fee: nat, failed: bool)

  /** The gas left after a call: a successful one gets its refund counter back, at most half of the gas used. */
  function GasLeft(o: VmOutcome, initialGas: nat): nat {
    if o.err != NoErr || o.gasLeft > initialGas then o.gasLeft
    else
      var half := (initialGas - o.gasLeft) / 2;
      o.gasLeft + if half > o.refundCounter then o.refundCounter else half
  }

  function CallEffect(vm: Vm, env: Env, s: Scene, msg: Message, create: bool, applyXShard: bool, gas: nat,
                      initialGas: nat): Effect
    requires env.cfg.localFeeRate.den > 0
  {
    var o := Outcome(vm, s, msg, create, applyXShard, gas);
    var left := GasLeft(o, initialGas);
    var used: nat := if left <= initialGas then initialGas - left else 0;
    var b := FeePaid(Refunded(o.balances, env, msg, left), env, msg, used);
    Effect(s.(balances := b, nonces := o.nonces, world := o.world, refundCounter := 0), [], used, left, used,
           LocalFee(env, msg, used), o.err != NoErr)
  }

  /** The gas a deposit takes along: all that is left for a creation or after activation, else none. */
  function ReserveOf(env: Env, msg: Message, intrinsicGas: nat): nat
    requires intrinsicGas <= msg.gas
  {
    if msg.to.None? || env.evmEnabled then msg.gas - intrinsicGas else 0
  }

  function DepositOf(vm: Vm, env: Env, msg: Message, gasRemained: nat, nonce: nat): Deposit {
    Deposit(msg.txHash, msg.from, if msg.to.Some? then msg.to.value else vm.newAddress(msg.from, nonce), msg.toKey,
            msg.value, msg.transferToken, env.cfg.genesisToken, msg.gasPrice, gasRemained,
            msg.data, msg.to.None?, false, msg.refundRate)
  }

  /** The value is debited, the gas neither due nor taken along is refunded, and the due part that stays is charged. */
  function Settled(b: Balances, env: Env, msg: Message, intrinsicGas: nat): Balances
    requires env.cfg.localFeeRate.den > 0 && GTXX_SHARD_COST <= intrinsicGas <= msg.gas
  {
    var refunded: nat := msg.gas - intrinsicGas - ReserveOf(env, msg, intrinsicGas);
    FeePaid(Refunded(Debited(b, msg), env, msg, refunded), env, msg, intrinsicGas - GTXX_SHARD_COST)
  }

  /** A barred sender of a cross-shard message loses all the gas. */
  function Forfeited(b: Balances, env: Env, msg: Message): Balances
    requires env.cfg.localFeeRate.den > 0
  {
    FeePaid(Refunded(b, env, msg, 0), env, msg, msg.gas)
  }

  function SendEffect(vm: Vm, env: Env, s: Scene, msg: Message, intrinsicGas: nat): Effect
    requires env.cfg.localFeeRate.den > 0 && GTXX_SHARD_COST <= intrinsicGas <= msg.gas
  {
    var nonces := s.nonces[msg.from := NonceIn(s.nonces, msg.from) + 1];
    if Barred(s, msg)
    then Effect(s.(balances := Forfeited(s.balances, env, msg), nonces := nonces), [], msg.gas, 0, msg.gas,
                LocalFee(env, msg, msg.gas), true)
    else
      var reserve := ReserveOf(env, msg, intrinsicGas);
      var charged := intrinsicGas - GTXX_SHARD_COST;
      Effect(s.(balances := Settled(s.balances, env, msg, intrinsicGas), nonces := nonces),
             [DepositOf(vm, env, msg, reserve, NonceIn(nonces, msg.from))],
             charged, msg.gas - intrinsicGas - reserve, if env.evmEnabled then charged else intrinsicGas,
             LocalFee(env, msg, charged), false)
  }

  /** What an accepted message of this shard does. */
  function MessageEffect(vm: Vm, env: Env, s: Scene, msg: Message, price: nat, contractAddress: bool): Effect
    requires env.cfg.localFeeRate.den > 0 && Due(msg) <= msg.gas
  {
    var paid := Paid(s, msg, price);
    if msg.isCrossShard then SendEffect(vm, env, paid, msg, Due(msg))
    else CallEffect(vm, env, paid, msg, msg.to.None? || contractAddress, false, msg.gas - Due(msg), msg.gas)
  }

  class StateTransition {
    const state: StateDB
    const vm: Vm
    const msg: Message
    const gasPriceInGasToken: nat
    const isApplyXShard: bool
    const xShardGasUsedStart: nat
    const contractAddress: bool
    var gp: nat
    var gas: nat
    var initialGas: nat

    constructor (state: StateDB, vm: Vm, msg: Message, gasPriceInGasToken: nat,
                 isApplyXShard: bool, xShardGasUsedStart: nat, contractAddress: bool, gp: nat)
      ensures this.state == state && this.vm == vm && this.msg == msg
      ensures this.gasPriceInGasToken == gasPriceInGasToken && this.isApplyXShard == isApplyXShard
      ensures this.xShardGasUsedStart == xShardGasUsedStart && this.contractAddress == contractAddress
      ensures this.gp == gp && gas == 0 && initialGas == 0
    {
      this.state, this.vm, this.msg := state, vm, msg;
      this.gasPriceInGasToken, this.isApplyXShard := gasPriceInGasToken, isApplyXShard;
      this.xShardGasUsedStart, this.contractAddress := xShardGasUsedStart, contractAddress;
      this.gp, gas, initialGas := gp, 0, 0;
    }

    // Who gains and who loses, account by account.

    ghost function Bought(b: Balances): Balances {
      Plus(b, msg.from, -(msg.gas * gasPriceInGasToken), msg.gasToken)
    }

    function EnvNow(): Env {
      Env(state.cfg, state.blockCoinbase, state.EvmEnabled())
    }

    ghost function AfterRefund(b: Balances, total: nat): Balances {
      Repaid(b, state.cfg.genesisToken, msg, total)
    }

    ghost function AfterFee(b: Balances, gasUsed: nat): Balances
      requires state.cfg.localFeeRate.den > 0
    {
      FeePaid(b, EnvNow(), msg, gasUsed)
    }

    /** Nobody but the sender, the miner and the zero address gains or loses. */
    ghost predicate OnlyParties(b: Balances, b': Balances) {
      forall a, t :: a != msg.from && a != state.blockCoinbase && a != 0 ==> BalanceOf(b', a, t) == BalanceOf(b, a, t)
    }

    lemma SettlingParties(b: Balances, refunded: nat, charged: nat)
      requires state.cfg.localFeeRate.den > 0
      ensures OnlyParties(b, AfterFee(AfterRefund(b, refunded), charged))
    {
      hide MulRate;
      var part := refunded * msg.refundRate / 100;
      var b1 := Plus(b, msg.from, part, state.cfg.genesisToken);
      BalancePlus(b, msg.from, part, state.cfg.genesisToken);
      BalancePlus(b, msg.from, refunded, state.cfg.genesisToken);
      BalancePlus(b1, 0, refunded - part, state.cfg.genesisToken);
      var fee := MulRate(charged * msg.gasPrice, state.cfg.localFeeRate);
      BalancePlus(AfterRefund(b, refunded), state.blockCoinbase, fee, state.cfg.genesisToken);
    }

    lemma BuyingParties(b: Balances)
      ensures OnlyParties(b, Bought(b)) && OnlyParties(b, Debited(b, msg))
    {
      var value: int := msg.value;
      BalancePlus(b, msg.from, -(msg.gas * gasPriceInGasToken), msg.gasToken);
      BalancePlus(b, msg.from, -value, msg.transferToken);
    }

    /** The sender has the gas money and the block has the gas. */
    predicate CanBuy()
      reads this`gp, state`balances
    {
      msg.gas * gasPriceInGasToken <= state.GetBalance(msg.from, msg.gasToken) && msg.gas <= gp
    }

    /** The message passes the checks up to and including the purchase of its gas. */
    predicate Buys()
      reads this`gp, state`balances, state`nonces
    {
      !isApplyXShard && (msg.checkNonce ==> NonceOf(msg.from) == msg.nonce) && CanBuy()
    }

    /** The gas money a message that fails after buying its gas has lost. */
    ghost function Burned(bought: bool, u: Token): int {
      if bought && u == msg.gasToken then msg.gas * gasPriceInGasToken else 0
    }

    /** Buys all the gas up front, in the gas token. */
    method BuyGas() returns (err: Option<TxErr>)
      requires state.Valid()
      modifies this, state`balances
      ensures state.Valid()
      ensures err.None? ==> gas == old(gas) + msg.gas && initialGas == msg.gas
      ensures err.None? ==>
                forall u :: state.Worth(u) == old(state.Worth(u))
                            - if u == msg.gasToken then msg.gas * gasPriceInGasToken else 0
      ensures state.balances == if err.None? then Bought(old(state.balances)) else old(state.balances)
      ensures err.None? <==> old(CanBuy())
      ensures gp == if err.None? then old(gp) - msg.gas else old(gp)
    {
      var mgval := msg.gas * gasPriceInGasToken;
      if state.GetBalance(msg.from, msg.gasToken) < mgval {
        return Some(InsufficientBalanceForGas);
      }
      if gp < msg.gas {
        return Some(GasLimitReached);
      }
      gp := gp - msg.gas;
      gas := gas + msg.gas;
      initialGas := msg.gas;
      state.SubBalance(msg.from, mgval, msg.gasToken);
      return None;
    }

    /** Pays refundable gas money back; the part the rate withholds goes to the zero address. */
    method Refund(total: nat)
      requires state.Valid()
      modifies state`balances, state`overRefunded
      ensures msg.refundRate <= 100 ==> state.overRefunded == old(state.overRefunded)
      ensures state.Valid()
      ensures state.balances == AfterRefund(old(state.balances), total)
      ensures state.overRefunded == old(state.overRefunded) + Excess(total, msg.refundRate)
      ensures forall u :: state.Worth(u) == old(state.Worth(u)) + if u == state.cfg.genesisToken then total else 0
    {
      ExcessIffOverRate(total, msg.refundRate);
      if msg.refundRate == 100 {
        state.AddBalance(msg.from, total, state.cfg.genesisToken);
        return;
      }
      var toRefund := total * msg.refundRate / 100;
      var toBurn := total - toRefund;
      state.AddBalance(msg.from, toRefund, state.cfg.genesisToken);
      if toBurn >= 0 {
        state.AddBalance(0, toBurn, state.cfg.genesisToken);
      }
      state.overRefunded := state.overRefunded + Excess(total, msg.refundRate);
    }

    /** Adds the refund counter, at most half of the gas used, and refunds all remaining gas. */
    method RefundGas(ok: bool)
      requires state.Valid() && gas <= initialGas
      modifies this`gas, this`gp
      modifies state`balances, state`overRefunded, state`refundCounter, state`gasRefunded
      ensures msg.refundRate <= 100 ==> state.overRefunded == old(state.overRefunded)
      ensures state.Valid() && state.refundCounter == 0
      ensures gas == old(gas) + if !ok then 0
                                else if (initialGas - old(gas)) / 2 > old(state.refundCounter) then old(state.refundCounter)
                                else (initialGas - old(gas)) / 2
      ensures state.gasRefunded == old(state.gasRefunded) + gas && gp == old(gp) + gas
      ensures state.balances == AfterRefund(old(state.balances), gas * msg.gasPrice)
      ensures forall u :: state.Worth(u) == old(state.Worth(u))
                          + if u == state.cfg.genesisToken then gas * msg.gasPrice else 0
    {
      hide Total, Money, Solvent, Excess, Plus, StateTransition.AfterRefund;
      if ok {
        var refund := (initialGas - gas) / 2;
        if refund > state.refundCounter {
          refund := state.refundCounter;
        }
        gas := gas + refund;
      }
      state.refundCounter := 0;
      Refund(gas * msg.gasPrice);
      gp := gp + gas;
      state.gasRefunded := state.gasRefunded + gas;
    }

    /** Credits the miner with the local share of the fee; the rest is tax. */
    method ChargeFee(gasUsed: nat)
      requires state.Valid() && gas <= initialGas
      modifies state`balances, state`blockFee, state`gasUsed, state`withheld, state`gasCharged
      ensures state.Valid() && state.balances == AfterFee(old(state.balances), gasUsed)
      ensures state.gasCharged == old(state.gasCharged) + gasUsed
      ensures state.gasUsed == old(state.gasUsed) + if state.EvmEnabled() then gasUsed else initialGas - gas
      ensures state.blockFee == old(state.blockFee) + LocalFee(EnvNow(), msg, gasUsed)
      ensures state.withheld - old(state.withheld) ==
              gasUsed * msg.gasPrice - MulRate(gasUsed * msg.gasPrice, state.cfg.localFeeRate)
      ensures forall u :: state.Worth(u) == old(state.Worth(u))
                          + if u == state.cfg.genesisToken then gasUsed * msg.gasPrice else 0
    {
      hide Total, Money, Solvent, MulRate, WithinRate;
      var fee := gasUsed * msg.gasPrice;
      var rateFee := MulRate(fee, state.cfg.localFeeRate);
      WithinRateKept(state.blockFee, state.withheld, fee, state.cfg.localFeeRate);
      state.AddBalance(state.blockCoinbase, rateFee, state.cfg.genesisToken);
      state.blockFee := state.blockFee + rateFee;
      state.withheld := state.withheld + (fee - rateFee);
      state.gasCharged := state.gasCharged + gasUsed;
      state.gasUsed := state.gasUsed + if state.EvmEnabled() then gasUsed else initialGas - gas;
    }

    function Now(): Scene
      reads state`balances, state`world, state`refundCounter, state`nonces
    {
      Scene(state.cfg.genesisToken, state.senderDisallow, state.world, state.balances, state.nonces, state.refundCounter)
    }

    predicate TransferFailureByPoSW()
      reads state`balances, state`world, state`refundCounter, state`nonces
    {
      Barred(Now(), msg)
    }

    /** The message, or the deposit being delivered, succeeds. */
    predicate Succeeds()
      reads this`gp, state`balances, state`world, state`refundCounter, state`nonces
    {
      if isApplyXShard
      then Answer(vm, Now(), msg, msg.to.None? || contractAddress, true, msg.gas) != InsufficientBalance
      else Accepted(vm, Now(), msg, gasPriceInGasToken, gp, contractAddress)
    }

    ghost predicate SmallData() {
      |msg.data| < 0x1_0000_0000_0000
    }

    /** What the message, or the deposit being delivered, does if it succeeds. */
    ghost function Expected(): Effect
      requires state.cfg.localFeeRate.den > 0 && (!isApplyXShard ==> Due(msg) <= msg.gas)
      reads state`balances, state`world, state`refundCounter, state`nonces
    {
      if isApplyXShard
      then CallEffect(vm, EnvNow(), Now(), msg, msg.to.None? || contractAddress, true, msg.gas, msg.gas + xShardGasUsedStart)
      else MessageEffect(vm, EnvNow(), Now(), msg, gasPriceInGasToken, contractAddress)
    }

    /**
     * Sends a deposit to another shard. Of the gas bought, the intrinsic part less the target's share
     * is charged here, the target's share and the reserve travel with the deposit, the rest is refunded.
     */
    method AddCrossShardTxDeposit(intrinsicGas: nat) returns (r: Result)
      requires state.Valid() && GTXX_SHARD_COST <= intrinsicGas <= msg.gas
      requires initialGas == msg.gas && gas == msg.gas - intrinsicGas
      modifies this`gas
      modifies state`balances, state`nonces, state`world, state`refundCounter, state`gasUsed, state`blockFee
      modifies state`xShardList, state`withheld, state`overRefunded, state`gasCharged, state`gasRefunded
      ensures msg.refundRate <= 100 ==> state.overRefunded == old(state.overRefunded)
      ensures state.Valid()
      ensures r.Done? <==> msg.value <= old(BalanceOf(state.balances, msg.from, msg.transferToken))
      ensures r.Done? ==> (r.failed <==> old(TransferFailureByPoSW())) && r.usedGas == state.gasUsed
      ensures r.Failed? ==> state.gasUsed == old(state.gasUsed) && forall u :: state.Worth(u) == old(state.Worth(u))
      ensures r.Done? ==> old(state.gasUsed) <= state.gasUsed <= old(state.gasUsed) + msg.gas
      ensures r.Done? ==>
                forall u :: state.Worth(u) == old(state.Worth(u))
                            + if u == state.cfg.genesisToken then msg.gas * msg.gasPrice else 0
      ensures r.Done? && r.failed ==>
                && state.xShardList == old(state.xShardList)
                && state.gasCharged == old(state.gasCharged) + msg.gas
                && state.gasRefunded == old(state.gasRefunded)
                && state.balances == Forfeited(old(state.balances), EnvNow(), msg)
                && state.gasUsed == old(state.gasUsed) + msg.gas
                && state.blockFee == old(state.blockFee) + LocalFee(EnvNow(), msg, msg.gas)
      ensures r.Done? && !r.failed ==> SentDeposit(old(state.xShardList))
      ensures r.Done? && !r.failed ==>
                && LastSent().gasRemained == ReserveOf(EnvNow(), msg, intrinsicGas)
                && state.gasCharged == old(state.gasCharged) + intrinsicGas - GTXX_SHARD_COST
                && state.balances == Settled(old(state.balances), EnvNow(), msg, intrinsicGas)
                && state.gasUsed == old(state.gasUsed)
                   + (if state.EvmEnabled() then intrinsicGas - GTXX_SHARD_COST else intrinsicGas)
                && state.blockFee == old(state.blockFee) + LocalFee(EnvNow(), msg, intrinsicGas - GTXX_SHARD_COST)
                && state.xShardList == old(state.xShardList)
                   + [DepositOf(vm, EnvNow(), msg, ReserveOf(EnvNow(), msg, intrinsicGas), NonceOf(msg.from))]
      ensures r.Done? && !r.failed ==>
                state.gasCharged + state.gasRefunded + LastSent().gasRemained + GTXX_SHARD_COST
                == old(state.gasCharged) + old(state.gasRefunded) + msg.gas
      ensures OnlyParties(old(state.balances), state.balances)
      ensures state.nonces == old(state.nonces) && state.world == old(state.world)
      ensures state.refundCounter == old(state.refundCounter)
    {
      hide Total, Money, Solvent, MulRate, Plus, BalanceOf, Repaid, FeePaid, LocalFee, Debited, DepositOf,
        StateTransition.CarriesMessage, StateDB.Worth;
      if state.GetBalance(msg.from, msg.transferToken) < msg.value {
        return Failed(TransferFails);
      }
      if TransferFailureByPoSW() {
        gas := 0;
        SettlingParties(state.balances, 0, msg.gas);
        SettleCrossShard(0, msg.gas, 0);
        return Done(state.gasUsed, true);
      }
      var remoteGasReserved := ReserveOf(EnvNow(), msg, intrinsicGas);
      BuyingParties(state.balances);
      SendDeposit(remoteGasReserved);
      SettlingParties(state.balances, (msg.gas - intrinsicGas - remoteGasReserved) * msg.gasPrice,
                      intrinsicGas - GTXX_SHARD_COST);
      SettleCrossShard(msg.gas - intrinsicGas - remoteGasReserved, intrinsicGas - GTXX_SHARD_COST,
                       remoteGasReserved + GTXX_SHARD_COST);
      return Done(state.gasUsed, false);
    }

    /** Takes the value from the sender and appends the deposit that carries it. */
    method SendDeposit(remoteGasReserved: nat)
      requires state.Valid() && state.GetBalance(msg.from, msg.transferToken) >= msg.value
      modifies state`balances, state`xShardList
      ensures state.Valid() && SentDeposit(old(state.xShardList)) && LastSent().gasRemained == remoteGasReserved
      ensures state.xShardList == old(state.xShardList) + [DepositOf(vm, EnvNow(), msg, remoteGasReserved, NonceOf(msg.from))]
      ensures state.balances == Debited(old(state.balances), msg)
      ensures forall u :: state.Worth(u) == old(state.Worth(u))
                          + if u == state.cfg.genesisToken then (remoteGasReserved + GTXX_SHARD_COST) * msg.gasPrice else 0
    {
      var d := DepositOf(vm, EnvNow(), msg, remoteGasReserved, NonceOf(msg.from));
      state.SubBalance(msg.from, msg.value, msg.transferToken);
      state.AppendXShardList(d);
    }

    /** Refunds and charges the gas that stays on this shard. */
    method SettleCrossShard(refunded: nat, charged: nat, ghost sent: nat)
      requires state.Valid() && gas <= initialGas == msg.gas && refunded + charged + sent == msg.gas
      modifies state`balances, state`overRefunded, state`gasRefunded
      modifies state`blockFee, state`gasUsed, state`withheld, state`gasCharged
      ensures msg.refundRate <= 100 ==> state.overRefunded == old(state.overRefunded)
      ensures state.Valid()
      ensures state.gasCharged == old(state.gasCharged) + charged
      ensures state.gasRefunded == old(state.gasRefunded) + refunded
      ensures state.balances == AfterFee(AfterRefund(old(state.balances), refunded * msg.gasPrice), charged)
      ensures old(state.gasUsed) <= state.gasUsed <= old(state.gasUsed) + msg.gas
      ensures state.gasUsed == old(state.gasUsed) + if state.EvmEnabled() then charged else initialGas - gas
      ensures state.blockFee == old(state.blockFee) + LocalFee(EnvNow(), msg, charged)
      ensures forall u :: state.Worth(u) == old(state.Worth(u))
                          + if u == state.cfg.genesisToken
                            then msg.gas * msg.gasPrice - sent * msg.gasPrice else 0
    {
      hide Total, Money, Solvent, Excess, MulRate, Plus, StateTransition.AfterRefund, StateTransition.AfterFee, LocalFee;
      Refund(refunded * msg.gasPrice);
      state.gasRefunded := state.gasRefunded + refunded;
      ChargeFee(charged);
      Distribute(refunded, charged, msg.gasPrice);
      Distribute(refunded + charged, sent, msg.gasPrice);
    }

    function NonceOf(a: Recipient): nat
      reads state`nonces
    {
      NonceIn(state.nonces, a)
    }

    /** Exactly one deposit was sent, carrying this message's value and gas price. */
    ghost predicate SentDeposit(before: seq<Deposit>)
      reads state`xShardList
    {
      && |state.xShardList| == |before| + 1 && state.xShardList[..|before|] == before
      && CarriesMessage(LastSent())
    }

    ghost predicate CarriesMessage(d: Deposit) {
      && d.txHash == msg.txHash && d.from == msg.from && d.toKey == msg.toKey && d.data == msg.data
      && (msg.to.Some? ==> d.to == msg.to.value) && d.createContract == msg.to.None? && !d.fromRoot
      && d.value == msg.value && d.transferToken == msg.transferToken
      && d.gasToken == state.cfg.genesisToken && d.gasPrice == msg.gasPrice && d.refundRate == msg.refundRate
    }

    ghost function LastSent(): Deposit
      requires state.xShardList != []
      reads state`xShardList
    {
      state.xShardList[|state.xShardList| - 1]
    }

    /** The same from the message alone. */
    ghost function Reserve(): int {
      if msg.to.None? || state.EvmEnabled() then msg.gas - DataGas(msg.data, msg.to.None?) - GTXX_SHARD_COST else 0
    }

    /** The gas money a successful transition turns into fee, refund and reserve, less what bought it. */
    ghost function GasFlow(u: Token): int {
      (if u == state.cfg.genesisToken
       then (msg.gas + if isApplyXShard then xShardGasUsedStart else 0) * msg.gasPrice else 0)
      - (if !isApplyXShard && u == msg.gasToken then msg.gas * gasPriceInGasToken else 0)
    }

    /** Checks the nonce and buys the gas. */
    method PreCheck() returns (err: Option<TxErr>)
      requires state.Valid()
      modifies this, state`balances
      ensures state.Valid()
      ensures err.None? ==> gas == old(gas) + msg.gas && initialGas == msg.gas
      ensures err.None? ==>
                forall u :: state.Worth(u) == old(state.Worth(u))
                            - if u == msg.gasToken then msg.gas * gasPriceInGasToken else 0
      ensures state.balances == if err.None? then Bought(old(state.balances)) else old(state.balances)
      ensures err.None? <==> (msg.checkNonce ==> NonceOf(msg.from) == msg.nonce) && old(CanBuy())
      ensures gp == if err.None? then old(gp) - msg.gas else old(gp)
    {
      if msg.checkNonce {
        if NonceOf(msg.from) < msg.nonce {
          return Some(NonceTooHigh);
        } else if NonceOf(msg.from) > msg.nonce {
          return Some(NonceTooLow);
        }
      }
      err := BuyGas();
    }

    /** Runs the call or creation with the remaining gas, then refunds and charges. */
    method Execute() returns (r: Result)
      requires state.Valid() && VmOk(vm) && gas <= initialGas
      modifies this`gas, this`gp
      modifies state`balances, state`nonces, state`world, state`refundCounter, state`gasUsed, state`blockFee
      modifies state`xShardList, state`withheld, state`overRefunded, state`gasCharged, state`gasRefunded
      ensures msg.refundRate <= 100 ==> state.overRefunded == old(state.overRefunded)
      ensures state.Valid() && state.xShardList == old(state.xShardList)
      ensures r.Failed? <==> old(Answer(vm, Now(), msg, msg.to.None? || contractAddress, isApplyXShard, gas)) == InsufficientBalance
      ensures r.Failed? ==> state.gasUsed == old(state.gasUsed) && forall u :: state.Worth(u) == old(state.Worth(u))
      ensures r.Failed? ==> gp == old(gp)
      ensures r.Done? ==> old(state.gasUsed) <= state.gasUsed <= old(state.gasUsed) + initialGas
      ensures r.Done? ==> gas <= initialGas && state.gasCharged == old(state.gasCharged) + initialGas - gas
                          && r.usedGas == initialGas - gas
                          && state.gasRefunded == old(state.gasRefunded) + gas && gp == old(gp) + gas
                          && state.gasUsed == old(state.gasUsed) + initialGas - gas
                          && state.blockFee == old(state.blockFee) + LocalFee(EnvNow(), msg, initialGas - gas)
      ensures r.Done? ==>
                var o := old(Outcome(vm, Now(), msg, msg.to.None? || contractAddress, isApplyXShard, gas));
                && o.gasLeft <= initialGas
                && gas == o.gasLeft + (if o.err != NoErr then 0
                                       else if (initialGas - o.gasLeft) / 2 > o.refundCounter then o.refundCounter
                                       else (initialGas - o.gasLeft) / 2)
                && state.balances == FeePaid(Refunded(o.balances, EnvNow(), msg, gas), EnvNow(), msg, initialGas - gas)
                && state.nonces == o.nonces && state.world == o.world && state.refundCounter == 0 && (r.failed <==> o.err != NoErr)
      ensures r.Done? ==> NonceOf(msg.from) == old(NonceOf(msg.from)) + if isApplyXShard then 0 else 1
      ensures r.Done? ==>
                forall u :: state.Worth(u) == old(state.Worth(u))
                            + if u == state.cfg.genesisToken then initialGas * msg.gasPrice else 0
    {
      hide VmOk, Total, Money, Solvent, MulRate, Plus, Repaid, FeePaid, Outcome, LocalFee, StateDB.Worth;
      var err := RunVm();
      if err == InsufficientBalance {
        return Failed(TransferFails);
      }
      RefundGas(err == NoErr);
      ChargeFee(initialGas - gas);
      Distribute(gas, initialGas - gas, msg.gasPrice);
      return Done(initialGas - gas, err != NoErr);
    }

    /** The calls and creations among the messages: what is left is what the effect says. */
    method ExecuteCall() returns (r: Result)
      requires state.Valid() && VmOk(vm) && gas <= initialGas
      modifies this`gas, this`gp
      modifies state`balances, state`nonces, state`world, state`refundCounter, state`gasUsed, state`blockFee
      modifies state`xShardList, state`withheld, state`overRefunded, state`gasCharged, state`gasRefunded
      ensures msg.refundRate <= 100 ==> state.overRefunded == old(state.overRefunded)
      ensures state.Valid() && state.xShardList == old(state.xShardList)
      ensures r.Failed? <==> old(Answer(vm, Now(), msg, msg.to.None? || contractAddress, isApplyXShard, gas)) == InsufficientBalance
      ensures r.Failed? ==> state.gasUsed == old(state.gasUsed) && forall u :: state.Worth(u) == old(state.Worth(u))
      ensures r.Failed? ==> gp == old(gp)
      ensures r.Done? ==> old(state.gasUsed) <= state.gasUsed <= old(state.gasUsed) + initialGas
      ensures r.Done? ==> var e := old(CallEffect(vm, EnvNow(), Now(), msg, msg.to.None? || contractAddress, isApplyXShard,
                                                  gas, initialGas));
                          && Now() == e.scene && e.sent == [] && r.failed == e.failed && r.usedGas == e.charged
                          && state.gasCharged == old(state.gasCharged) + e.charged
                          && state.gasRefunded == old(state.gasRefunded) + e.refunded && gp == old(gp) + e.refunded
                          && state.gasUsed == old(state.gasUsed) + e.used && state.blockFee == old(state.blockFee) + e.fee
                          && e.charged + e.refunded == initialGas
      ensures r.Done? ==> NonceOf(msg.from) == old(NonceOf(msg.from)) + if isApplyXShard then 0 else 1
      ensures r.Done? ==>
                forall u :: state.Worth(u) == old(state.Worth(u))
                            + if u == state.cfg.genesisToken then initialGas * msg.gasPrice else 0
    {
      hide VmOk, Total, Money, Solvent, MulRate, Plus, Refunded, FeePaid, LocalFee, Outcome, StateDB.Worth;
      r := Execute();
    }

    /** The same of the messages that go to another shard. */
    method Send(intrinsicGas: nat) returns (r: Result)
      requires state.Valid() && GTXX_SHARD_COST <= intrinsicGas <= msg.gas
      requires initialGas == msg.gas && gas == msg.gas - intrinsicGas
      modifies this`gas
      modifies state`balances, state`nonces, state`world, state`refundCounter, state`gasUsed, state`blockFee
      modifies state`xShardList, state`withheld, state`overRefunded, state`gasCharged, state`gasRefunded
      ensures msg.refundRate <= 100 ==> state.overRefunded == old(state.overRefunded)
      ensures state.Valid()
      ensures r.Done? <==> msg.value <= old(BalanceOf(state.balances, msg.from, msg.transferToken))
      ensures r.Done? ==> (r.failed <==> Barred(old(Now()), msg)) && r.usedGas == state.gasUsed
      ensures r.Failed? ==> state.gasUsed == old(state.gasUsed) && forall u :: state.Worth(u) == old(state.Worth(u))
      ensures r.Done? ==> old(state.gasUsed) <= state.gasUsed <= old(state.gasUsed) + msg.gas
      ensures r.Done? ==> var e := old(SendEffect(vm, EnvNow(), Now(), msg, intrinsicGas));
                          && Now() == e.scene && state.xShardList == old(state.xShardList) + e.sent && r.failed == e.failed
                          && state.gasCharged == old(state.gasCharged) + e.charged
                          && state.gasRefunded == old(state.gasRefunded) + e.refunded
                          && state.gasUsed == old(state.gasUsed) + e.used && state.blockFee == old(state.blockFee) + e.fee
      ensures r.Done? ==>
                forall u :: state.Worth(u) == old(state.Worth(u))
                            + if u == state.cfg.genesisToken then msg.gas * msg.gasPrice else 0
      ensures r.Done? && r.failed ==> state.xShardList == old(state.xShardList)
      ensures r.Done? && !r.failed ==>
                SentDeposit(old(state.xShardList)) && LastSent().gasRemained == ReserveOf(EnvNow(), msg, intrinsicGas)
      ensures r.Done? ==>
                state.gasCharged + state.gasRefunded
                + (if r.failed then 0 else LastSent().gasRemained + GTXX_SHARD_COST)
                == old(state.gasCharged) + old(state.gasRefunded) + msg.gas
      ensures OnlyParties(old(state.balances), state.balances)
      ensures state.nonces == old(state.nonces)[msg.from := old(NonceOf(msg.from)) + 1]
    {
      hide Total, Money, Solvent, MulRate, Plus, BalanceOf, Repaid, FeePaid, LocalFee, Debited, DepositOf, Settled, Forfeited,
        StateTransition.CarriesMessage, StateDB.Worth, StateTransition.OnlyParties;
      state.nonces := state.nonces[msg.from := NonceOf(msg.from) + 1];
      r := AddCrossShardTxDeposit(intrinsicGas);
    }

    /** Hands the remaining gas to the virtual machine, unless the sender may not transfer. */
    method RunVm() returns (err: VmErr)
      requires state.Valid() && VmOk(vm)
      modifies this`gas, state`balances, state`world, state`refundCounter, state`nonces
      ensures state.Valid() && gas <= old(gas)
      ensures var o := old(Outcome(vm, Now(), msg, msg.to.None? || contractAddress, isApplyXShard, gas));
              && state.balances == o.balances && state.nonces == o.nonces && state.world == o.world
              && state.refundCounter == o.refundCounter && gas == o.gasLeft && err == o.err
      ensures err != InsufficientBalance ==>
                NonceOf(msg.from) == old(NonceOf(msg.from)) + if isApplyXShard then 0 else 1
      ensures forall u :: state.Worth(u) == old(state.Worth(u))
    {
      var create := msg.to.None? || contractAddress;
      var barred := TransferFailureByPoSW();
      state.nonces := CallNonces(state.nonces, msg, create, isApplyXShard);
      if !create && barred {
        gas, err := 0, PoSWSenderNotAllowed;
      } else {
        var o := vm.run(state.world, state.balances, state.nonces, state.refundCounter,
                        Call(create, msg, gas, isApplyXShard));
        state.balances, state.nonces, state.world, state.refundCounter := o.balances, o.nonces, o.world, o.refundCounter;
        gas, err := o.gasLeft, o.err;
      }
    }

    /**
     * Applies the message. When it succeeds nothing is lost: of every token, what the shard accounts
     * for changes just by the gas money bought and spent, and every unit of gas bought is charged,
     * refunded, or carried away by the one deposit sent.
     */
    method TransitionDb() returns (r: Result)
      requires state.Valid() && VmOk(vm) && SmallData() && gas == 0 && initialGas == 0
      requires isApplyXShard ==> !msg.isCrossShard
      modifies this
      modifies state`balances, state`nonces, state`world, state`refundCounter, state`gasUsed, state`blockFee
      modifies state`xShardList, state`withheld, state`overRefunded, state`gasCharged, state`gasRefunded
      ensures msg.refundRate <= 100 ==> state.overRefunded == old(state.overRefunded)
      ensures state.Valid()
      ensures r.Failed? ==> state.gasUsed == old(state.gasUsed)
      ensures r.Failed? ==> forall u :: state.Worth(u) == old(state.Worth(u)) - Burned(old(Buys()), u)
      ensures r.Done? <==> old(Succeeds())
      ensures r.Done? ==>
                var e := old(Expected());
                && Now() == e.scene && state.xShardList == old(state.xShardList) + e.sent && r.failed == e.failed
                && r.usedGas == (if msg.isCrossShard then state.gasUsed else e.charged)
                && state.gasCharged == old(state.gasCharged) + e.charged
                && state.gasRefunded == old(state.gasRefunded) + e.refunded
                && state.gasUsed == old(state.gasUsed) + e.used && state.blockFee == old(state.blockFee) + e.fee
      ensures r.Done? && !isApplyXShard ==> gp == old(gp) - msg.gas + if msg.isCrossShard then 0 else old(Expected()).refunded
      ensures r.Failed? ==> gp == if old(Buys()) then old(gp) - msg.gas else old(gp)
      ensures r.Failed? && !isApplyXShard && !old(Buys()) ==> unchanged(state)
      ensures r.Done? && msg.isCrossShard ==> (r.failed <==> Barred(Paid(old(Now()), msg, gasPriceInGasToken), msg))
      ensures r.Done? ==> old(state.gasUsed) <= state.gasUsed
                          <= old(state.gasUsed) + msg.gas + if isApplyXShard then xShardGasUsedStart else 0
      ensures r.Done? ==> forall u :: state.Worth(u) == old(state.Worth(u)) + GasFlow(u)
      ensures r.Done? && msg.isCrossShard && !r.failed ==> SentDeposit(old(state.xShardList))
      ensures r.Done? && !(msg.isCrossShard && !r.failed) ==> state.xShardList == old(state.xShardList)
      ensures r.Done? ==>
                state.gasCharged + state.gasRefunded
                + (if msg.isCrossShard && !r.failed then LastSent().gasRemained + GTXX_SHARD_COST else 0)
                == old(state.gasCharged) + old(state.gasRefunded)
                   + msg.gas + if isApplyXShard then xShardGasUsedStart else 0
      ensures r.Done? && msg.isCrossShard ==> OnlyParties(old(state.balances), state.balances)
      ensures r.Done? && msg.isCrossShard ==> state.nonces == old(state.nonces)[msg.from := old(NonceOf(msg.from)) + 1]
      ensures r.Done? ==> NonceOf(msg.from) == old(NonceOf(msg.from)) + if isApplyXShard then 0 else 1
      ensures r.Done? && msg.isCrossShard && !r.failed ==> LastSent().gasRemained == Reserve()
    {
      hide BalanceOf, VmOk, Solvent, Total, Money, DataGas, Plus, MulRate, StateTransition.AfterRefund,
        StateTransition.AfterFee, StateTransition.CarriesMessage, StateDB.Worth, CallEffect, SendEffect, Outcome, Barred;
      var err, cost := StartGas();
      if err.Some? {
        return Failed(err.value);
      }
      if msg.isCrossShard {
        r := Send(cost);
      } else {
        r := ExecuteCall();
      }
    }

    /** Fills in or buys the gas and takes off the part that is due in any case. */
    method StartGas() returns (err: Option<TxErr>, cost: nat)
      requires state.Valid() && SmallData() && gas == 0 && initialGas == 0
      modifies this, state`balances
      ensures state.Valid()
      ensures err.None? ==> gas == initialGas - cost
      ensures err.None? ==> initialGas == msg.gas + if isApplyXShard then xShardGasUsedStart else 0
      ensures err.None? <==>
                isApplyXShard || (old(Buys()) && DataGas(msg.data, msg.to.None?) <= MAX_UINT64 && Due(msg) <= msg.gas)
      ensures err.None? && !isApplyXShard ==> cost == Due(msg) && state.balances == Bought(old(state.balances))
      ensures isApplyXShard ==> cost == xShardGasUsedStart && state.balances == old(state.balances)
      ensures gp == if old(Buys()) then old(gp) - msg.gas else old(gp)
      ensures !isApplyXShard && !old(Buys()) ==> state.balances == old(state.balances)
      ensures OnlyParties(old(state.balances), state.balances)
      ensures forall u :: state.Worth(u) == old(state.Worth(u)) - Burned(old(Buys()), u)
    {
      hide BalanceOf, Solvent, Total, Money, DataGas, Plus, StateTransition.Bought, Debited;
      if isApplyXShard {
        gas := gas + msg.gas + xShardGasUsedStart;
        initialGas := gas;
        cost := xShardGasUsedStart;
      } else {
        BuyingParties(state.balances);
        err := PreCheck();
        if err.Some? {
          return err, 0;
        }
        var intrinsic := IntrinsicGas(msg.data, msg.to.None?, msg.isCrossShard);
        if intrinsic.None? {
          return Some(OutOfGas), 0;
        }
        SmallDataGas(msg.data, msg.to.None?);
        cost := intrinsic.value;
      }
      if gas < cost {
        return Some(OutOfGas), cost;
      }
      gas := gas - cost;
      err := None;
    }
  }

  lemma SmallDataGas(data: seq<Byte>, create: bool)
    requires |data| < 0x1_0000_0000_0000
    ensures TX_GAS <= DataGas(data, create) <= MAX_UINT64 - GTXX_SHARD_COST
  {
  }
}
