/**
 * What messages and deposits do account by account: who pays, who gains and how much, without reference to how the
 * message of a transaction or of a deposit is made up.
 */
module Effects {
  import opened BlockTree
  import opened ChainTypes
  import opened Ledger
  import opened Transition
  import opened Cursor
  import opened Execution

  /** In this world the account has no code: a call to it moves the value, or fails if the sender does not have it. */
  ghost predicate Codeless(vm: Vm, w: World, a: Recipient) {
    forall b: Balances, n: Nonces, k: nat, c: Call :: !c.create && c.msg.to == Some(a) ==>
      if c.msg.value <= BalanceOf(b, c.msg.from, c.msg.transferToken)
      then vm.run(w, b, n, k, c) ==
           VmOutcome(Moved(b, c.msg.from, a, c.msg.value, c.msg.transferToken), n, w, c.gas, k, NoErr)
      else vm.run(w, b, n, k, c).err == InsufficientBalance
  }

  function Moved(b: Balances, from: Recipient, to: Recipient, value: nat, t: Token): Balances {
    var amount: int := value;
    Plus(Plus(b, from, -amount, t), to, value, t)
  }

  /** An amount if the account and the token are the given ones. */
  function If(a: Recipient, t: Token, account: Recipient, token: Token, amount: int): int {
    if a == account && t == token then amount else 0
  }

  lemma MovedAt(b: Balances, from: Recipient, to: Recipient, value: nat, token: Token)
    ensures forall a, t :: BalanceOf(Moved(b, from, to, value, token), a, t)
                           == BalanceOf(b, a, t) - If(a, t, from, token, value) + If(a, t, to, token, value)
  {
    var amount: int := value;
    BalancePlus(b, from, -amount, token);
    BalancePlus(Plus(b, from, -amount, token), to, value, token);
    hide Plus, BalanceOf;
  }

  /** The part of a refund the sender gets; the zero address gets the rest. */
  function RefundPart(total: nat, rate: nat): nat {
    total * rate / 100
  }

  lemma RepaidAt(b: Balances, token: Token, msg: Message, total: nat)
    requires msg.refundRate <= 100
    ensures RefundPart(total, msg.refundRate) <= total
    ensures forall a, t :: BalanceOf(Repaid(b, token, msg, total), a, t)
                           == BalanceOf(b, a, t) + If(a, t, msg.from, token, RefundPart(total, msg.refundRate))
                              + If(a, t, 0, token, total - RefundPart(total, msg.refundRate))
  {
    var part := RefundPart(total, msg.refundRate);
    MulOrder(msg.refundRate, 100, total);
    QuotientAtMost(total * msg.refundRate, 100, total);
    BalancePlus(b, msg.from, total, token);
    BalancePlus(b, msg.from, part, token);
    BalancePlus(Plus(b, msg.from, part, token), 0, total - part, token);
    if msg.refundRate == 100 {
      assert part == total;
    }
    hide Plus, BalanceOf;
  }

  /** Fees and refunds of one message, account by account. */
  lemma SettledAt(b: Balances, env: Env, msg: Message, left: nat, used: nat)
    requires env.cfg.localFeeRate.den > 0 && msg.refundRate <= 100
    ensures forall a, t :: BalanceOf(FeePaid(Refunded(b, env, msg, left), env, msg, used), a, t)
                           == BalanceOf(b, a, t)
                              + If(a, t, msg.from, env.cfg.genesisToken, RefundPart(left * msg.gasPrice, msg.refundRate))
                              + If(a, t, 0, env.cfg.genesisToken,
                                   left * msg.gasPrice - RefundPart(left * msg.gasPrice, msg.refundRate))
                              + If(a, t, env.miner, env.cfg.genesisToken, MulRate(used * msg.gasPrice, env.cfg.localFeeRate))
  {
    RepaidAt(b, env.cfg.genesisToken, msg, left * msg.gasPrice);
    BalancePlus(Refunded(b, env, msg, left), env.miner, MulRate(used * msg.gasPrice, env.cfg.localFeeRate), env.cfg.genesisToken);
    hide Plus, BalanceOf, Repaid, MulRate, RefundPart;
  }

  // ---------- within a shard ----------

  /** The transaction pays for gas in the genesis token, and nothing is left of an earlier message's refund counter. */
  predicate Ordinary(env: Env, m: Moment, tx: Tx) {
    m.scene.genesisToken == env.cfg.genesisToken == tx.gasToken && m.scene.refundCounter == 0
  }

  /** The sender's stake, if it is a recent miner, is left after the gas and the value. */
  predicate Unstaked(m: Moment, tx: Tx) {
    tx.from in m.scene.senderDisallow ==>
      tx.value + m.scene.senderDisallow[tx.from]
      <= BalanceOf(m.scene.balances, tx.from, m.scene.genesisToken) - tx.gas * tx.gasPrice
  }

  /** After the gas is paid for, the sender may transfer just if its stake is left. */
  lemma UnstakedIsUnbarred(m: Moment, tx: Tx)
    requires tx.gasToken == m.scene.genesisToken
    ensures var msg := MessageOf(tx, tx.gasPrice, 100);
            Barred(Paid(m.scene, msg, tx.gasPrice), msg) <==> !Unstaked(m, tx)
  {
    BalancePlus(m.scene.balances, tx.from, -(tx.gas * tx.gasPrice), tx.gasToken);
  }

  /** The call of a transfer to an account without code succeeds and moves the value. */
  lemma PlainCall(vm: Vm, env: Env, m: Moment, tx: Tx, to: Recipient)
    requires Ordinary(env, m, tx) && Unstaked(m, tx)
    requires !tx.isCrossShard && tx.to == Some(to) && Codeless(vm, m.scene.world, to)
    requires Applies(vm, env.cfg.nativeTokenContract, m.scene, tx, m.gp)
    ensures var msg := MessageOf(tx, tx.gasPrice, 100);
            var paid := Paid(m.scene, msg, tx.gasPrice);
            && Due(msg) == DataGas(tx.data, false) <= tx.gas <= m.gp
            && Outcome(vm, paid, msg, false, false, tx.gas - Due(msg)) ==
               VmOutcome(Moved(paid.balances, tx.from, to, tx.value, tx.transferToken),
                         m.scene.nonces[tx.from := NonceIn(m.scene.nonces, tx.from) + 1], m.scene.world, tx.gas - Due(msg), 0, NoErr)
  {
    UnstakedIsUnbarred(m, tx);
    hide BalanceOf, Plus, DataGas, Moved, Barred;
  }

  /** A transaction that pays in the genesis token is its message. */
  lemma OrdinaryTx(vm: Vm, env: Env, m: Moment, tx: Tx)
    requires env.cfg.localFeeRate.den > 0 && Ordinary(env, m, tx)
    requires Applies(vm, env.cfg.nativeTokenContract, m.scene, tx, m.gp)
    ensures var msg := MessageOf(tx, tx.gasPrice, 100);
            && Due(msg) <= tx.gas <= m.gp && AfterTx(vm, env, m, tx) == AfterMessage(vm, env, m, msg, tx.gasPrice)
  {
    hide BalanceOf, Plus, DataGas, Outcome, MessageEffect;
  }

  /** A call that uses no gas of its own is charged what was due before it. */
  lemma FreeCall(vm: Vm, env: Env, s: Scene, msg: Message, applyXShard: bool, left: nat, due: nat, b: Balances, n: Nonces)
    requires env.cfg.localFeeRate.den > 0
    requires Outcome(vm, s, msg, false, applyXShard, left) == VmOutcome(b, n, s.world, left, 0, NoErr)
    ensures CallEffect(vm, env, s, msg, false, applyXShard, left, left + due) ==
            Effect(s.(balances := FeePaid(Refunded(b, env, msg, left), env, msg, due),
                      nonces := n, refundCounter := 0),
                   [], due, left, due, LocalFee(env, msg, due), false)
  {
    hide Outcome, Refunded, FeePaid, LocalFee;
  }

  /** The balances after the gas is bought, the value moved, the unused gas refunded and the fee paid. */
  function TransferBalances(env: Env, m: Moment, tx: Tx, to: Recipient): Balances
    requires env.cfg.localFeeRate.den > 0 && DataGas(tx.data, false) <= tx.gas
  {
    var msg := MessageOf(tx, tx.gasPrice, 100);
    var left: nat := tx.gas - DataGas(tx.data, false);
    var moved := Moved(Paid(m.scene, msg, tx.gasPrice).balances, tx.from, to, tx.value, tx.transferToken);
    FeePaid(Refunded(moved, env, msg, left), env, msg, DataGas(tx.data, false))
  }

  lemma TransferBalancesAt(env: Env, m: Moment, tx: Tx, to: Recipient)
    requires env.cfg.localFeeRate.den > 0 && tx.gasToken == env.cfg.genesisToken && DataGas(tx.data, false) <= tx.gas
    ensures Paying(env, tx, to, m.scene.balances, TransferBalances(env, m, tx, to))
  {
    hide BalanceOf, Plus, DataGas, Moved, Refunded, FeePaid, MulRate, RefundPart;
    var gas, msg := DataGas(tx.data, false), MessageOf(tx, tx.gasPrice, 100);
    var paid := Paid(m.scene, msg, tx.gasPrice).balances;
    var left := tx.gas - gas;
    BalancePlus(m.scene.balances, tx.from, -(tx.gas * tx.gasPrice), tx.gasToken);
    MovedAt(paid, tx.from, to, tx.value, tx.transferToken);
    SettledAt(Moved(paid, tx.from, to, tx.value, tx.transferToken), env, msg, left, gas);
    Distribute(left, gas, tx.gasPrice);
    FullRefund(left * tx.gasPrice);
  }

  /** Paying for gas changes balances only. */
  lemma PaidOnly(s: Scene, msg: Message, price: nat)
    ensures Paid(s, msg, price) == s.(balances := Paid(s, msg, price).balances)
  {
    hide Plus;
  }

  /** A message with a recipient on this shard is a call on the state after the gas is paid for. */
  lemma MessageCalls(vm: Vm, env: Env, s: Scene, msg: Message, price: nat)
    requires env.cfg.localFeeRate.den > 0 && !msg.isCrossShard && msg.to.Some? && Due(msg) <= msg.gas
    ensures MessageEffect(vm, env, s, msg, price, false) ==
            CallEffect(vm, env, Paid(s, msg, price), msg, false, false, msg.gas - Due(msg), msg.gas - Due(msg) + Due(msg))
  {
    hide CallEffect, Due, Plus;
  }

  lemma PlainEffect(vm: Vm, env: Env, m: Moment, tx: Tx, to: Recipient)
    requires env.cfg.localFeeRate.den > 0 && Ordinary(env, m, tx) && Unstaked(m, tx)
    requires !tx.isCrossShard && tx.to == Some(to) && Codeless(vm, m.scene.world, to)
    requires Applies(vm, env.cfg.nativeTokenContract, m.scene, tx, m.gp)
    ensures var msg, gas := MessageOf(tx, tx.gasPrice, 100), DataGas(tx.data, false);
            && Due(msg) == gas <= tx.gas
            && MessageEffect(vm, env, m.scene, msg, tx.gasPrice, false) ==
               Effect(m.scene.(balances := TransferBalances(env, m, tx, to),
                               nonces := m.scene.nonces[tx.from := NonceIn(m.scene.nonces, tx.from) + 1], refundCounter := 0),
                      [], gas, tx.gas - gas, gas, LocalFee(env, msg, gas), false)
  {
    PlainCall(vm, env, m, tx, to);
    hide BalanceOf, Plus, DataGas, Moved, Outcome, Refunded, FeePaid, LocalFee, Codeless, Unstaked, Applies, MessageEffect, Paid;
    var msg := MessageOf(tx, tx.gasPrice, 100);
    FreeMessage(vm, env, m.scene, msg, tx.gasPrice,
                Moved(Paid(m.scene, msg, tx.gasPrice).balances, tx.from, to, tx.value, tx.transferToken),
                m.scene.nonces[tx.from := NonceIn(m.scene.nonces, tx.from) + 1]);
  }

  /** A message whose call uses no gas of its own is charged what is due and refunded the rest. */
  lemma FreeMessage(vm: Vm, env: Env, s: Scene, msg: Message, price: nat, b: Balances, n: Nonces)
    requires env.cfg.localFeeRate.den > 0 && !msg.isCrossShard && msg.to.Some? && Due(msg) <= msg.gas
    requires Outcome(vm, Paid(s, msg, price), msg, false, false, msg.gas - Due(msg)) ==
             VmOutcome(b, n, s.world, msg.gas - Due(msg), 0, NoErr)
    ensures var due := Due(msg);
            MessageEffect(vm, env, s, msg, price, false) ==
            Effect(s.(balances := FeePaid(Refunded(b, env, msg, msg.gas - due), env, msg, due), nonces := n, refundCounter := 0),
                   [], due, msg.gas - due, due, LocalFee(env, msg, due), false)
  {
    hide Plus, Due, Outcome, Refunded, FeePaid, LocalFee, CallEffect, MessageEffect, Paid;
    PaidOnly(s, msg, price);
    MessageCalls(vm, env, s, msg, price);
    FreeCall(vm, env, Paid(s, msg, price), msg, false, msg.gas - Due(msg), Due(msg), b, n);
  }

  /** The recipient gains the value, the sender loses it and the price of the intrinsic gas, the miner gets its share. */
  ghost predicate Paying(env: Env, tx: Tx, to: Recipient, before: Balances, after: Balances)
    requires env.cfg.localFeeRate.den > 0
  {
    var gas, g := DataGas(tx.data, false), env.cfg.genesisToken;
    forall a, t :: BalanceOf(after, a, t)
                   == BalanceOf(before, a, t)
                      + If(a, t, to, tx.transferToken, tx.value) - If(a, t, tx.from, tx.transferToken, tx.value)
                      - If(a, t, tx.from, g, gas * tx.gasPrice)
                      + If(a, t, env.miner, g, MulRate(gas * tx.gasPrice, env.cfg.localFeeRate))
  }

  /** Only the sender's nonce, the balances and the gas change. */
  ghost predicate Transferred(env: Env, m: Moment, tx: Tx, to: Recipient, next: Moment)
    requires env.cfg.localFeeRate.den > 0
  {
    var gas := DataGas(tx.data, false);
    && next.scene.nonces == m.scene.nonces[tx.from := NonceIn(m.scene.nonces, tx.from) + 1]
    && next.scene.world == m.scene.world && next.scene.refundCounter == 0 && next.sent == m.sent
    && next.gasUsed == m.gasUsed + gas && next.gp == m.gp - gas
    && Paying(env, tx, to, m.scene.balances, next.scene.balances)
  }

  /**
   * A transfer to an account without code: the recipient gains the value, the sender loses it and the price of the
   * intrinsic gas, of which the miner gets the local share; nobody else is touched.
   */
  lemma PlainTransfer(vm: Vm, env: Env, m: Moment, tx: Tx, to: Recipient)
    requires env.cfg.localFeeRate.den > 0 && Ordinary(env, m, tx) && Unstaked(m, tx)
    requires !tx.isCrossShard && tx.to == Some(to) && Codeless(vm, m.scene.world, to)
    requires Applies(vm, env.cfg.nativeTokenContract, m.scene, tx, m.gp)
    ensures Transferred(env, m, tx, to, AfterTx(vm, env, m, tx))
  {
    OrdinaryTx(vm, env, m, tx);
    PlainEffect(vm, env, m, tx, to);
    hide BalanceOf, DataGas, Paying, Codeless, Unstaked, AfterTx, Applies, MessageEffect, TransferBalances, LocalFee;
    TransferBalancesAt(env, m, tx, to);
  }

  lemma FullRefund(total: nat)
    ensures RefundPart(total, 100) == total
  {
  }

  // ---------- from shard to shard ----------

  /** The gas a cross-shard transaction takes along: all that is not due, for a creation or after activation. */
  function Taken(env: Env, tx: Tx): nat {
    var due := DataGas(tx.data, tx.to.None?) + GTXX_SHARD_COST;
    if due <= tx.gas && (tx.to.None? || env.evmEnabled) then tx.gas - due else 0
  }

  /** The deposit carries the transaction: to whom, how much of what, with which gas at which price. */
  ghost predicate CarriesTx(env: Env, tx: Tx, d: Deposit) {
    && d.txHash == tx.hash && d.from == tx.from && d.toKey == tx.toKey && (tx.to.Some? ==> d.to == tx.to.value)
    && d.value == tx.value && d.transferToken == tx.transferToken && d.data == tx.data && d.createContract == tx.to.None?
    && d.gasToken == env.cfg.genesisToken && d.gasPrice == tx.gasPrice && d.gasRemained == Taken(env, tx)
    && !d.fromRoot && d.refundRate == 100
  }

  /** The sender loses the value, the gas due on both shards and the gas taken along; the miner gets its share here. */
  ghost predicate PayingAcross(env: Env, tx: Tx, before: Balances, after: Balances)
    requires env.cfg.localFeeRate.den > 0
  {
    var gas, g := DataGas(tx.data, tx.to.None?), env.cfg.genesisToken;
    forall a, t :: BalanceOf(after, a, t)
                   == BalanceOf(before, a, t) - If(a, t, tx.from, tx.transferToken, tx.value)
                      - If(a, t, tx.from, g, (gas + GTXX_SHARD_COST + Taken(env, tx)) * tx.gasPrice)
                      + If(a, t, env.miner, g, MulRate(gas * tx.gasPrice, env.cfg.localFeeRate))
  }

  lemma PayingAcrossAt(env: Env, m: Moment, tx: Tx)
    requires env.cfg.localFeeRate.den > 0 && tx.gasToken == env.cfg.genesisToken && tx.isCrossShard
    requires DataGas(tx.data, tx.to.None?) + GTXX_SHARD_COST <= tx.gas
    ensures var msg := MessageOf(tx, tx.gasPrice, 100);
            PayingAcross(env, tx, m.scene.balances, Settled(Paid(m.scene, msg, tx.gasPrice).balances, env, msg, Due(msg)))
  {
    hide BalanceOf, Plus, DataGas, Refunded, FeePaid, MulRate, RefundPart;
    var gas, msg := DataGas(tx.data, tx.to.None?), MessageOf(tx, tx.gasPrice, 100);
    var paid := Paid(m.scene, msg, tx.gasPrice).balances;
    var kept := gas + GTXX_SHARD_COST + Taken(env, tx);
    var left := tx.gas - kept;
    var value: int := tx.value;
    BalancePlus(m.scene.balances, tx.from, -(tx.gas * tx.gasPrice), tx.gasToken);
    BalancePlus(paid, tx.from, -value, tx.transferToken);
    SettledAt(Debited(paid, msg), env, msg, left, gas);
    Distribute(left, kept, tx.gasPrice);
    FullRefund(left * tx.gasPrice);
  }

  /**
   * A cross-shard transaction of a sender that may transfer sends one deposit that carries it, uses up the nonce, and
   * takes from the sender the value and the gas due or taken along.
   */
  lemma PlainSend(vm: Vm, env: Env, m: Moment, tx: Tx)
    requires env.cfg.localFeeRate.den > 0 && Ordinary(env, m, tx) && Unstaked(m, tx) && tx.isCrossShard
    requires Applies(vm, env.cfg.nativeTokenContract, m.scene, tx, m.gp)
    ensures var next := AfterTx(vm, env, m, tx);
            && next.scene.nonces == m.scene.nonces[tx.from := NonceIn(m.scene.nonces, tx.from) + 1]
            && next.scene.world == m.scene.world && next.scene.refundCounter == 0 && next.gp == m.gp - tx.gas
            && |next.sent| == |m.sent| + 1 && next.sent[..|m.sent|] == m.sent && CarriesTx(env, tx, Last(next.sent))
            && PayingAcross(env, tx, m.scene.balances, next.scene.balances)
  {
    OrdinaryTx(vm, env, m, tx);
    UnstakedIsUnbarred(m, tx);
    hide BalanceOf, DataGas, PayingAcross, Unstaked, AfterTx, Applies, Settled, LocalFee, Barred, Forfeited;
    PayingAcrossAt(env, m, tx);
  }

  /** A recent miner that would touch its stake sends nothing and loses all the gas it bought. */
  lemma BarredSend(vm: Vm, env: Env, m: Moment, tx: Tx)
    requires env.cfg.localFeeRate.den > 0 && Ordinary(env, m, tx) && !Unstaked(m, tx) && tx.isCrossShard
    requires Applies(vm, env.cfg.nativeTokenContract, m.scene, tx, m.gp)
    ensures var next := AfterTx(vm, env, m, tx);
            && next.scene.nonces == m.scene.nonces[tx.from := NonceIn(m.scene.nonces, tx.from) + 1]
            && next.scene.world == m.scene.world && next.sent == m.sent
            && Forfeits(env, tx, m.scene.balances, next.scene.balances)
  {
    OrdinaryTx(vm, env, m, tx);
    UnstakedIsUnbarred(m, tx);
    var msg := MessageOf(tx, tx.gasPrice, 100);
    var paid := Paid(m.scene, msg, tx.gasPrice).balances;
    BalancePlus(m.scene.balances, tx.from, -(tx.gas * tx.gasPrice), tx.gasToken);
    SettledAt(paid, env, msg, 0, tx.gas);
    FullRefund(0);
    hide BalanceOf, DataGas, Unstaked, AfterTx, Applies, Settled, Barred, Refunded, FeePaid, MulRate, RefundPart, Plus;
  }

  ghost predicate Forfeits(env: Env, tx: Tx, before: Balances, after: Balances)
    requires env.cfg.localFeeRate.den > 0
  {
    var g := env.cfg.genesisToken;
    forall a, t :: BalanceOf(after, a, t)
                   == BalanceOf(before, a, t) - If(a, t, tx.from, g, tx.gas * tx.gasPrice)
                      + If(a, t, env.miner, g, MulRate(tx.gas * tx.gasPrice, env.cfg.localFeeRate))
  }

  /** The gas the miner of the target shard is paid for a deposit. */
  function ChargedGas(env: Env, d: Deposit, checkIsFromRootChain: bool): nat {
    if !env.evmEnabled then GTXX_SHARD_COST
    else if (if checkIsFromRootChain then d.fromRoot else d.gasPrice == 0) then 0 else GTXX_SHARD_COST
  }

  /** The recipient gains the value, the miner its share, and after activation the sender the gas taken along. */
  ghost predicate Receiving(env: Env, d: Deposit, checkIsFromRootChain: bool, before: Balances, after: Balances)
    requires env.cfg.localFeeRate.den > 0
  {
    var g, left := env.cfg.genesisToken, if env.evmEnabled then d.gasRemained * d.gasPrice else 0;
    forall a, t :: BalanceOf(after, a, t)
                   == BalanceOf(before, a, t) + If(a, t, d.to, d.transferToken, d.value)
                      + If(a, t, d.from, g, RefundPart(left, d.refundRate)) + If(a, t, 0, g, left - RefundPart(left, d.refundRate))
                      + If(a, t, env.miner, g,
                           MulRate(ChargedGas(env, d, checkIsFromRootChain) * d.gasPrice, env.cfg.localFeeRate))
  }

  /** Before activation every deposit reaches its recipient, and nothing but balances changes. */
  lemma EarlyDelivery(vm: Vm, env: Env, m: Moment, d: Deposit, checkIsFromRootChain: bool)
    requires env.cfg.localFeeRate.den > 0 && !env.evmEnabled && d.gasToken == env.cfg.genesisToken
    ensures var next := AfterDeposit(vm, env, m, d, checkIsFromRootChain);
            && Receiving(env, d, checkIsFromRootChain, m.scene.balances, next.scene.balances)
            && next.scene == m.scene.(balances := next.scene.balances) && next.sent == m.sent && next.gp == m.gp
  {
    var b := Plus(m.scene.balances, d.to, d.value, d.transferToken);
    var fee := MulRate(GTXX_SHARD_COST * d.gasPrice, env.cfg.localFeeRate);
    BalancePlus(m.scene.balances, d.to, d.value, d.transferToken);
    BalancePlus(b, env.miner, fee, d.gasToken);
    assert d.gasPrice * GTXX_SHARD_COST == GTXX_SHARD_COST * d.gasPrice;
    hide BalanceOf, Plus, MulRate;
  }

  /** The recipient of a deposit has no code, and its sender has no stake here that the value would touch. */
  ghost predicate PlainArrival(vm: Vm, s: Scene, d: Deposit) {
    && !d.createContract && Codeless(vm, s.world, d.to) && s.refundCounter == 0 && d.refundRate <= 100
    && (d.from in s.senderDisallow ==>
          d.value + s.senderDisallow[d.from]
          <= BalanceOf(Plus(s.balances, d.from, d.value, d.transferToken), d.from, s.genesisToken))
  }

  lemma ArrivalCall(vm: Vm, s: Scene, d: Deposit)
    requires Solvent(s.balances) && PlainArrival(vm, s, d)
    ensures var credited := s.(balances := Plus(s.balances, d.from, d.value, d.transferToken));
            Outcome(vm, credited, MessageFor(d), false, true, d.gasRemained) ==
            VmOutcome(Moved(credited.balances, d.from, d.to, d.value, d.transferToken), s.nonces, s.world, d.gasRemained, 0, NoErr)
  {
    BalancePlus(s.balances, d.from, d.value, d.transferToken);
    assert BalanceOf(s.balances, d.from, d.transferToken) >= 0;
    hide BalanceOf, Plus, Moved, Solvent;
  }

  lemma ReceivingAt(env: Env, b: Balances, d: Deposit, checkIsFromRootChain: bool)
    requires env.cfg.localFeeRate.den > 0 && env.evmEnabled && d.refundRate <= 100
    ensures var moved := Moved(Plus(b, d.from, d.value, d.transferToken), d.from, d.to, d.value, d.transferToken);
            Receiving(env, d, checkIsFromRootChain, b,
                      FeePaid(Refunded(moved, env, MessageFor(d), d.gasRemained), env, MessageFor(d),
                              GasUsedStart(d, checkIsFromRootChain)))
  {
    var credited := Plus(b, d.from, d.value, d.transferToken);
    BalancePlus(b, d.from, d.value, d.transferToken);
    MovedAt(credited, d.from, d.to, d.value, d.transferToken);
    SettledAt(Moved(credited, d.from, d.to, d.value, d.transferToken), env, MessageFor(d), d.gasRemained,
              GasUsedStart(d, checkIsFromRootChain));
    hide BalanceOf, Plus, Moved, Refunded, FeePaid, MulRate, RefundPart;
  }

  /** After activation a deposit to an account without code reaches it, whatever moves the value on the way. */
  lemma PlainDelivery(vm: Vm, env: Env, m: Moment, d: Deposit, checkIsFromRootChain: bool)
    requires env.cfg.localFeeRate.den > 0 && env.evmEnabled && Solvent(m.scene.balances) && PlainArrival(vm, m.scene, d)
    ensures Deliverable(vm, true, m.scene, d)
    ensures var next := AfterDeposit(vm, env, m, d, checkIsFromRootChain);
            && Receiving(env, d, checkIsFromRootChain, m.scene.balances, next.scene.balances)
            && next.scene == m.scene.(balances := next.scene.balances) && next.sent == m.sent && next.gp == m.gp
  {
    ArrivalCall(vm, m.scene, d);
    ReceivingAt(env, m.scene.balances, d, checkIsFromRootChain);
    hide BalanceOf, Plus, Moved, Refunded, FeePaid, LocalFee, MulRate, RefundPart, Solvent, Receiving, PlainArrival, Outcome,
      CallEffect;
    var credited := m.scene.(balances := Plus(m.scene.balances, d.from, d.value, d.transferToken));
    FreeCall(vm, env, credited, MessageFor(d), true, d.gasRemained, GasUsedStart(d, checkIsFromRootChain),
             Moved(credited.balances, d.from, d.to, d.value, d.transferToken), m.scene.nonces);
  }

  /**
   * A cross-shard transfer from both ends, after activation: over both shards the recipient gains the value, the sender
   * loses it and the price of the gas due, and each shard's miner gets its share of the part due there.
   */
  lemma TransferArrives(vm: Vm, here: Env, there: Env, m: Moment, n: Moment, tx: Tx, to: Recipient, checkIsFromRootChain: bool)
    requires here.cfg == there.cfg && here.cfg.localFeeRate.den > 0 && here.evmEnabled && there.evmEnabled
    requires Ordinary(here, m, tx) && Unstaked(m, tx) && tx.isCrossShard && tx.to == Some(to)
    requires Applies(vm, here.cfg.nativeTokenContract, m.scene, tx, m.gp)
    requires Solvent(n.scene.balances) && Codeless(vm, n.scene.world, to) && n.scene.refundCounter == 0
    requires tx.from !in n.scene.senderDisallow
    ensures var sent := AfterTx(vm, here, m, tx);
            var d := Last(sent.sent);
            var next := AfterDeposit(vm, there, n, d, checkIsFromRootChain);
            && Deliverable(vm, true, n.scene, d)
            && AcrossBoth(here, there, tx, to, ChargedGas(there, d, checkIsFromRootChain), m.scene.balances, sent.scene.balances,
                          n.scene.balances, next.scene.balances)
  {
    PlainSend(vm, here, m, tx);
    var d := Last(AfterTx(vm, here, m, tx).sent);
    hide AfterTx, Applies, Codeless, Unstaked, PayingAcross, Solvent, AfterDeposit, Deliverable, Receiving, BalanceOf, Plus, DataGas,
      AcrossBoth;
    assert PlainArrival(vm, n.scene, d);
    PlainDelivery(vm, there, n, d, checkIsFromRootChain);
    var next := AfterDeposit(vm, there, n, d, checkIsFromRootChain);
    BothSides(here, there, tx, to, d, checkIsFromRootChain, m.scene.balances, AfterTx(vm, here, m, tx).scene.balances,
              n.scene.balances, next.scene.balances);
  }

  /** What both shards together gave to and took from every account. */
  ghost predicate AcrossBoth(here: Env, there: Env, tx: Tx, to: Recipient, charged: nat, before: Balances, after: Balances,
                             before': Balances, after': Balances)
    requires here.cfg.localFeeRate.den > 0 && there.cfg.localFeeRate.den > 0
  {
    var gas, g := DataGas(tx.data, false), here.cfg.genesisToken;
    forall a, t :: BalanceOf(after, a, t) - BalanceOf(before, a, t) + BalanceOf(after', a, t) - BalanceOf(before', a, t)
                   == If(a, t, to, tx.transferToken, tx.value) - If(a, t, tx.from, tx.transferToken, tx.value)
                      - If(a, t, tx.from, g, (gas + GTXX_SHARD_COST) * tx.gasPrice)
                      + If(a, t, here.miner, g, MulRate(gas * tx.gasPrice, here.cfg.localFeeRate))
                      + If(a, t, there.miner, g, MulRate(charged * tx.gasPrice, there.cfg.localFeeRate))
  }

  lemma BothSides(here: Env, there: Env, tx: Tx, to: Recipient, d: Deposit, checkIsFromRootChain: bool, before: Balances,
                  after: Balances, before': Balances, after': Balances)
    requires here.cfg == there.cfg && here.cfg.localFeeRate.den > 0 && there.evmEnabled
    requires tx.to == Some(to) && CarriesTx(here, tx, d) && PayingAcross(here, tx, before, after)
    requires Receiving(there, d, checkIsFromRootChain, before', after')
    ensures AcrossBoth(here, there, tx, to, ChargedGas(there, d, checkIsFromRootChain), before, after, before', after')
  {
    var gas := DataGas(tx.data, false);
    Distribute(gas + GTXX_SHARD_COST, Taken(here, tx), tx.gasPrice);
    FullRefund(d.gasRemained * d.gasPrice);
    hide BalanceOf, DataGas, MulRate, RefundPart, ChargedGas, Taken;
  }

  // ---------- all deposits of a block, before activation ----------

  /** What deposits bring an account of a token. */
  function Received(s: seq<Deposit>, a: Recipient, t: Token): nat {
    if s == [] then 0 else Received(s[..|s| - 1], a, t) + If(a, t, Last(s).to, Last(s).transferToken, Last(s).value)
  }

  /** The miner's shares of the fees of deposits. */
  function DepositFees(s: seq<Deposit>, rate: Rate): nat
    requires rate.den > 0
  {
    if s == [] then 0 else DepositFees(s[..|s| - 1], rate) + MulRate(GTXX_SHARD_COST * Last(s).gasPrice, rate)
  }

  /** Every account has gained what the deposits brought it, and the miner its shares. */
  ghost predicate Reached(g: Token, rate: Rate, miner: Recipient, s: seq<Deposit>, before: Balances, after: Balances)
    requires rate.den > 0
  {
    forall a, t :: BalanceOf(after, a, t) == BalanceOf(before, a, t) + Received(s, a, t) + If(a, t, miner, g, DepositFees(s, rate))
  }

  lemma ReachedNext(env: Env, s: seq<Deposit>, d: Deposit, checkIsFromRootChain: bool, before: Balances, middle: Balances,
                    after: Balances)
    requires env.cfg.localFeeRate.den > 0 && !env.evmEnabled
    requires Reached(env.cfg.genesisToken, env.cfg.localFeeRate, env.miner, s, before, middle)
    requires Receiving(env, d, checkIsFromRootChain, middle, after)
    ensures Reached(env.cfg.genesisToken, env.cfg.localFeeRate, env.miner, s + [d], before, after)
  {
    hide BalanceOf, MulRate;
    assert (s + [d])[..|s|] == s;
    assert RefundPart(0, d.refundRate) == 0;
  }

  /** Before activation a block's deposits reach their recipients, all of them and nobody else. */
  lemma {:induction false} EarlyArrivals(vm: Vm, env: Env, ddosFixRootHeight: nat, delivered: seq<Event>, ms: seq<Moment>)
    requires env.cfg.localFeeRate.den > 0 && !env.evmEnabled && ProtocolEvents(env.cfg.genesisToken, delivered)
    requires Arrivals(vm, env, ddosFixRootHeight, delivered, ms)
    ensures Reached(env.cfg.genesisToken, env.cfg.localFeeRate, env.miner, DepositsOf(delivered), ms[0].scene.balances,
                    Last(ms).scene.balances)
    decreases |delivered|
  {
    if delivered == [] {
      assert DepositsOf(delivered) == [];
    } else {
      var n := |delivered| - 1;
      var es, ns, e := delivered[..n], ms[..n + 1], delivered[n];
      forall i | 0 <= i < n
        ensures Arrives(vm, env, ddosFixRootHeight, ns[i], es[i], ns[i + 1])
      {
        assert es[i] == delivered[i];
      }
      EarlyArrivals(vm, env, ddosFixRootHeight, es, ns);
      hide AfterDeposit, Reached, Receiving, Deliverable, Received, DepositFees;
      EarlyDelivery(vm, env, ms[n], e.deposit, e.at.rootBlockHeight >= ddosFixRootHeight);
      ReachedNext(env, DepositsOf(es), e.deposit, e.at.rootBlockHeight >= ddosFixRootHeight, ms[0].scene.balances,
                  ms[n].scene.balances, ms[n + 1].scene.balances);
    }
  }

  // ---------- gas in other tokens, and rewards ----------

  /**
   * A conversion takes the converted gas money from the native-token contract and gives it what the sender will pay;
   * besides what the contract's own code did, nobody else is touched.
   */
  lemma ConversionMoves(vm: Vm, contract: Recipient, s: Scene, tx: Tx)
    requires Convert(vm, contract, s, tx).Some?
    ensures var c := Convert(vm, contract, s, tx).value;
            var p := vm.pay(s.world, s.balances, tx.gasToken, tx.gas, tx.gasPrice);
            && p.price == Some(c.price) && c.price > 0 && c.refundRate == p.refundRate
            && c.scene == s.(world := p.world, balances := c.scene.balances)
            && tx.gas * c.price <= BalanceOf(p.balances, contract, s.genesisToken)
            && forall a, t :: BalanceOf(c.scene.balances, a, t)
                              == BalanceOf(p.balances, a, t) - If(a, t, contract, s.genesisToken, tx.gas * c.price)
                                 + If(a, t, contract, tx.gasToken, tx.gas * tx.gasPrice)
  {
    var p := vm.pay(s.world, s.balances, tx.gasToken, tx.gas, tx.gasPrice);
    var given := Plus(p.balances, contract, -(tx.gas * p.price.value), s.genesisToken);
    BalancePlus(p.balances, contract, -(tx.gas * p.price.value), s.genesisToken);
    BalancePlus(given, contract, tx.gas * tx.gasPrice, tx.gasToken);
    hide BalanceOf, Plus;
  }

  /** A block reward goes to the miner and to nobody else. */
  lemma {:induction false} RewardedAt(b: Balances, miner: Recipient, reward: seq<(Token, nat)>)
    ensures forall a, t :: BalanceOf(Rewarded(b, miner, reward), a, t)
                           == BalanceOf(b, a, t) + if a == miner then Subsidy(reward, t) else 0
  {
    if reward != [] {
      var rest, last := reward[..|reward| - 1], reward[|reward| - 1];
      RewardedAt(b, miner, rest);
      BalancePlus(Rewarded(b, miner, rest), miner, last.1, last.0);
      hide BalanceOf, Plus;
    }
  }

  /** The refund counter is zero before and after every message of a block that starts with none. */
  lemma {:induction false} CountersReset(vm: Vm, env: Env, validate: (Moment, Tx) -> bool, ddosFixRootHeight: nat, start: Moment,
                                         block: MinorBlock, ahead: seq<Event>, t: Trail)
    requires env.cfg.localFeeRate.den > 0 && Traced(vm, env, validate, ddosFixRootHeight, start, block, ahead, t)
    requires start.scene.refundCounter == 0 && start.scene.genesisToken == env.cfg.genesisToken
    ensures forall i :: 0 <= i < |t.arrived| ==> Clean(env, t.arrived[i])
    ensures forall i :: 0 <= i < |t.applied| ==> Clean(env, t.applied[i])
  {
    hide Arrives, TxApplied;
    var i := 0;
    while i < |t.delivered|
      invariant 0 <= i <= |t.delivered| && forall k :: 0 <= k <= i ==> Clean(env, t.arrived[k])
    {
      assert t.delivered[i] == t.delivered[i];
      DepositIsClean(vm, env, ddosFixRootHeight, t.arrived[i], t.delivered[i], t.arrived[i + 1]);
      i := i + 1;
    }
    if t.applied != [] {
      var txs := block.txs[..|t.applied| - 1];
      i := 0;
      while i < |txs|
        invariant 0 <= i <= |txs| && forall k :: 0 <= k <= i ==> Clean(env, t.applied[k])
      {
        assert txs[i] == txs[i];
        TxIsClean(vm, env, validate, t.applied[i], txs[i], t.applied[i + 1]);
        i := i + 1;
      }
    }
  }

  predicate Clean(env: Env, m: Moment) {
    m.scene.refundCounter == 0 && m.scene.genesisToken == env.cfg.genesisToken
  }

  lemma DepositIsClean(vm: Vm, env: Env, ddosFixRootHeight: nat, m: Moment, e: Event, next: Moment)
    requires env.cfg.localFeeRate.den > 0 && Arrives(vm, env, ddosFixRootHeight, m, e, next) && Clean(env, m)
    ensures Clean(env, next)
  {
    hide Outcome, FeePaid, Refunded, LocalFee, Credited, Plus, MulRate, Blocks;
  }

  lemma TxIsClean(vm: Vm, env: Env, validate: (Moment, Tx) -> bool, m: Moment, tx: Tx, next: Moment)
    requires env.cfg.localFeeRate.den > 0 && TxApplied(vm, env, validate, m, tx, next) && Clean(env, m)
    ensures Clean(env, next)
  {
    hide Outcome, FeePaid, Refunded, LocalFee, Plus, MulRate, BalanceOf, DataGas, Settled, Forfeited;
  }

  /** The message a call is made with stands for the transaction. */
  ghost predicate StandsFor(msg: Message, tx: Tx) {
    && msg.from == tx.from && msg.to == tx.to && msg.nonce == tx.nonce && msg.checkNonce && msg.value == tx.value
    && msg.gas == tx.gas && msg.data == tx.data && msg.transferToken == tx.transferToken && msg.gasToken == tx.gasToken
    && msg.txHash == tx.hash && msg.toKey == tx.toKey && (msg.isCrossShard <==> tx.isCrossShard)
  }

  /** The same for a deposit: from its sender to its recipient, with the gas it took along. */
  ghost predicate StandsForDeposit(msg: Message, d: Deposit) {
    && msg.from == d.from && msg.to == Some(d.to) && !msg.checkNonce && msg.value == d.value && msg.gas == d.gasRemained
    && msg.gasPrice == d.gasPrice && msg.data == d.data && msg.transferToken == d.transferToken && msg.gasToken == d.gasToken
    && msg.refundRate == d.refundRate && msg.txHash == d.txHash && msg.toKey == d.toKey && !msg.isCrossShard
  }

  /**
   * Whatever the machine does with it, an in-shard transaction of a sender that may transfer is one call or creation
   * on the state after the gas is paid for, with the gas that is not due, and leaves what the machine leaves, settled.
   */
  lemma TxRuns(vm: Vm, env: Env, m: Moment, tx: Tx) returns (msg: Message)
    requires env.cfg.localFeeRate.den > 0 && Ordinary(env, m, tx) && Unstaked(m, tx) && !tx.isCrossShard
    requires Applies(vm, env.cfg.nativeTokenContract, m.scene, tx, m.gp)
    ensures StandsFor(msg, tx) && msg.gasPrice == tx.gasPrice && msg.refundRate == 100
    ensures var due := DataGas(tx.data, tx.to.None?);
            && due <= tx.gas
            && var o := vm.run(m.scene.world, Plus(m.scene.balances, tx.from, -(tx.gas * tx.gasPrice), tx.gasToken),
                               CallNonces(m.scene.nonces, msg, tx.to.None?, false), 0,
                               Call(tx.to.None?, msg, tx.gas - due, false));
               LeftBy(env, m.scene, msg, tx.gas, o, AfterTx(vm, env, m, tx).scene)
  {
    msg := MessageOf(tx, tx.gasPrice, 100);
    OrdinaryTx(vm, env, m, tx);
    UnstakedIsUnbarred(m, tx);
    hide BalanceOf, Plus, DataGas, FeePaid, Refunded, LocalFee, AfterTx, Applies, Unstaked, Barred;
  }

  /** The machine's state with the unused gas refunded and the rest charged. */
  ghost predicate LeftBy(env: Env, s: Scene, msg: Message, initialGas: nat, o: VmOutcome, next: Scene)
    requires env.cfg.localFeeRate.den > 0
  {
    var bonus := if o.err != NoErr || o.gasLeft > initialGas then 0
                 else if (initialGas - o.gasLeft) / 2 > o.refundCounter then o.refundCounter else (initialGas - o.gasLeft) / 2;
    var left := o.gasLeft + bonus;
    && next.nonces == o.nonces && next.world == o.world && next.refundCounter == 0
    && (left <= initialGas ==>
          next.balances == FeePaid(Refunded(o.balances, env, msg, left), env, msg, initialGas - left))
  }

  /** The same for a deposit after activation: its sender is credited with the value and the machine is called on that. */
  lemma DeliveryRuns(vm: Vm, env: Env, m: Moment, d: Deposit, checkIsFromRootChain: bool) returns (msg: Message)
    requires env.cfg.localFeeRate.den > 0 && env.evmEnabled
    requires d.createContract || d.from !in m.scene.senderDisallow
    ensures StandsForDeposit(msg, d)
    ensures var o := vm.run(m.scene.world, Plus(m.scene.balances, d.from, d.value, d.transferToken), m.scene.nonces,
                            m.scene.refundCounter, Call(d.createContract, msg, d.gasRemained, true));
            && (Deliverable(vm, true, m.scene, d) <==> o.err != InsufficientBalance)
            && LeftBy(env, m.scene, msg, d.gasRemained + ChargedGas(env, d, checkIsFromRootChain), o,
                      AfterDeposit(vm, env, m, d, checkIsFromRootChain).scene)
  {
    msg := MessageFor(d);
    hide BalanceOf, Plus, FeePaid, Refunded, LocalFee;
  }

  // ---------- a machine without contracts ----------

  /** A machine on which no account has code: calls move their value, creations only use up a nonce. */
  function PlainVm(): Vm {
    Vm((w: World, b: Balances, n: Nonces, k: nat, c: Call) =>
         if c.create || c.msg.to.None? then
           VmOutcome(b, n[c.msg.from := NonceIn(n, c.msg.from) + NoncesUsed(c, NoErr)], w, c.gas, k, NoErr)
         else if c.msg.value <= BalanceOf(b, c.msg.from, c.msg.transferToken) then
           VmOutcome(Moved(b, c.msg.from, c.msg.to.value, c.msg.value, c.msg.transferToken), n, w, c.gas, k, NoErr)
         else VmOutcome(b, n, w, c.gas, k, InsufficientBalance),
       (w: World, b: Balances, t: Token, g: nat, p: nat) => PayOutcome(b, w, 100, None), (a: Recipient, n: nat) => 0)
  }

  lemma MovedKeepsTotals(b: Balances, from: Recipient, to: Recipient, value: nat, token: Token)
    requires Solvent(b) && value <= BalanceOf(b, from, token)
    ensures KeepsTotals(b, Moved(b, from, to, value, token))
  {
    var amount: int := value;
    MovedAt(b, from, to, value, token);
    TotalPlus(b, from, -amount, token);
    TotalPlus(Plus(b, from, -amount, token), to, value, token);
    hide BalanceOf, Plus, Total;
  }

  /** It is a machine as the model asks for, and every account is without code on it. */
  lemma PlainVmIsOk()
    ensures VmOk(PlainVm()) && forall w, a :: Codeless(PlainVm(), w, a)
  {
    hide BalanceOf, Total, Solvent;
    forall w: World, b, n: Nonces, k: nat, c: Call | Solvent(b)
      ensures KeepsTotals(b, PlainVm().run(w, b, n, k, c).balances)
    {
      if !c.create && c.msg.to.Some? && c.msg.value <= BalanceOf(b, c.msg.from, c.msg.transferToken) {
        MovedKeepsTotals(b, c.msg.from, c.msg.to.value, c.msg.value, c.msg.transferToken);
      }
    }
  }
}
