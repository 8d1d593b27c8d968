/** Token balances and their totals, and the parts of the state database a transition touches. */
module Ledger {
  import opened Sums
  import opened ChainTypes

  type Row = map<Recipient, int>
  type Balances = map<Token, Row>

  /** Contract code, storage and whatever else the virtual machine keeps; never looked into. */
  type World = nat

  function RowOf(b: Balances, t: Token): Row {
    if t in b then b[t] else map[]
  }

  function BalanceOf(b: Balances, a: Recipient, t: Token): int {
    if a in RowOf(b, t) then RowOf(b, t)[a] else 0
  }

  function Plus(b: Balances, a: Recipient, amount: int, t: Token): Balances {
    b[t := RowOf(b, t)[a := BalanceOf(b, a, t) + amount]]
  }

  ghost function Total(b: Balances, t: Token): int {
    Sum(RowOf(b, t))
  }

  ghost predicate Solvent(b: Balances) {
    forall a, t :: BalanceOf(b, a, t) >= 0
  }

  lemma TotalPlus(b: Balances, a: Recipient, amount: int, t: Token)
    ensures forall u :: Total(Plus(b, a, amount, t), u) == Total(b, u) + if u == t then amount else 0
  {
    SumUpdate(RowOf(b, t), a, BalanceOf(b, a, t) + amount);
  }

  lemma BalancePlus(b: Balances, a: Recipient, amount: int, t: Token)
    ensures forall c, u :: BalanceOf(Plus(b, a, amount, t), c, u) ==
                           BalanceOf(b, c, u) + if c == a && u == t then amount else 0
  {
  }

  /** A rational rate num/den; multiplying rounds down. */
  datatype Rate = Rate(num: nat, den: nat)

  ghost predicate ProperRate(r: Rate) {
    0 < r.den && r.num <= r.den
  }

  function MulRate(x: nat, r: Rate): nat
    requires r.den > 0
  {
    x * r.num / r.den
  }

  lemma MulRateAtMost(x: nat, r: Rate)
    requires ProperRate(r)
    ensures MulRate(x, r) <= x
  {
    MulOrder(r.num, r.den, x);
    QuotientAtMost(x * r.num, r.den, x);
  }

  /** What miners got of their fees, against the tax kept back, is at most the local rate of both. */
  ghost predicate WithinRate(fee: nat, tax: nat, r: Rate) {
    fee * r.den <= (fee + tax) * r.num
  }

  /** One more fee, split by rounding down the miner's share, keeps miners within the rate. */
  lemma WithinRateKept(fee: nat, tax: nat, charged: nat, r: Rate)
    requires ProperRate(r) && WithinRate(fee, tax, r)
    ensures var share := MulRate(charged, r); share <= charged && WithinRate(fee + share, tax + (charged - share), r)
  {
    var share := MulRate(charged, r);
    MulRateAtMost(charged, r);
    QuotientTimes(charged * r.num, r.den);
    Distribute(fee, share, r.den);
    Distribute(fee + tax, charged, r.num);
  }

  lemma QuotientTimes(a: nat, d: nat)
    requires d > 0
    ensures (a / d) * d <= a < (a / d) * d + d
  {
  }

  lemma Distribute(a: int, b: int, k: int)
    ensures (a + b) * k == a * k + b * k
  {
  }

  lemma MulOrder(a: int, b: int, k: nat)
    requires a <= b
    ensures k * a <= k * b
  {
  }

  /** a / d is the largest q with d * q <= a. */
  lemma QuotientAtMost(a: int, d: int, q: int)
    requires d > 0 && a < d * (q + 1)
    ensures a / d <= q
  {
    if q + 1 <= a / d {
      MulOrder(q + 1, a / d, d);
      assert false;
    }
  }

  /** The money a deposit carries to its target shard: its value and its reserved gas. */
  function Carried(d: Deposit, t: Token): nat {
    (if t == d.transferToken then d.value else 0)
    + (if t == d.gasToken then (d.gasRemained + GTXX_SHARD_COST) * d.gasPrice else 0)
  }

  function Money(s: seq<Deposit>, t: Token): nat {
    if s == [] then 0 else Carried(s[0], t) + Money(s[1..], t)
  }

  lemma {:induction false} MoneyConcat(s: seq<Deposit>, r: seq<Deposit>, t: Token)
    ensures Money(s + r, t) == Money(s, t) + Money(r, t)
  {
    if s == [] {
      assert s + r == r;
    } else {
      assert (s + r)[1..] == s[1..] + r;
      MoneyConcat(s[1..], r, t);
    }
  }

  lemma MoneyAppend(s: seq<Deposit>, d: Deposit)
    ensures forall t :: Money(s + [d], t) == Money(s, t) + Carried(d, t)
  {
    forall t ensures Money(s + [d], t) == Money(s, t) + Carried(d, t) {
      MoneyConcat(s, [d], t);
      assert [d][1..] == [];
    }
  }

  type Nonces = map<Recipient, nat>

  function NonceIn(nonces: Nonces, a: Recipient): nat {
    if a in nonces then nonces[a] else 0
  }

  /** Chain-wide settings a transition reads. */
  datatype Settings = Settings(
    genesisToken: Token, localFeeRate: Rate, enableEvmTimestamp: nat, nativeTokenContract: Recipient)

  /** The state database of one shard while it executes a block. */
  class StateDB {
    const cfg: Settings
    const timestamp: nat
    const blockCoinbase: Recipient
    const senderDisallow: map<Recipient, int>
    var balances: Balances
    var nonces: Nonces
    var world: World
    var refundCounter: nat
    var gasUsed: nat
    var gasLimit: int
    var blockFee: nat
    var xShardList: seq<Deposit>
    /** Fee tax kept back from miners, reserved gas lost when activation lies between source and target,
        and money created by a refund rate above 100. */
    ghost var withheld: nat
    ghost var stranded: nat
    ghost var overRefunded: nat
    /** Gas charged to miners' accounts and gas refunded to senders so far. */
    ghost var gasCharged: nat
    ghost var gasRefunded: nat

    constructor (cfg: Settings, timestamp: nat, blockCoinbase: Recipient, senderDisallow: map<Recipient, int>,
                 balances: Balances, nonces: Nonces, world: World, gasLimit: int)
      ensures this.cfg == cfg && this.timestamp == timestamp && this.blockCoinbase == blockCoinbase
      ensures this.senderDisallow == senderDisallow && refundCounter == 0
      ensures this.balances == balances && this.nonces == nonces && this.world == world && this.gasLimit == gasLimit
      ensures gasUsed == blockFee == withheld == stranded == overRefunded == gasCharged == gasRefunded == 0
      ensures xShardList == []
    {
      this.cfg, this.timestamp, this.blockCoinbase, this.senderDisallow := cfg, timestamp, blockCoinbase, senderDisallow;
      this.balances, this.nonces, this.world, this.gasLimit := balances, nonces, world, gasLimit;
      refundCounter, gasUsed, blockFee, xShardList := 0, 0, 0, [];
      withheld, stranded, overRefunded, gasCharged, gasRefunded := 0, 0, 0, 0, 0;
    }

    ghost predicate Valid()
      reads this`balances, this`blockFee, this`withheld
    {
      Solvent(balances) && ProperRate(cfg.localFeeRate) && WithinRate(blockFee, withheld, cfg.localFeeRate)
    }

    predicate EvmEnabled() {
      timestamp >= cfg.enableEvmTimestamp
    }

    /**
     * Everything of token t this shard accounts for: balances, deposits it has sent, fee tax, and
     * stranded gas, less what over-refunding created.
     */
    ghost function Worth(t: Token): int
      reads this`balances, this`xShardList, this`withheld, this`stranded, this`overRefunded
    {
      Total(balances, t) + Money(xShardList, t)
      + if t == cfg.genesisToken then withheld + stranded - overRefunded else 0
    }

    function GetBalance(a: Recipient, t: Token): int
      reads this`balances
    {
      BalanceOf(balances, a, t)
    }

    method AddBalance(a: Recipient, amount: int, t: Token)
      requires Valid() && amount >= 0
      modifies this`balances
      ensures Valid() && balances == Plus(old(balances), a, amount, t)
      ensures forall u :: Worth(u) == old(Worth(u)) + if u == t then amount else 0
    {
      TotalPlus(balances, a, amount, t);
      BalancePlus(balances, a, amount, t);
      hide Plus, BalanceOf, Total;
      balances := Plus(balances, a, amount, t);
    }

    method SubBalance(a: Recipient, amount: int, t: Token)
      requires Valid() && 0 <= amount <= GetBalance(a, t)
      modifies this`balances
      ensures Valid() && balances == Plus(old(balances), a, -amount, t)
      ensures forall u :: Worth(u) == old(Worth(u)) - if u == t then amount else 0
    {
      TotalPlus(balances, a, -amount, t);
      BalancePlus(balances, a, -amount, t);
      hide Plus, BalanceOf, Total;
      balances := Plus(balances, a, -amount, t);
    }

    method AppendXShardList(d: Deposit)
      modifies this`xShardList
      ensures xShardList == old(xShardList) + [d]
      ensures forall u :: Worth(u) == old(Worth(u)) + Carried(d, u)
    {
      MoneyAppend(xShardList, d);
      xShardList := xShardList + [d];
    }
  }
}
