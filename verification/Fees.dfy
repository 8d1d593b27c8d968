/** Root rewards: the fee tax minor miners gave up, and a base amount that decays by epoch. */
module Fees {
  import opened BlockTree
  import opened ChainTypes
  import opened Ledger

  type Tokens = map<Token, nat>

  function Amount(m: Tokens, t: Token): nat {
    if t in m then m[t] else 0
  }

  /** What the confirmed minor blocks paid their miners in token t. */
  function Paid(known: map<Hash, Tokens>, headers: seq<Hash>, t: Token): nat {
    if headers == [] then 0
    else Paid(known, headers[..|headers| - 1], t)
         + if headers[|headers| - 1] in known then Amount(known[headers[|headers| - 1]], t) else 0
  }

  /** Adds the entries of one balance map to another. */
  method AddTokens(a: Tokens, b: Tokens) returns (c: Tokens)
    ensures forall t :: Amount(c, t) == Amount(a, t) + Amount(b, t)
  {
    c := a;
    var todo := b.Keys;
    while todo != {}
      invariant todo <= b.Keys
      invariant forall t :: t in todo ==> Amount(c, t) == Amount(a, t)
      invariant forall t :: t !in todo ==> Amount(c, t) == Amount(a, t) + Amount(b, t)
      decreases |todo|
    {
      var k :| k in todo;
      c := c[k := Amount(c, k) + b[k]];
      todo := todo - {k};
    }
  }

  /** Scales every entry by the rate, rounding down. */
  method ScaleTokens(a: Tokens, ratio: Rate) returns (c: Tokens)
    requires ratio.den > 0
    ensures forall t :: Amount(c, t) == MulRate(Amount(a, t), ratio)
  {
    c := a;
    var todo := a.Keys;
    while todo != {}
      invariant todo <= a.Keys && c.Keys == a.Keys
      invariant forall t :: t in a ==> c[t] == if t in todo then a[t] else MulRate(a[t], ratio)
      decreases |todo|
    {
      var k :| k in todo;
      c := c[k := MulRate(c[k], ratio)];
      todo := todo - {k};
    }
  }

  /** The root block's coinbase: a share of what its minor blocks paid, plus the base reward. */
  method CalculateRootBlockCoinBase(known: map<Hash, Tokens>, headers: seq<Hash>, ratio: Rate,
                                    genesisToken: Token, baseReward: nat) returns (r: Option<Tokens>)
    requires ratio.den > 0
    ensures r.None? <==> exists i :: 0 <= i < |headers| && headers[i] !in known
    ensures r.Some? ==>
              forall t :: Amount(r.value, t) ==
                          MulRate(Paid(known, headers, t), ratio) + if t == genesisToken then baseReward else 0
  {
    for i := 0 to |headers|
      invariant forall j :: 0 <= j < i ==> headers[j] in known
    {
      if headers[i] !in known {
        return None;
      }
    }
    var sum: Tokens := map[];
    for i := 0 to |headers|
      invariant forall t :: Amount(sum, t) == Paid(known, headers[..i], t)
    {
      assert headers[..i + 1][..i] == headers[..i];
      sum := AddTokens(sum, known[headers[i]]);
    }
    assert headers[..|headers|] == headers;
    var scaled := ScaleTokens(sum, ratio);
    return Some(scaled[genesisToken := Amount(scaled, genesisToken) + baseReward]);
  }

  // ---------- the split of a fee ----------

  /** A reward tax of n/d below one, and the two rates derived from it. */
  function LocalFeeRate(n: nat, d: nat): Rate
    requires n < d
  {
    Rate(d - n, d)
  }

  function RewardCalculateRate(n: nat, d: nat): Rate
    requires n < d
  {
    Rate(n, d - n)
  }

  /** The fees charged one by one, and the miners' floored shares of them. */
  function Charged(fees: seq<nat>): nat {
    if fees == [] then 0 else fees[0] + Charged(fees[1..])
  }

  function MinerShares(fees: seq<nat>, rate: Rate): nat
    requires rate.den > 0
  {
    if fees == [] then 0 else MulRate(fees[0], rate) + MinerShares(fees[1..], rate)
  }

  /** Rounding down each fee keeps the miners within the local rate of all fees. */
  lemma {:induction false} SharesWithinRate(fees: seq<nat>, n: nat, d: nat)
    requires n < d
    ensures MinerShares(fees, LocalFeeRate(n, d)) * d <= Charged(fees) * (d - n)
  {
    if fees != [] {
      SharesWithinRate(fees[1..], n, d);
      var share := MulRate(fees[0], LocalFeeRate(n, d));
      QuotientTimes(fees[0] * (d - n), d);
      Distribute(share, MinerShares(fees[1..], LocalFeeRate(n, d)), d);
      Distribute(fees[0], Charged(fees[1..]), d - n);
    }
  }

  /**
   * The root share of rewards and fees together is at most the root share of the rewards alone plus
   * the tax withheld from the fees: re-minting the tax never creates more than was withheld.
   */
  lemma RootShareWithinTax(fees: seq<nat>, rewards: nat, n: nat, d: nat)
    requires n < d
    ensures MinerShares(fees, LocalFeeRate(n, d)) <= Charged(fees)
    ensures MulRate(rewards + MinerShares(fees, LocalFeeRate(n, d)), RewardCalculateRate(n, d))
            <= MulRate(rewards, RewardCalculateRate(n, d)) + (Charged(fees) - MinerShares(fees, LocalFeeRate(n, d)))
  {
    var m, f := MinerShares(fees, LocalFeeRate(n, d)), Charged(fees);
    SharesWithinRate(fees, n, d);
    SharesAtMostFees(m, f, n, d);
    FloorOfSum(rewards, m, f - m, n, d - n);
  }

  lemma SharesAtMostFees(m: nat, f: nat, n: nat, d: nat)
    requires n < d && m * d <= f * (d - n)
    ensures m <= f && m * n <= (f - m) * (d - n)
  {
    assert f * (d - n) == f * d - f * n;
    if m > f {
      MulOrder(f + 1, m, d);
      Distribute(f, 1, d);
      MulOrder(0, n, f);
    }
    assert m * d == m * n + m * (d - n);
    Distribute(f - m, m, d - n);
  }

  lemma FloorOfSum(s: nat, m: nat, k: nat, n: nat, e: nat)
    requires e > 0 && m * n <= k * e
    ensures (s + m) * n / e <= s * n / e + k
  {
    Distribute(s, m, n);
    QuotientTimes(s * n, e);
    Distribute(s * n / e, k, e);
    Distribute(s * n / e + k, 1, e);
    QuotientAtMost((s + m) * n, e, s * n / e + k);
  }

  /** Without block rewards the two floored shares of the fees never exceed the fees. */
  lemma FeeSplitNeverInflates(fees: seq<nat>, n: nat, d: nat)
    requires n < d
    ensures var m := MinerShares(fees, LocalFeeRate(n, d));
            m + MulRate(m, RewardCalculateRate(n, d)) <= Charged(fees)
  {
    RootShareWithinTax(fees, 0, n, d);
    assert MulRate(0, RewardCalculateRate(n, d)) == 0;
  }

  // ---------- the coinbase of a root block, against the fees of its blocks ----------

  /** What the miner of a block got in the genesis token, and the tax kept back from its fees. */
  datatype Earned = Earned(reward: nat, fee: nat, tax: nat)

  ghost function AllEarned(earned: map<Hash, Earned>, headers: seq<Hash>): Earned
    requires forall i :: 0 <= i < |headers| ==> headers[i] in earned
  {
    if headers == [] then Earned(0, 0, 0)
    else
      var rest, e := AllEarned(earned, headers[..|headers| - 1]), earned[headers[|headers| - 1]];
      Earned(rest.reward + e.reward, rest.fee + e.fee, rest.tax + e.tax)
  }

  /** The blocks' recorded coinbase amounts are their rewards and their miners' shares of the fees. */
  ghost predicate Recorded(known: map<Hash, Tokens>, headers: seq<Hash>, earned: map<Hash, Earned>, t: Token, rate: Rate) {
    forall i :: 0 <= i < |headers| ==>
      && headers[i] in known && headers[i] in earned
      && Amount(known[headers[i]], t) == earned[headers[i]].reward + earned[headers[i]].fee
      && WithinRate(earned[headers[i]].fee, earned[headers[i]].tax, rate)
  }

  lemma {:induction false} EarnedAddsUp(known: map<Hash, Tokens>, headers: seq<Hash>, earned: map<Hash, Earned>, t: Token,
                                        rate: Rate)
    requires Recorded(known, headers, earned, t, rate)
    ensures var all := AllEarned(earned, headers);
            Paid(known, headers, t) == all.reward + all.fee && WithinRate(all.fee, all.tax, rate)
  {
    if headers != [] {
      var n := |headers| - 1;
      EarnedAddsUp(known, headers[..n], earned, t, rate);
      var rest, e := AllEarned(earned, headers[..n]), earned[headers[n]];
      Distribute(rest.fee, e.fee, rate.den);
      Distribute(rest.fee + rest.tax, e.fee + e.tax, rate.num);
    }
  }

  /** Of any miner shares within the local rate, the floored root share is at most the tax. */
  lemma ShareWithinTax(reward: nat, fee: nat, tax: nat, n: nat, d: nat)
    requires n < d && WithinRate(fee, tax, LocalFeeRate(n, d))
    ensures MulRate(reward + fee, RewardCalculateRate(n, d)) <= MulRate(reward, RewardCalculateRate(n, d)) + tax
  {
    SharesAtMostFees(fee, fee + tax, n, d);
    FloorOfSum(reward, fee, tax, n, d - n);
  }

  /**
   * The coinbase of a root block over executed blocks: what it mints beyond its share of their rewards and
   * its base reward is at most the tax those blocks kept back from their fees.
   */
  method RootBlockCoinbase(known: map<Hash, Tokens>, headers: seq<Hash>, n: nat, d: nat, genesisToken: Token,
                           baseReward: nat, ghost earned: map<Hash, Earned>) returns (r: Option<Tokens>)
    requires n < d && Recorded(known, headers, earned, genesisToken, LocalFeeRate(n, d))
    ensures r.Some?
    ensures var all := AllEarned(earned, headers);
            Amount(r.value, genesisToken) <= MulRate(all.reward, RewardCalculateRate(n, d)) + all.tax + baseReward
  {
    EarnedAddsUp(known, headers, earned, genesisToken, LocalFeeRate(n, d));
    ghost var all := AllEarned(earned, headers);
    ShareWithinTax(all.reward, all.fee, all.tax, n, d);
    r := CalculateRootBlockCoinBase(known, headers, RewardCalculateRate(n, d), genesisToken, baseReward);
  }
}
