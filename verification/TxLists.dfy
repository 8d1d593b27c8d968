/** One account's pending or queued transactions: replacement by price, and filtering by cost and gas. */
module TxLists {
  import opened BlockTree
  import opened ChainTypes
  import opened Nonces

  /** What an account can spend, by token. */
  type Limits = map<Token, nat>

  function Limit(limits: Limits, token: Token): nat {
    if token in limits then limits[token] else 0
  }

  predicate Affordable(limits: Limits, gasLimit: nat, tx: Tx) {
    tx.cost <= Limit(limits, tx.transferToken) && tx.gas <= gasLimit
  }

  function TooMuch(limits: Limits, gasLimit: nat): Tx -> bool {
    tx => !Affordable(limits, gasLimit, tx)
  }

  ghost predicate AllAffordable(m: Txs, limits: Limits, gasLimit: nat) {
    forall n :: n in m ==> Affordable(limits, gasLimit, m[n])
  }

  /** Every nonce between two nonces of m is in m. */
  ghost predicate GapFree(m: Txs) {
    forall a, b, c :: a in m && c in m && a <= b <= c ==> b in m
  }

  lemma GapFreeParts(m: Txs, n: nat)
    requires GapFree(m)
    ensures GapFree(Below(m, n)) && GapFree(From(m, n))
  {
    forall a, b, c | a in Below(m, n) && c in Below(m, n) && a <= b <= c
      ensures b in Below(m, n)
    {
      assert b in m;
    }
    forall a, b, c | a in From(m, n) && c in From(m, n) && a <= b <= c
      ensures b in From(m, n)
    {
      assert b in m;
    }
  }

  lemma GapFreeCap(m: Txs, k: nat)
    requires GapFree(m) && ByNonce(m)
    ensures GapFree(Lowest(m, k))
  {
    var s := HasFlat(m);
    if k >= |m| {
      AllLow(m, k);
    } else {
      FlatRanks(s, m);
      LowestIsBelow(s, m, k);
      GapFreeParts(m, s[k].nonce);
    }
  }

  /** The three parts have no nonce in common and make up the whole. */
  ghost predicate Partition(whole: Txs, a: Txs, b: Txs, c: Txs) {
    && a.Keys !! b.Keys && a.Keys !! c.Keys && b.Keys !! c.Keys
    && whole == a + b + c
  }

  /** Cutting a list at a nonce, or after its k lowest, splits it in two. */
  lemma CutPartition(m: Txs, n: nat, k: nat)
    ensures Partition(m, Below(m, n), From(m, n), map[])
    ensures Partition(m, Lowest(m, k), Highest(m, k), map[])
  {
    hide Rank;
  }

  /** Capping leaves as many as asked for, if there are as many. */
  lemma CapSize(m: Txs, k: nat)
    requires ByNonce(m)
    ensures |Lowest(m, k)| == if k < |m| then k else |m|
    ensures |Highest(m, k)| == if k < |m| then |m| - k else 0
  {
    hide Lowest, Highest, Flat, Rank;
    if k < |m| {
      var s := HasFlat(m);
      FlatRanks(s, m);
      FlatCap(s, m, k);
      HighestByNonce(m, k);
      FlatRanks(s[..k], Lowest(m, k));
      FlatRanks(s[k..], Highest(m, k));
    } else {
      AllLow(m, k);
    }
  }

  /** Capping twice is capping once. */
  lemma CapTwice(m: Txs, j: nat, k: nat)
    requires ByNonce(m) && k <= j <= |m|
    ensures Lowest(Lowest(m, j), k) == Lowest(m, k)
  {
    hide Lowest, Highest, Flat, Rank;
    var s := HasFlat(m);
    FlatRanks(s, m);
    FlatCap(s, m, j);
    FlatCap(s, m, k);
    FlatCap(s[..j], Lowest(m, j), k);
    assert s[..j][..k] == s[..k];
    FlatDetermines(s[..k], Lowest(Lowest(m, j), k), Lowest(m, k));
  }

  lemma HighestByNonce(m: Txs, k: nat)
    requires ByNonce(m)
    ensures ByNonce(Highest(m, k))
  {
  }

  /** The first number from n on that is no nonce of m. */
  function RunEnd(m: Txs, n: nat): (e: nat)
    ensures e >= n && e !in m && forall k :: n <= k < e ==> k in m
    decreases |From(m, n).Keys|
  {
    if n in m then
      assert From(m, n).Keys == From(m, n + 1).Keys + {n};
      RunEnd(m, n + 1)
    else n
  }

  /** The transactions that Ready takes out: the lowest run, if it starts no higher than `start`. */
  function Executable(m: Txs, start: nat): (r: Txs)
    requires ByNonce(m)
    ensures ByNonce(r)
  {
    if m == map[] || Least(m) > start then map[] else Below(m, RunEnd(m, Least(m)))
  }

  /** The run that the loop pops is that one. */
  lemma RunIsExecutable(s: seq<Tx>, m: Txs, start: nat)
    requires ByNonce(m) && IsRun(s, m) && s[0].nonce <= start
    ensures Flat(s, Executable(m, start)) && From(m, s[0].nonce + |s|) == m - Executable(m, start).Keys
  {
    var first, e := s[0].nonce, s[0].nonce + |s|;
    assert first in m && Least(m) == first;
    forall k | first <= k < e
      ensures k in m
    {
      assert s[k - first].nonce == k;
    }
    assert RunEnd(m, first) == e;
    forall n | n in Executable(m, start)
      ensures m[n] in s
    {
      assert s[n - first].nonce == n;
    }
  }

  /** A transaction replaces another only at a price that is higher, and higher by the bump in percent. */
  predicate Outbids(tx: Tx, prior: Tx, priceBump: nat) {
    prior.gasPrice < tx.gasPrice && prior.gasPrice * (100 + priceBump) / 100 <= tx.gasPrice
  }

  /** In whole numbers: the price is higher, and falls short of the raised one by less than a hundredth of a unit. */
  lemma OutbidsIff(tx: Tx, prior: Tx, priceBump: nat)
    ensures Outbids(tx, prior, priceBump) <==>
            prior.gasPrice < tx.gasPrice && prior.gasPrice * (100 + priceBump) < 100 * tx.gasPrice + 100
  {
    var raised := prior.gasPrice * (100 + priceBump);
    assert 100 * (raised / 100) <= raised < 100 * (raised / 100) + 100;
  }

  predicate Accepts(m: Txs, tx: Tx, priceBump: nat) {
    tx.nonce in m ==> Outbids(tx, m[tx.nonce], priceBump)
  }

  // ---------- lists as values ----------

  /** The contents of a list and its caps. */
  datatype ListState = ListState(strict: bool, txs: Txs, costcap: Limits, gascap: nat)

  /** The caps bound the cost, token by token, and the gas of everything in the list. */
  ghost predicate Capped(l: ListState) {
    ByNonce(l.txs) && AllAffordable(l.txs, l.costcap, l.gascap)
  }

  function Added(l: ListState, tx: Tx): ListState {
    l.(txs := l.txs[tx.nonce := tx],
    costcap := if Limit(l.costcap, tx.transferToken) < tx.cost then l.costcap[tx.transferToken := tx.cost] else l.costcap,
    gascap := if l.gascap < tx.gas then tx.gas else l.gascap)
  }

  /** The short cut of Filter: some token of the limits covers its cap, and the gas limit its cap. */
  predicate Covered(l: ListState, limits: Limits, gasLimit: nat) {
    exists t :: t in limits && Limit(l.costcap, t) <= limits[t] && l.gascap <= gasLimit
  }

  function Least(m: Txs): (n: nat)
    requires m != map[] && ByNonce(m)
    ensures n in m && forall k :: k in m ==> n <= k
  {
    LeastExists(m);
    var n :| n in m && forall k :: k in m ==> n <= k;
    n
  }

  lemma LeastExists(m: Txs)
    requires m != map[] && ByNonce(m)
    ensures exists n :: n in m && forall k :: k in m ==> n <= k
  {
    var s := HasFlat(m);
    var k :| k in m;
    assert m[k] in s;
    FlatHead(s, m);
    assert s[0].nonce in m;
  }

  /** What Filter takes out for its cost or gas. */
  function Unpayable(l: ListState, limits: Limits, gasLimit: nat): (r: Txs)
    requires ByNonce(l.txs)
    ensures ByNonce(r)
  {
    if Covered(l, limits, gasLimit) then map[] else Only(l.txs, TooMuch(limits, gasLimit))
  }

  /** What a strict list takes out besides, for being above the lowest of those. */
  function Invalidated(l: ListState, limits: Limits, gasLimit: nat): Txs
    requires ByNonce(l.txs)
  {
    var over := Unpayable(l, limits, gasLimit);
    if !l.strict || over == map[] then map[]
    else From(Without(l.txs, TooMuch(limits, gasLimit)), Least(over) + 1)
  }

  function Filtered(l: ListState, limits: Limits, gasLimit: nat): ListState
    requires ByNonce(l.txs)
  {
    if Covered(l, limits, gasLimit) then l
    else
      var over := Unpayable(l, limits, gasLimit);
      l.(costcap := limits, gascap := gasLimit,
      txs := if over == map[] then l.txs
      else if l.strict then Below(l.txs, Least(over))
      else Without(l.txs, TooMuch(limits, gasLimit)))
  }

  /** Filter splits a list into what stays, what is unpayable and what that invalidates. */
  lemma FilterPartition(l: ListState, limits: Limits, gasLimit: nat)
    requires ByNonce(l.txs)
    ensures Partition(l.txs, Filtered(l, limits, gasLimit).txs, Unpayable(l, limits, gasLimit),
                      Invalidated(l, limits, gasLimit))
  {
    hide Covered, Affordable;
  }

  /** What stays is affordable if the short cut was not taken; if it was, exactly if all was affordable. */
  lemma FilterAffordable(l: ListState, limits: Limits, gasLimit: nat)
    requires ByNonce(l.txs)
    ensures AllAffordable(Filtered(l, limits, gasLimit).txs, limits, gasLimit) <==>
            (Covered(l, limits, gasLimit) ==> AllAffordable(l.txs, limits, gasLimit))
  {
    hide Covered, Affordable;
    if !Covered(l, limits, gasLimit) {
      var over := Unpayable(l, limits, gasLimit);
      if over == map[] {
        forall n | n in l.txs
          ensures Affordable(limits, gasLimit, l.txs[n])
        {
          assert n !in over;
        }
      } else if l.strict {
        forall n | n in l.txs && n < Least(over)
          ensures Affordable(limits, gasLimit, l.txs[n])
        {
          assert n !in over;
        }
      }
    }
  }

  /** With a single token the short cut is taken only when it is safe. */
  lemma OneToken(l: ListState, limits: Limits, gasLimit: nat, token: Token)
    requires Capped(l) && limits.Keys == {token} && forall n :: n in l.txs ==> l.txs[n].transferToken == token
    ensures AllAffordable(Filtered(l, limits, gasLimit).txs, limits, gasLimit)
  {
    FilterAffordable(l, limits, gasLimit);
  }

  /** A second token in the account, which no transaction spends, keeps an unpayable one in the list. */
  lemma SecondTokenShields()
    ensures var tx := Tx(1, 1, 0, 1, 0, 100, 7);
            var l := Added(ListState(true, map[], map[], 0), tx);
            var limits: Limits := map[7 := 0, 8 := 1];
            Capped(l) && Filtered(l, limits, 0).txs == l.txs && !AllAffordable(l.txs, limits, 0)
  {
    var tx := Tx(1, 1, 0, 1, 0, 100, 7);
    var l := Added(ListState(true, map[], map[], 0), tx);
    var limits: Limits := map[7 := 0, 8 := 1];
    assert 8 in limits && Limit(l.costcap, 8) <= limits[8];
    assert 0 in l.txs && !Affordable(limits, 0, l.txs[0]);
  }

  /** Filtering keeps a strict list without gaps. */
  lemma FilterGapFree(l: ListState, limits: Limits, gasLimit: nat)
    requires ByNonce(l.txs) && l.strict && GapFree(l.txs)
    ensures GapFree(Filtered(l, limits, gasLimit).txs)
  {
    var over := Unpayable(l, limits, gasLimit);
    if over != map[] {
      GapFreeParts(l.txs, Least(over));
    }
  }

  lemma FilterCapped(l: ListState, limits: Limits, gasLimit: nat)
    requires Capped(l)
    ensures Capped(Filtered(l, limits, gasLimit))
  {
    FilterAffordable(l, limits, gasLimit);
  }

  /** Without the transaction of one nonce, a list is what is above that nonce and what is below it. */
  lemma AboveAndBelow(m: Txs, n: nat)
    requires ByNonce(m)
    ensures Only(m - {n}, Above(n)) == From(m, n + 1) && Without(m - {n}, Above(n)) == Below(m, n)
  {
  }

  class TxList {
    const strict: bool
    const txs: TxSortedMap
    var costcap: Limits
    var gascap: nat

    constructor (strict: bool)
      ensures Valid() && fresh(txs) && this.strict == strict && txs.items == map[]
    {
      txs := new TxSortedMap();
      this.strict, costcap, gascap := strict, map[], 0;
    }

    ghost function View(): ListState
      reads this, txs
    {
      ListState(strict, txs.items, costcap, gascap)
    }

    ghost predicate Valid()
      reads this, txs
    {
      txs.Valid() && Capped(View())
    }

    method Add(tx: Tx, priceBump: nat) returns (inserted: bool, prior: Option<Tx>)
      requires Valid()
      modifies this, txs
      ensures Valid()
      ensures inserted <==> Accepts(old(txs.items), tx, priceBump)
      ensures View() == if inserted then Added(old(View()), tx) else old(View())
      ensures inserted ==> prior == if tx.nonce in old(txs.items) then Some(old(txs.items)[tx.nonce]) else None
    {
      prior := if tx.nonce in txs.items then Some(txs.items[tx.nonce]) else None;
      if prior.Some? {
        var threshold := prior.value.gasPrice * (100 + priceBump) / 100;
        if prior.value.gasPrice >= tx.gasPrice || threshold > tx.gasPrice {
          return false, None;
        }
      }
      txs.Put(tx);
      if Limit(costcap, tx.transferToken) < tx.cost {
        costcap := costcap[tx.transferToken := tx.cost];
      }
      if gascap < tx.gas {
        gascap := tx.gas;
      }
      inserted := true;
    }

    method Forward(threshold: nat) returns (removed: seq<Tx>)
      requires Valid()
      modifies txs
      ensures Valid() && txs.items == From(old(txs.items), threshold)
      ensures Flat(removed, Below(old(txs.items), threshold))
    {
      hide Flat;
      removed := txs.Forward(threshold);
    }

    method Cap(threshold: nat) returns (drops: seq<Tx>)
      requires Valid()
      modifies txs
      ensures Valid() && txs.items == Lowest(old(txs.items), threshold)
      ensures Flat(Reversed(drops), Highest(old(txs.items), threshold))
    {
      hide Flat, Rank;
      drops := txs.Cap(threshold);
    }

    /** Removes by nonce; a strict list also gives up everything above it. */
    method Remove(tx: Tx) returns (found: bool, invalids: seq<Tx>)
      requires Valid()
      modifies txs
      ensures Valid() && (found <==> tx.nonce in old(txs.items))
      ensures strict && found ==> txs.items == Below(old(txs.items), tx.nonce)
      ensures strict && found ==> Lists(invalids, From(old(txs.items), tx.nonce + 1))
      ensures !strict || !found ==> txs.items == old(txs.items) - {tx.nonce} && invalids == []
    {
      hide Lists, Heap, Flat, Above, Only, Without, From;
      AboveAndBelow(txs.items, tx.nonce);
      found := txs.Remove(tx.nonce);
      if !found {
        return false, [];
      }
      if strict {
        invalids := txs.Filter(Above(tx.nonce));
        return true, invalids;
      }
      return true, [];
    }

    method IsCovered(limits: Limits, gasLimit: nat) returns (covered: bool)
      ensures covered <==> Covered(View(), limits, gasLimit)
    {
      var left := limits.Keys;
      while left != {}
        invariant left <= limits.Keys
        invariant forall t :: t in limits && t !in left ==> !(Limit(costcap, t) <= limits[t] && gascap <= gasLimit)
      {
        var t :| t in left;
        if Limit(costcap, t) <= limits[t] && gascap <= gasLimit {
          return true;
        }
        left := left - {t};
      }
      return false;
    }

    /**
     * Takes out what costs more or needs more gas than there is; a strict list also gives up everything
     * above. Once one token is covered it does nothing.
     */
    method Filter(limits: Limits, gasLimit: nat) returns (removed: seq<Tx>, invalids: seq<Tx>)
      requires Valid()
      modifies this, txs
      ensures Valid() && View() == Filtered(old(View()), limits, gasLimit)
      ensures Lists(removed, Unpayable(old(View()), limits, gasLimit))
      ensures Lists(invalids, Invalidated(old(View()), limits, gasLimit))
    {
      hide Covered, Lists, Flat, Heap, AllAffordable, Only, Without, Below, From, TooMuch, Above, TxSortedMap.Valid;
      FilterCapped(View(), limits, gasLimit);
      NoneListed();
      var covered := IsCovered(limits, gasLimit);
      if covered {
        return [], [];
      }
      costcap, gascap := limits, gasLimit;
      removed := txs.Filter(TooMuch(limits, gasLimit));
      invalids := [];
      ListedEmpty(removed, Unpayable(old(View()), limits, gasLimit));
      if |removed| == 0 {
        assert txs.items == old(txs.items) by {
          NothingOver(old(View()), limits, gasLimit);
        }
      } else if strict {
        var lowest := LowestNonce(removed);
        LowestIsLeast(removed, Unpayable(old(View()), limits, gasLimit), lowest);
        AboveLowest(old(View()), limits, gasLimit, lowest);
        invalids := txs.Filter(Above(lowest));
      }
    }

    /** Takes out what can be executed from `start` on. */
    method Ready(start: nat) returns (ready: seq<Tx>)
      requires Valid()
      modifies txs
      ensures Valid() && Flat(ready, Executable(old(txs.items), start))
      ensures txs.items == old(txs.items) - Executable(old(txs.items), start).Keys
    {
      hide Flat, Below, RunEnd, IsRun;
      ghost var m := txs.items;
      ready := txs.Ready(start);
      if m != map[] && Least(m) <= start {
        FirstOfRun(ready, m);
        RunIsExecutable(ready, m, start);
      } else {
        NoneFlat();
        assert m - {} == m;
      }
    }
  }

  lemma FirstOfRun(s: seq<Tx>, m: Txs)
    requires ByNonce(m) && IsRun(s, m)
    ensures m != map[] && s[0].nonce == Least(m)
  {
    assert s[0].nonce in m;
  }

  function Above(n: nat): Tx -> bool {
    (tx: Tx) => tx.nonce > n
  }

  method LowestNonce(s: seq<Tx>) returns (lowest: nat)
    requires s != []
    ensures (exists i :: 0 <= i < |s| && lowest == s[i].nonce) && forall i :: 0 <= i < |s| ==> lowest <= s[i].nonce
  {
    lowest := s[0].nonce;
    for i := 1 to |s|
      invariant exists j :: 0 <= j < i && lowest == s[j].nonce
      invariant forall j :: 0 <= j < i ==> lowest <= s[j].nonce
    {
      if lowest > s[i].nonce {
        lowest := s[i].nonce;
      }
    }
  }

  lemma NoneListed()
    ensures Lists([], map[])
  {
  }

  lemma ListedEmpty(s: seq<Tx>, m: Txs)
    requires Lists(s, m)
    ensures s == [] <==> m == map[]
  {
    if s != [] {
      assert s[0].nonce in m;
    }
  }

  lemma NothingOver(l: ListState, limits: Limits, gasLimit: nat)
    requires ByNonce(l.txs) && Only(l.txs, TooMuch(limits, gasLimit)) == map[]
    ensures Without(l.txs, TooMuch(limits, gasLimit)) == l.txs
  {
    forall n | n in l.txs
      ensures !TooMuch(limits, gasLimit)(l.txs[n])
    {
      assert n !in Only(l.txs, TooMuch(limits, gasLimit));
    }
  }

  lemma LowestIsLeast(s: seq<Tx>, m: Txs, lowest: nat)
    requires ByNonce(m) && m != map[] && Lists(s, m)
    requires (exists i :: 0 <= i < |s| && lowest == s[i].nonce) && forall i :: 0 <= i < |s| ==> lowest <= s[i].nonce
    ensures lowest == Least(m)
  {
    assert m[Least(m)] in s;
  }

  lemma AboveLowest(l: ListState, limits: Limits, gasLimit: nat, lowest: nat)
    requires ByNonce(l.txs) && Only(l.txs, TooMuch(limits, gasLimit)) != map[]
    requires lowest == Least(Only(l.txs, TooMuch(limits, gasLimit)))
    ensures Without(Without(l.txs, TooMuch(limits, gasLimit)), Above(lowest)) == Below(l.txs, lowest)
    ensures Only(Without(l.txs, TooMuch(limits, gasLimit)), Above(lowest)) ==
            From(Without(l.txs, TooMuch(limits, gasLimit)), lowest + 1)
  {
    var over := Only(l.txs, TooMuch(limits, gasLimit));
    forall n | n in l.txs && n <= lowest
      ensures TooMuch(limits, gasLimit)(l.txs[n]) <==> n == lowest
    {
      assert n in over <==> TooMuch(limits, gasLimit)(l.txs[n]);
    }
  }
}
