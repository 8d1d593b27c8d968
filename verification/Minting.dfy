/**
 * How much a run mints when every root block carries the computed coinbase: beyond block rewards, base rewards and
 * the root share of block rewards, no more than the tax its blocks withheld from their fees.
 */
module Minting {
  import opened Sums
  import opened BlockTree
  import opened ChainTypes
  import opened Ledger
  import opened Cursor
  import opened Delivery
  import opened Execution
  import opened Conservation
  import opened Fees

  /** What the blocks that no root block has confirmed yet earned. */
  type Book = map<Hash, Earned>

  function EarnedBy(x: Exec, genesisToken: Token): Earned {
    Earned(Subsidy(x.reward, genesisToken), x.fee, x.kept.withheld)
  }

  function BookAfter(genesisToken: Token, book: Book, step: SystemStep): Book {
    match step
    case RunBlockStep(x) => book[x.hash := EarnedBy(x, genesisToken)]
    case AddRootStep(rb) => book - ConfirmedHashes(rb.body.headers)
  }

  /** The recorded coinbase amounts of the blocks. */
  function Known(book: Book, t: Token): map<Hash, Tokens> {
    map h | h in book :: map[t := book[h].reward + book[h].fee]
  }

  function HashesOf(headers: seq<MinorHeader>): seq<Hash> {
    if headers == [] then [] else HashesOf(headers[..|headers| - 1]) + [headers[|headers| - 1].hash]
  }

  /** The book has the unconfirmed blocks, with fees split at the local rate. */
  ghost predicate Booked(sys: System, book: Book) {
    book.Keys == sys.pending.Keys && forall h :: h in book ==> WithinRate(book[h].fee, book[h].tax, sys.feeRate)
  }

  /** The coinbase of a root block over the blocks it confirms, for a tax rate of n/d. */
  function Coinbase(book: Book, headers: seq<MinorHeader>, t: Token, n: nat, d: nat, baseReward: nat): nat
    requires n < d
  {
    MulRate(Paid(Known(book, t), HashesOf(headers), t), RewardCalculateRate(n, d)) + baseReward
  }

  /** Every root block of the run carries the computed coinbase. */
  ghost predicate AllComputed(sys: System, book: Book, steps: seq<SystemStep>, n: nat, d: nat, baseReward: nat -> nat)
    requires n < d
    decreases |steps|
  {
    steps != [] ==>
      && (steps[0].AddRootStep? ==>
            var rb := steps[0].rb;
            rb.body.coinbaseAmount == Coinbase(book, rb.body.headers, sys.genesisToken, n, d, baseReward(rb.number)))
      && AllComputed(After(sys, steps[0]), BookAfter(sys.genesisToken, book, steps[0]), steps[1..], n, d, baseReward)
  }

  // ---------- the hashes of a root block's headers ----------

  lemma {:induction false} HashesAre(headers: seq<MinorHeader>)
    ensures |HashesOf(headers)| == |headers| && forall i :: 0 <= i < |headers| ==> HashesOf(headers)[i] == headers[i].hash
  {
    if headers != [] {
      HashesAre(headers[..|headers| - 1]);
    }
  }

  lemma HashesInBook(sys: System, book: Book, rb: RootBlock)
    requires Booked(sys, book) && CanAddRoot(sys, rb)
    ensures var hs := HashesOf(rb.body.headers);
            && (forall i :: 0 <= i < |hs| ==> hs[i] in book)
            && (forall i, j :: 0 <= i < j < |hs| ==> hs[i] != hs[j])
            && ConfirmedHashes(rb.body.headers) == SetOf(hs)
  {
    hide HashesOf, NewRootHash, WithinRate;
    HashesAre(rb.body.headers);
    var headers, hs := rb.body.headers, HashesOf(rb.body.headers);
    forall i | 0 <= i < |hs|
      ensures hs[i] in book
    {
      assert headers[i].hash in sys.pending;
    }
    forall i, j | 0 <= i < j < |hs|
      ensures hs[i] != hs[j]
    {
      assert headers[i].hash != headers[j].hash;
    }
    forall h | h in hs
      ensures h in ConfirmedHashes(headers)
    {
      var i :| 0 <= i < |hs| && hs[i] == h;
      assert headers[i].hash == h;
    }
    forall h | h in ConfirmedHashes(headers)
      ensures h in hs
    {
      var i :| 0 <= i < |headers| && headers[i].hash == h;
      assert hs[i] == h;
    }
  }

  // ---------- the tax in the book ----------

  ghost function Taxes(book: Book): map<Hash, int> {
    map h | h in book :: book[h].tax
  }

  ghost function TaxIn(book: Book): int {
    Sum(Taxes(book))
  }

  lemma TaxAdded(book: Book, h: Hash, e: Earned)
    requires h !in book
    ensures TaxIn(book[h := e]) == TaxIn(book) + e.tax
  {
    hide Sum;
    assert Taxes(book[h := e]) == Taxes(book)[h := e.tax];
    SumUpdate(Taxes(book), h, e.tax);
  }

  lemma TaxDropped(book: Book, h: Hash)
    requires h in book
    ensures TaxIn(book - {h}) == TaxIn(book) - book[h].tax
  {
    hide Sum;
    SumRemove(Taxes(book), h);
    assert Taxes(book - {h}) == Taxes(book) - {h};
  }

  function SetOf(hs: seq<Hash>): set<Hash> {
    set h | h in hs
  }

  lemma {:induction false} TaxRemoved(book: Book, hs: seq<Hash>)
    requires forall i :: 0 <= i < |hs| ==> hs[i] in book
    requires forall i, j :: 0 <= i < j < |hs| ==> hs[i] != hs[j]
    ensures TaxIn(book - SetOf(hs)) == TaxIn(book) - AllEarned(book, hs).tax
  {
    hide TaxIn;
    if hs == [] {
      assert book - SetOf(hs) == book;
    } else {
      var n := |hs| - 1;
      var rest := SetOf(hs[..n]);
      TaxRemoved(book, hs[..n]);
      assert hs == hs[..n] + [hs[n]];
      assert SetOf(hs) == rest + {hs[n]};
      assert hs[n] in book - rest;
      TaxDropped(book - rest, hs[n]);
      assert book - rest - {hs[n]} == book - SetOf(hs);
    }
  }

  lemma TaxNotNegative(book: Book)
    ensures TaxIn(book) >= 0
  {
    SumNotNegative(Taxes(book));
  }

  // ---------- one step ----------

  lemma ExecBooked(sys: System, book: Book, x: Exec)
    requires ValidSystem(sys) && CanExec(sys, x) && Booked(sys, book)
    ensures Booked(ExecStep(sys, x), BookAfter(sys.genesisToken, book, RunBlockStep(x)))
    ensures TaxIn(BookAfter(sys.genesisToken, book, RunBlockStep(x))) == TaxIn(book) + x.kept.withheld
  {
    hide ValidSystem, TaxIn, Broadcastable, Conserves, IsRun, WithinRate, Subsidy, AfterExec;
    TaxAdded(book, x.hash, EarnedBy(x, sys.genesisToken));
  }

  /** Executed blocks meet what the coinbase computation asks for. */
  lemma BookIsRecorded(sys: System, book: Book, rb: RootBlock)
    requires Booked(sys, book) && CanAddRoot(sys, rb)
    ensures Recorded(Known(book, sys.genesisToken), HashesOf(rb.body.headers), book, sys.genesisToken, sys.feeRate)
  {
    hide HashesOf, CanAddRoot, WithinRate;
    HashesInBook(sys, book, rb);
  }

  /** What a computed coinbase mints, against the earnings of the blocks. */
  lemma RootBooked(sys: System, book: Book, rb: RootBlock, n: nat, d: nat, baseReward: nat)
    requires Booked(sys, book) && CanAddRoot(sys, rb) && n < d && sys.feeRate == LocalFeeRate(n, d)
    requires rb.body.coinbaseAmount == Coinbase(book, rb.body.headers, sys.genesisToken, n, d, baseReward)
    ensures Booked(RootStep(sys, rb), BookAfter(sys.genesisToken, book, AddRootStep(rb)))
    ensures RootReward(sys, rb, sys.genesisToken)
            <= RootShare(book, rb, n, d) + baseReward + TaxIn(book) - TaxIn(BookAfter(sys.genesisToken, book, AddRootStep(rb)))
  {
    hide HashesOf, CanAddRoot, WithinRate, TaxIn, Recorded, MulRate, Paid, AllEarned, ConfirmedHashes, Owner;
    HashesInBook(sys, book, rb);
    BookIsRecorded(sys, book, rb);
    var hs := HashesOf(rb.body.headers);
    EarnedAddsUp(Known(book, sys.genesisToken), hs, book, sys.genesisToken, sys.feeRate);
    var all := AllEarned(book, hs);
    ShareWithinTax(all.reward, all.fee, all.tax, n, d);
    TaxRemoved(book, hs);
  }

  /** The root share of the rewards of the blocks a root block confirms. */
  ghost function RootShare(book: Book, rb: RootBlock, n: nat, d: nat): nat
    requires n < d
  {
    var hs := HashesOf(rb.body.headers);
    if forall i :: 0 <= i < |hs| ==> hs[i] in book then MulRate(AllEarned(book, hs).reward, RewardCalculateRate(n, d)) else 0
  }

  // ---------- runs ----------

  function BlockRewards(steps: seq<SystemStep>, t: Token): nat {
    if steps == [] then 0
    else (if steps[0].RunBlockStep? then Subsidy(steps[0].x.reward, t) else 0) + BlockRewards(steps[1..], t)
  }

  function TaxWithheld(steps: seq<SystemStep>): nat {
    if steps == [] then 0
    else (if steps[0].RunBlockStep? then steps[0].x.kept.withheld else 0) + TaxWithheld(steps[1..])
  }

  function BaseRewards(steps: seq<SystemStep>, baseReward: nat -> nat): nat {
    if steps == [] then 0
    else (if steps[0].AddRootStep? then baseReward(steps[0].rb.number) else 0) + BaseRewards(steps[1..], baseReward)
  }

  ghost function RootShares(genesisToken: Token, book: Book, steps: seq<SystemStep>, n: nat, d: nat): nat
    requires n < d
    decreases |steps|
  {
    if steps == [] then 0
    else (if steps[0].AddRootStep? then RootShare(book, steps[0].rb, n, d) else 0)
         + RootShares(genesisToken, BookAfter(genesisToken, book, steps[0]), steps[1..], n, d)
  }

  /**
   * Over every run whose root blocks carry the computed coinbase, what is minted of the genesis token is at most
   * the block rewards, the root share of the rewards confirmed, the base rewards, and the tax withheld in the run
   * and in the book before it.
   */
  lemma {:induction false} MintedAtMost(sys: System, book: Book, steps: seq<SystemStep>, n: nat, d: nat,
                                        baseReward: nat -> nat)
    requires IsTrace(sys, steps) && Booked(sys, book) && n < d && sys.feeRate == LocalFeeRate(n, d)
    requires AllComputed(sys, book, steps, n, d, baseReward)
    ensures MintedOver(sys, steps, sys.genesisToken)
            <= BlockRewards(steps, sys.genesisToken) + RootShares(sys.genesisToken, book, steps, n, d)
               + BaseRewards(steps, baseReward) + TaxWithheld(steps) + TaxIn(book)
    decreases |steps|
  {
    hide ValidSystem, CanExec, CanAddRoot, TaxIn, Booked, RootShare, ExecStep, RootStep, Subsidy, RootReward, Coinbase, BookAfter;
    if steps == [] {
      TaxNotNegative(book);
    } else {
      var sys', book' := After(sys, steps[0]), BookAfter(sys.genesisToken, book, steps[0]);
      SameToken(sys, steps[0]);
      match steps[0] {
        case RunBlockStep(x) => ExecBooked(sys, book, x);
        case AddRootStep(rb) => RootBooked(sys, book, rb, n, d, baseReward(rb.number));
      }
      MintedAtMost(sys', book', steps[1..], n, d, baseReward);
    }
  }

  lemma SameToken(sys: System, step: SystemStep)
    ensures After(sys, step).genesisToken == sys.genesisToken && After(sys, step).feeRate == sys.feeRate
  {
  }

  /** Of other tokens only block rewards are minted. */
  lemma {:induction false} OtherTokens(sys: System, steps: seq<SystemStep>, t: Token)
    requires t != sys.genesisToken
    ensures MintedOver(sys, steps, t) == BlockRewards(steps, t)
    decreases |steps|
  {
    if steps != [] {
      SameToken(sys, steps[0]);
      hide After, Subsidy;
      OtherTokens(After(sys, steps[0]), steps[1..], t);
    }
  }

  /** The coinbase as the root chain computes it is the one the bound is about. */
  method RootCoinbase(book: Book, headers: seq<MinorHeader>, genesisToken: Token, n: nat, d: nat, baseReward: nat)
    returns (r: Option<Tokens>)
    requires n < d
    ensures r.Some? <==> forall i :: 0 <= i < |headers| ==> headers[i].hash in book
    ensures r.Some? ==> Amount(r.value, genesisToken) == Coinbase(book, headers, genesisToken, n, d, baseReward)
  {
    HashesAre(headers);
    r := CalculateRootBlockCoinBase(Known(book, genesisToken), HashesOf(headers), RewardCalculateRate(n, d), genesisToken,
                                    baseReward);
  }
}
