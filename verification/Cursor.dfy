/** Records shared by the chain modules. */
module ChainTypes {
  import opened BlockTree
  import ShardKeys

  type Token = nat
  type Recipient = nat
  type Byte = x: nat | x < 256
  type Bytes = seq<Byte>

  /** A shard, named by its full shard id. */
  datatype ShardId = ShardId(branch: ShardKeys.Branch)

  /** Gas reserved for the target shard of a cross-shard transfer. */
  const GTXX_SHARD_COST: nat := 9000

  datatype Deposit = Deposit(
    txHash: Hash, from: Recipient, to: Recipient, toKey: bv32,
    value: nat, transferToken: Token, gasToken: Token, gasPrice: nat, gasRemained: nat,
    data: seq<Byte>, createContract: bool, fromRoot: bool, refundRate: nat)

  datatype MinorHeader = MinorHeader(
    hash: Hash, parent: Hash, number: nat, branch: ShardId, prevRoot: Hash, time: nat)

  datatype RootBody = RootBody(
    coinbase: Recipient, coinbaseKey: bv32, coinbaseAmount: nat,
    headers: seq<MinorHeader>, difficulty: nat, totalDifficulty: nat, time: nat)

  type RootBlock = Block<RootBody>

  /** A root block's headers of one shard, in order. */
  function Own(headers: seq<MinorHeader>, branch: ShardId): (own: seq<MinorHeader>)
    ensures forall h :: h in own <==> h in headers && h.branch == branch
  {
    if headers == [] then []
    else
      var h := headers[|headers| - 1];
      Own(headers[..|headers| - 1], branch) + if h.branch == branch then [h] else []
  }
}

/**
 * The cross-shard cursor: a three-level iterator (root block, minor header, deposit) that every
 * minor block saves and its child resumes.
 */
module Cursor {
  import opened BlockTree
  import opened ChainTypes
  import ShardKeys

  /** What a shard's cursor reads: the root blocks it knows, the deposit lists it was sent, and the root
      heights at which shards come into being. */
  datatype Chain = Chain(
    branch: ShardId,
    genesisToken: Token,
    genesisRootHeight: nat,
    roots: Store<RootBody>,
    lists: map<Hash, seq<Deposit>>,
    geneses: map<ShardId, nat>)

  /** The shards initialized before a root height. */
  function Initialized(geneses: map<ShardId, nat>, height: nat): set<ShardId> {
    set s | s in geneses && geneses[s] < height
  }

  /** The shard is a neighbour as far as it depends on the number of shards at a root height. */
  predicate Neighbor(c: Chain, b: ShardId, height: nat) {
    ShardKeys.IsNeighbor(c.branch.branch, b.branch, |Initialized(c.geneses, height)|)
  }

  lemma InitializedGrows(geneses: map<ShardId, nat>, x: nat, y: nat)
    requires x <= y
    ensures Initialized(geneses, x) <= Initialized(geneses, y)
    ensures |Initialized(geneses, x)| <= |Initialized(geneses, y)|
  {
    var a, b := Initialized(geneses, x), Initialized(geneses, y);
    assert b == a + (b - a);
  }

  /** Shards only get more, so with growing height neighbours can be lost but not gained. */
  lemma NeighborsAreOnlyLost(c: Chain, b: ShardId, x: nat, y: nat)
    requires x <= y && Neighbor(c, b, y)
    ensures Neighbor(c, b, x)
  {
    hide Initialized;
    InitializedGrows(c.geneses, x, y);
  }

  /** The position saved in a minor block's meta data. */
  datatype CursorInfo = CursorInfo(rootBlockHeight: nat, minorBlockIndex: nat, depositIndex: nat)

  /** What the cursor meets next: a deposit at its position, or a header it cannot read. */
  datatype Event = Yield(at: CursorInfo, deposit: Deposit) | Fault

  // ---------- the flat sequence of deposits ----------

  function CoinbaseDeposit(c: Chain, rb: RootBlock): Deposit {
    var amount := if ShardKeys.IsInBranch(c.branch.branch, rb.body.coinbaseKey) then rb.body.coinbaseAmount else 0;
    Deposit(rb.hash, rb.body.coinbase, rb.body.coinbase, rb.body.coinbaseKey,
            amount, c.genesisToken, c.genesisToken, 0, 0, [], false, true, 100)
  }

  /** The deposit pays a root block's reward: to its coinbase, in the genesis token, in the branch that has its key. */
  ghost predicate PaysReward(c: Chain, rb: RootBlock, d: Deposit) {
    && d.from == d.to == rb.body.coinbase && d.toKey == rb.body.coinbaseKey && d.txHash == rb.hash
    && d.transferToken == d.gasToken == c.genesisToken && d.gasPrice == d.gasRemained == 0
    && d.fromRoot && d.data == [] && !d.createContract && d.refundRate == 100
    && d.value == if ShardKeys.IsInBranch(c.branch.branch, rb.body.coinbaseKey) then rb.body.coinbaseAmount else 0
  }

  /** The header is this shard's own or not from a neighbour, as seen at the root block's height. */
  predicate Skipped(c: Chain, rb: RootBlock, h: MinorHeader) {
    h.branch == c.branch || !Neighbor(c, h.branch, rb.number)
  }

  /** The neighbour mined the block before it knew of this shard. */
  predicate TooEarly(c: Chain, h: MinorHeader)
    requires h.prevRoot in c.roots
  {
    c.roots[h.prevRoot].number <= c.genesisRootHeight
  }

  /** The deposits of a list from index d on, then `after`. */
  function ListThen(height: nat, m: nat, list: seq<Deposit>, d: nat, after: seq<Event>): seq<Event>
    decreases |list| - d
  {
    if d >= |list| then after
    else [Yield(CursorInfo(height, m, d), list[d])] + ListThen(height, m, list, d + 1, after)
  }

  /** The deposits of one confirmed header, then `after`; an unreadable header is a fault. */
  function HeaderThen(c: Chain, rb: RootBlock, m: nat, after: seq<Event>): seq<Event>
    requires 1 <= m <= |rb.body.headers|
  {
    var h := rb.body.headers[m - 1];
    if Skipped(c, rb, h) then after
    else if h.prevRoot !in c.roots then [Fault] + after
    else if TooEarly(c, h) then if h.hash in c.lists then [Fault] + after else after
    else if h.hash !in c.lists then [Fault] + after
    else ListThen(rb.number, m, c.lists[h.hash], 0, after)
  }

  /** The headers of a root block from the m-th on, then `after`. */
  function HeadersThen(c: Chain, rb: RootBlock, m: nat, after: seq<Event>): seq<Event>
    requires m >= 1
    decreases |rb.body.headers| - m
  {
    if m > |rb.body.headers| then after
    else HeaderThen(c, rb, m, HeadersThen(c, rb, m + 1, after))
  }

  function CoinbaseEvent(c: Chain, rb: RootBlock): Event {
    Yield(CursorInfo(rb.number, 0, 1), CoinbaseDeposit(c, rb))
  }

  /** The flat sequence: for each root block its coinbase, then the list of every readable header. */
  function Stream(c: Chain, path: seq<RootBlock>): seq<Event> {
    if path == [] then []
    else [CoinbaseEvent(c, path[0])] + HeadersThen(c, path[0], 1, Stream(c, path[1..]))
  }

  // ---------- what a saved position still has ahead of it ----------

  /** Root blocks numbered consecutively from `base`. */
  ghost predicate Numbered(path: seq<RootBlock>, base: nat) {
    forall i :: 0 <= i < |path| ==> path[i].number == base + i
  }

  ghost predicate Readable(c: Chain, rb: RootBlock, h: MinorHeader) {
    !Skipped(c, rb, h) && h.prevRoot in c.roots && !TooEarly(c, h) && h.hash in c.lists
  }

  /** A position inside root block rb: before or at its coinbase, or at a deposit of a read list. */
  ghost predicate ValidAt(c: Chain, rb: RootBlock, m: nat, d: nat) {
    if m == 0 then d <= 1
    else m <= |rb.body.headers|
         && Readable(c, rb, rb.body.headers[m - 1])
         && d < |c.lists[rb.body.headers[m - 1].hash]|
  }

  /** The deposit at a position. */
  ghost function DepositAt(c: Chain, rb: RootBlock, m: nat, d: nat): Deposit
    requires ValidAt(c, rb, m, d)
  {
    if m == 0 then CoinbaseDeposit(c, rb) else c.lists[rb.body.headers[m - 1].hash][d]
  }

  /** The positions a run can save; the one just above the known chain is its end. */
  ghost predicate ValidInfo(c: Chain, path: seq<RootBlock>, base: nat, ci: CursorInfo) {
    var k := ci.rootBlockHeight - base;
    && 0 <= k <= |path|
    && (k < |path| ==> ValidAt(c, path[k], ci.minorBlockIndex, ci.depositIndex))
    && (k == |path| ==> ci.minorBlockIndex == 0 && ci.depositIndex == 0)
  }

  /** What follows the position (m, d) of root block rb, then `after`. */
  ghost function RestOfBlock(c: Chain, rb: RootBlock, m: nat, d: nat, after: seq<Event>): seq<Event>
    requires ValidAt(c, rb, m, d)
  {
    if m == 0 then
      if d == 0 then [CoinbaseEvent(c, rb)] + HeadersThen(c, rb, 1, after) else HeadersThen(c, rb, 1, after)
    else
      ListThen(rb.number, m, c.lists[rb.body.headers[m - 1].hash], d + 1, HeadersThen(c, rb, m + 1, after))
  }

  /** All events after a saved position on the chain `path`. */
  ghost function Rest(c: Chain, path: seq<RootBlock>, base: nat, ci: CursorInfo): seq<Event>
    requires ValidInfo(c, path, base, ci)
  {
    var k := ci.rootBlockHeight - base;
    if k == |path| then []
    else RestOfBlock(c, path[k], ci.minorBlockIndex, ci.depositIndex, Stream(c, path[k + 1..]))
  }

  /** Either the next deposit has the next index of the same list, or the next header is reached. */
  lemma RestStep(c: Chain, path: seq<RootBlock>, base: nat, ci: CursorInfo)
    requires ValidInfo(c, path, base, ci) && ci.rootBlockHeight < base + |path|
    requires path[ci.rootBlockHeight - base].number == ci.rootBlockHeight
    ensures var k := ci.rootBlockHeight - base;
            var rb := path[k];
            var next := ci.(depositIndex := ci.depositIndex + 1);
            if ValidAt(c, rb, next.minorBlockIndex, next.depositIndex)
            then Rest(c, path, base, ci) ==
                 [Yield(next, DepositAt(c, rb, next.minorBlockIndex, next.depositIndex))] + Rest(c, path, base, next)
            else Rest(c, path, base, ci) ==
                 HeadersThen(c, rb, ci.minorBlockIndex + 1, Stream(c, path[k + 1..]))
  {
    hide HeadersThen, Stream, CoinbaseDeposit;
  }

  // ---------- the cursor itself ----------

  datatype NextTx = Eof | Tx(deposit: Deposit) | Error

  class XShardTxCursor {
    const bc: Chain
    const maxRootBlock: RootBlock
    ghost const path: seq<RootBlock>
    var mBlockIndex: nat
    var xShardDepositIndex: nat
    var xTxList: Option<seq<Deposit>>
    var rBlock: Option<RootBlock>

    /** The part of the state that never changes. */
    ghost predicate Settled() {
      && Tree(bc.roots, bc.genesisRootHeight)
      && maxRootBlock.hash in bc.roots && bc.roots[maxRootBlock.hash] == maxRootBlock
      && path == Path(bc.roots, bc.genesisRootHeight, maxRootBlock.hash)
    }

    /** rb is the root block at its height on the cursor's chain. */
    ghost predicate OnPath(rb: RootBlock) {
      var k := rb.number - bc.genesisRootHeight;
      0 <= k < |path| && rb == path[k]
    }

    ghost predicate Valid()
      reads this
    {
      && Settled()
      && ValidInfo(bc, path, bc.genesisRootHeight, Info())
      && (rBlock.Some? ==> OnPath(rBlock.value))
      && (rBlock.None? ==> mBlockIndex == 0 && xShardDepositIndex == 0)
      && (mBlockIndex > 0 ==> xTxList == Some(bc.lists[rBlock.value.body.headers[mBlockIndex - 1].hash]))
    }

    /** The position that would be saved now. */
    function Info(): CursorInfo
      reads this
    {
      CursorInfo(if rBlock.Some? then rBlock.value.number else maxRootBlock.number + 1,
                 mBlockIndex, xShardDepositIndex)
    }

    ghost function Ahead(): seq<Event>
      requires Valid()
      reads this
    {
      Rest(bc, path, bc.genesisRootHeight, Info())
    }

    /** Resumes a saved position on the chain of the new block's previous root block. */
    constructor (bc: Chain, prevRoot: Hash, info: CursorInfo)
      requires Tree(bc.roots, bc.genesisRootHeight) && prevRoot in bc.roots
      requires ValidInfo(bc, Path(bc.roots, bc.genesisRootHeight, prevRoot), bc.genesisRootHeight, info)
      ensures Valid() && this.bc == bc && maxRootBlock == bc.roots[prevRoot] && Info() == info
      ensures path == Path(bc.roots, bc.genesisRootHeight, prevRoot) && (info.minorBlockIndex == 0 ==> xTxList == Some([]))
    {
      assert bc.roots[prevRoot].hash == prevRoot;
      hide Path, Tree, CoinbaseDeposit;
      this.bc := bc;
      maxRootBlock := bc.roots[prevRoot];
      path := Path(bc.roots, bc.genesisRootHeight, prevRoot);
      mBlockIndex := info.minorBlockIndex;
      xShardDepositIndex := info.depositIndex;
      xTxList := Some([]);
      rBlock := None;
      new;
      rBlock := BlockByHeight(bc.roots, bc.genesisRootHeight, prevRoot, info.rootBlockHeight);
      assert Info() == info;
      if rBlock.Some? && mBlockIndex != 0 {
        var h := rBlock.value.body.headers[mBlockIndex - 1].hash;
        xTxList := if h in bc.lists then Some(bc.lists[h]) else None;
      }
    }

    /** The deposit at the current position, if there is one there. */
    method GetCurrentTx() returns (r: NextTx)
      ensures mBlockIndex == 0 ==>
                r == if xShardDepositIndex == 1 && rBlock.Some? then Tx(CoinbaseDeposit(bc, rBlock.value))
                     else if xShardDepositIndex == 2 then Eof else Error
      ensures mBlockIndex > 0 && xTxList.Some? ==>
                r == if xShardDepositIndex < |xTxList.value| then Tx(xTxList.value[xShardDepositIndex]) else Eof
      ensures mBlockIndex > 0 && xTxList.None? ==> r == Error
      ensures r.Tx? && mBlockIndex == 0 ==> RewardAtHand(r.deposit)
    {
      if mBlockIndex == 0 {
        if xShardDepositIndex == 1 && rBlock.Some? {
          return Tx(CoinbaseDeposit(bc, rBlock.value));
        }
        return if xShardDepositIndex == 2 then Eof else Error;
      }
      if xTxList.None? {
        return Error;
      }
      return if xShardDepositIndex < |xTxList.value| then Tx(xTxList.value[xShardDepositIndex]) else Eof;
    }

    /** The deposit is the reward of the root block the cursor is at. */
    ghost predicate RewardAtHand(d: Deposit)
      reads this`rBlock
    {
      rBlock.Some? && PaysReward(bc, rBlock.value, d)
    }

    /** The cursor has consumed the first of the events `ahead`, or found that there are none. */
    ghost predicate Advanced(r: NextTx, ahead: seq<Event>)
      reads this
    {
      if ahead == [] then r == Eof && Valid() && Ahead() == []
      else if ahead[0].Fault? then r == Error
      else Valid() && r == Tx(ahead[0].deposit) && Info() == ahead[0].at && Ahead() == ahead[1..]
    }

    /**
     * Moves to the next deposit. An error stands for the source's error returns and for its
     * dereference of a missing root block or list; it happens just when the next event is a fault.
     */
    method GetNextTx() returns (r: NextTx)
      requires Valid()
      modifies this
      ensures Advanced(r, old(Ahead()))
      ensures r.Tx? ==> rBlock.Some? && (mBlockIndex == 0 ==> RewardAtHand(r.deposit))
    {
      hide Path, Tree, Stream, HeadersThen, Rest, ValidInfo, PaysReward, XShardTxCursor.Advanced, XShardTxCursor.OnPath, Skipped,
        TooEarly;
      if rBlock.None? {
        NothingAhead();
        return Eof;
      }
      ghost var ahead := Ahead();
      var rb := rBlock.value;
      r := NextDeposit(ahead);
      if r == Eof {
        mBlockIndex := mBlockIndex + 1;
        xShardDepositIndex := 0;
        r := NextHeader(rb, ahead);
      }
    }

    /** Past the last root block there is nothing. */
    lemma NothingAhead()
      requires Valid() && rBlock.None?
      ensures Advanced(Eof, Ahead())
    {
    }

    /** Moves on within the list the cursor is in, or finds that it is at its end. */
    method NextDeposit(ghost ahead: seq<Event>) returns (r: NextTx)
      requires Valid() && rBlock.Some? && ahead == Ahead()
      modifies this`xShardDepositIndex
      ensures r != Error
      ensures r.Tx? ==> Advanced(r, ahead) && (mBlockIndex == 0 ==> RewardAtHand(r.deposit))
      ensures r == Eof ==>
                var rb := rBlock.value;
                && OnPath(rb) && mBlockIndex <= |rb.body.headers|
                && ahead == HeadersThen(bc, rb, mBlockIndex + 1, Stream(bc, path[rb.number - bc.genesisRootHeight + 1..]))
    {
      hide Path, Tree, CoinbaseDeposit, PaysReward, Stream, HeadersThen, Rest, Skipped, TooEarly;
      RestStep(bc, path, bc.genesisRootHeight, Info());
      ghost var next := Info().(depositIndex := xShardDepositIndex + 1);
      var rb := rBlock.value;
      xShardDepositIndex := xShardDepositIndex + 1;
      r := GetCurrentTx();
      assert r != Error && (r.Tx? <==> ValidAt(bc, rb, mBlockIndex, xShardDepositIndex));
      if r.Tx? {
        assert Info() == next && ValidInfo(bc, path, bc.genesisRootHeight, Info());
        assert ahead[1..] == Ahead();
      }
    }

    /** Looks for the next deposit from the header at mBlockIndex on. */
    method NextHeader(rb: RootBlock, ghost ahead: seq<Event>) returns (r: NextTx)
      requires Settled() && OnPath(rb) && rBlock == Some(rb)
      requires 1 <= mBlockIndex <= |rb.body.headers| + 1 && xShardDepositIndex == 0
      requires ahead == HeadersThen(bc, rb, mBlockIndex, Stream(bc, path[rb.number - bc.genesisRootHeight + 1..]))
      modifies this
      ensures Advanced(r, ahead)
      ensures r.Tx? ==> rBlock.Some? && (mBlockIndex == 0 ==> RewardAtHand(r.deposit))
    {
      hide Path, Tree, Stream, PaysReward;
      ghost var later := Stream(bc, path[rb.number - bc.genesisRootHeight + 1..]);
      while mBlockIndex <= |rb.body.headers|
        invariant 1 <= mBlockIndex <= |rb.body.headers| + 1 && xShardDepositIndex == 0
        invariant rBlock == Some(rb)
        invariant ahead == HeadersThen(bc, rb, mBlockIndex, later)
      {
        var h := rb.body.headers[mBlockIndex - 1];
        if Skipped(bc, rb, h) {
          mBlockIndex := mBlockIndex + 1;
          continue;
        }
        if h.prevRoot !in bc.roots {
          return Error;
        }
        if TooEarly(bc, h) {
          if h.hash in bc.lists {
            return Error;
          }
          mBlockIndex := mBlockIndex + 1;
          continue;
        }
        xTxList := if h.hash in bc.lists then Some(bc.lists[h.hash]) else None;
        r := GetCurrentTx();
        if r != Eof {
          return;
        }
        mBlockIndex := mBlockIndex + 1;
      }
      r := NextRootBlock(rb, ahead);
    }

    /** Moves to the coinbase of the next root block, or to the end of the chain. */
    method NextRootBlock(rb: RootBlock, ghost ahead: seq<Event>) returns (r: NextTx)
      requires Settled() && OnPath(rb)
      requires ahead == Stream(bc, path[rb.number - bc.genesisRootHeight + 1..])
      modifies this
      ensures Advanced(r, ahead)
      ensures r.Tx? ==> rBlock.Some? && (mBlockIndex == 0 ==> RewardAtHand(r.deposit))
    {
      hide Path, Tree, CoinbaseDeposit, PaysReward, HeadersThen;
      ghost var k := rb.number - bc.genesisRootHeight + 1;
      assert k < |path| ==> path[k..][1..] == path[k + 1..];
      rBlock := BlockByHeight(bc.roots, bc.genesisRootHeight, maxRootBlock.hash, rb.number + 1);
      mBlockIndex := 0;
      if rBlock.None? {
        xShardDepositIndex := 0;
        return Eof;
      }
      xShardDepositIndex := 1;
      assert ahead == [CoinbaseEvent(bc, rBlock.value)] + HeadersThen(bc, rBlock.value, 1, Stream(bc, path[k + 1..]));
      r := GetCurrentTx();
    }
  }
}
