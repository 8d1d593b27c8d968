/** A shard's chain: block store, canonical index, transaction index, and the choice of its tip. */
module MinorChain {
  import opened BlockTree
  import opened ChainTypes
  import opened TxIndex

  /** The hash of the canonical block at every height of a chain, and nothing above it. */
  ghost function CanonOf(path: seq<MinorBlock>): map<nat, Hash> {
    map n: nat | 0 <= n < |path| :: path[n].hash
  }

  /** The same for the heights from lo up to hi. */
  ghost function CanonFrom(path: seq<MinorBlock>, lo: nat, hi: nat): map<nat, Hash>
    requires hi <= |path|
  {
    map n: nat | lo <= n < hi :: path[n].hash
  }

  ghost function Without(canon: map<nat, Hash>, lo: nat, hi: nat): map<nat, Hash> {
    map n | n in canon && !(lo <= n < hi) :: canon[n]
  }

  /** The canonical hashes are right up to the height of the chain's head; there may be others above. */
  ghost predicate UpTo(canon: map<nat, Hash>, path: seq<MinorBlock>) {
    forall n :: 0 <= n < |path| ==> n in canon && canon[n] == path[n].hash
  }

  lemma FileNext(canon: map<nat, Hash>, path: seq<MinorBlock>, lo: nat, hi: nat)
    requires lo <= hi < |path|
    ensures (canon + CanonFrom(path, lo, hi))[hi := path[hi].hash] == canon + CanonFrom(path, lo, hi + 1)
  {
  }

  lemma NoneFiled(canon: map<nat, Hash>, path: seq<MinorBlock>, c: nat)
    requires c <= |path|
    ensures canon + CanonFrom(path, c, c) == canon
  {
  }

  lemma DropNext(canon: map<nat, Hash>, lo: nat, hi: nat)
    requires lo <= hi
    ensures Without(canon, lo, hi) - {hi} == Without(canon, lo, hi + 1)
  {
  }

  lemma FiledAgain(canon: map<nat, Hash>, path: seq<MinorBlock>)
    requires path != [] && UpTo(canon, path)
    ensures canon[|path| - 1 := path[|path| - 1].hash] == canon
  {
  }

  /** Above the new chain stays what was above the old one. */
  ghost predicate KeepsAbove(canon: map<nat, Hash>, oldLength: nat, canon': map<nat, Hash>, newLength: nat) {
    && (forall n :: n in canon' && n >= newLength ==> n in canon && n >= oldLength && canon'[n] == canon[n])
    && (forall n :: n in canon && n >= newLength && n >= oldLength ==> n in canon')
  }

  /** Taking one chain's heights out down to the fork and filing the other's. */
  lemma Refiled(canon: map<nat, Hash>, po: seq<MinorBlock>, pn: seq<MinorBlock>, c: nat)
    requires c <= |po| && c <= |pn| && po[..c] == pn[..c] && UpTo(canon, po)
    ensures var canon' := Without(canon, c, |po|) + CanonFrom(pn, c, |pn|);
            && UpTo(canon', pn) && KeepsAbove(canon, |po|, canon', |pn|)
            && (canon == CanonOf(po) ==> canon' == CanonOf(pn))
  {
    var canon' := Without(canon, c, |po|) + CanonFrom(pn, c, |pn|);
    forall n | 0 <= n < |pn|
      ensures n in canon' && canon'[n] == pn[n].hash
    {
      if n < c {
        assert pn[n] == pn[..c][n] == po[..c][n] == po[n];
      }
    }
    if canon == CanonOf(po) {
      assert canon'.Keys == CanonOf(pn).Keys;
    }
  }

  // ---------- what one block adds to the transaction index ----------

  /** Goes over a block's transactions and deposits and gathers their history keys. */
  method KeysForBlock(b: MinorBlock) returns (ks: set<Bytes>)
    ensures ks == BlockKeys(b)
  {
    hide TxKeys, DepositKeys;
    ks := {};
    for i := 0 to |b.body.txs|
      invariant ks == set j, k | 0 <= j < i && k in TxKeys(b.body.txs[j], b.number, j) :: k
    {
      ks := ks + TxKeys(b.body.txs[i], b.number, i);
    }
    ghost var first := ks;
    for i := 0 to |b.body.deposits|
      invariant ks == first + set j, k | 0 <= j < i && k in DepositKeys(b.body.deposits[j], b.number, j) :: k
    {
      ks := ks + DepositKeys(b.body.deposits[i], b.number, i);
    }
  }

  method PutLookups(m: map<Hash, Entry>, b: MinorBlock) returns (r: map<Hash, Entry>)
    ensures r == m + BlockEntries(b)
  {
    hide Contents;
    r := m;
    var hs := Contents(b);
    for i := 0 to |hs|
      invariant r == m + Entries(b, i)
    {
      r := r[hs[i] := Entry(b.hash, i)];
    }
  }

  method DropLookups(m: map<Hash, Entry>, b: MinorBlock) returns (r: map<Hash, Entry>)
    ensures r == m - ContentSet(b)
  {
    hide Contents;
    r := m;
    var hs := Contents(b);
    for i := 0 to |hs|
      invariant r == m - set j | 0 <= j < i :: hs[j]
    {
      r := r - {hs[i]};
    }
  }

  ghost function HistoryKeys(history: bool, path: seq<MinorBlock>): set<Bytes> {
    if history then ChainKeys(path) else {}
  }

  lemma KeysOfNothing()
    ensures ChainKeys([]) == {} && ChainContents([]) == {}
  {
  }

  lemma IndexAppend(path: seq<MinorBlock>, b: MinorBlock)
    requires b.number == |path|
    ensures CanonOf(path + [b]) == CanonOf(path)[b.number := b.hash]
    ensures ChainKeys(path + [b]) == ChainKeys(path) + BlockKeys(b)
    ensures ChainLookup(path + [b]) == ChainLookup(path) + BlockEntries(b)
  {
    hide BlockKeys, BlockEntries;
    KeysAppend(path, b);
    LookupAppend(path, b);
  }

  /** Filing the last block of an indexed chain once more changes nothing. */
  lemma IndexAgain(path: seq<MinorBlock>, b: MinorBlock)
    requires b.number == |path|
    ensures CanonOf(path + [b])[b.number := b.hash] == CanonOf(path + [b])
    ensures ChainKeys(path + [b]) + BlockKeys(b) == ChainKeys(path + [b])
    ensures ChainLookup(path + [b]) + BlockEntries(b) == ChainLookup(path + [b])
  {
    hide BlockKeys, BlockEntries, ChainKeys, ChainLookup, CanonOf;
    IndexAppend(path, b);
  }

  // ---------- the chain ----------

  class MinorIndex {
    const history: bool
    var canon: map<nat, Hash>
    var current: Hash
    var keys: set<Bytes>
    var lookup: map<Hash, Entry>

    constructor (history: bool, genesis: MinorBlock)
      requires genesis.number == 0 && genesis.body.txs == [] && genesis.body.deposits == []
      ensures this.history == history && current == genesis.hash && Indexes([genesis])
    {
      this.history := history;
      canon, current, keys, lookup := map[0 := genesis.hash], genesis.hash, {}, map[];
      new;
      assert BlockKeys(genesis) == {} && Contents(genesis) == [];
    }

    ghost predicate Numbers(path: seq<MinorBlock>)
      reads this`canon
    {
      canon == CanonOf(path)
    }

    ghost predicate NumbersUpTo(path: seq<MinorBlock>)
      reads this`canon
    {
      UpTo(canon, path)
    }

    /** The index is exactly that of the chain: canonical hashes, history keys and hash lookups. */
    ghost predicate Indexes(path: seq<MinorBlock>)
      reads this`canon, this`keys, this`lookup
    {
      Numbers(path) && keys == HistoryKeys(history, path) && lookup == ChainLookup(path)
    }

    /** Takes blocks off the canonical chain, lowest first. */
    method DropChain(chain: seq<MinorBlock>, ghost path: seq<MinorBlock>, ghost c: nat)
      requires Down(chain, path, c) && (forall i :: 0 <= i < |path| ==> path[i].number == i)
      modifies this`canon, this`keys, this`lookup
      ensures canon == Without(old(canon), c, |path|)
      ensures keys == if history then old(keys) - ChainKeys(path[c..]) else old(keys)
      ensures lookup == old(lookup) - ChainContents(path[c..])
    {
      hide BlockKeys, ContentSet, BlockEntries;
      KeysOfNothing();
      assert path[c..c] == [];
      var i := |chain|;
      while i > 0
        invariant 0 <= i <= |chain|
        invariant canon == Without(old(canon), c, |path| - i)
        invariant keys == if history then old(keys) - ChainKeys(path[c..|path| - i]) else old(keys)
        invariant lookup == old(lookup) - ChainContents(path[c..|path| - i])
      {
        i := i - 1;
        var b := chain[i];
        ghost var below := path[c..|path| - i - 1];
        assert path[c..|path| - i] == below + [b];
        KeysAppend(below, b);
        ContentsAppend(below, b);
        if history {
          var ks := KeysForBlock(b);
          keys := keys - ks;
        }
        lookup := DropLookups(lookup, b);
        DropNext(old(canon), c, b.number);
        canon := canon - {b.number};
      }
      assert path[c..|path|] == path[c..];
    }

    /** Makes a block the head and files it under its height. */
    method Insert(b: MinorBlock)
      modifies this`canon, this`current
      ensures canon == old(canon)[b.number := b.hash] && current == b.hash
    {
      canon := canon[b.number := b.hash];
      current := b.hash;
    }

    method PutTxIndexFromBlock(b: MinorBlock)
      modifies this`keys, this`lookup
      ensures keys == old(keys) + (if history then BlockKeys(b) else {})
      ensures lookup == old(lookup) + BlockEntries(b)
    {
      lookup := PutLookups(lookup, b);
      if history {
        var ks := KeysForBlock(b);
        keys := keys + ks;
      }
    }

    /** Puts blocks on the canonical chain, lowest first. */
    method InsertChain(chain: seq<MinorBlock>, ghost path: seq<MinorBlock>, ghost c: nat)
      requires Down(chain, path, c) && (forall i :: 0 <= i < |path| ==> path[i].number == i)
      requires chain != []
      modifies this`canon, this`current, this`keys, this`lookup
      ensures canon == old(canon) + CanonFrom(path, c, |path|) && current == path[|path| - 1].hash
      ensures old(keys) == HistoryKeys(history, path[..c]) ==> keys == HistoryKeys(history, path)
      ensures old(lookup) == ChainLookup(path[..c]) ==> lookup == ChainLookup(path)
    {
      hide BlockKeys, ContentSet, BlockEntries, ChainKeys, ChainLookup;
      hide CanonFrom;
      NoneFiled(canon, path, c);
      ghost var okKeys := keys == HistoryKeys(history, path[..c]);
      ghost var okLookup := lookup == ChainLookup(path[..c]);
      var i := |chain|;
      while i > 0
        invariant 0 <= i <= |chain|
        invariant canon == old(canon) + CanonFrom(path, c, |path| - i)
        invariant i < |chain| ==> current == path[|path| - i - 1].hash
        invariant okKeys ==> keys == HistoryKeys(history, path[..|path| - i])
        invariant okLookup ==> lookup == ChainLookup(path[..|path| - i])
      {
        i := i - 1;
        var b := chain[i];
        ghost var below := path[..|path| - i - 1];
        assert path[..|path| - i] == below + [b];
        KeysAppend(below, b);
        LookupAppend(below, b);
        FileNext(old(canon), path, c, b.number);
        Insert(b);
        PutTxIndexFromBlock(b);
      }
      assert path[..|path|] == path;
    }

    /**
     * Moves the index from the chain of one block to the chain of another: whatever the tree, and also
     * for rewinds along one chain and for chains with different genesis blocks, the canonical hashes
     * are then those of the new chain, and what was above the old one stays where the new one does not
     * reach. History keys and lookups follow as long as heights fit in 32 bits and no hash repeats on a
     * chain.
     */
    method Reorg(store: Store<MinorBody>, oldHead: Hash, newHead: Hash)
      requires Tree(store, 0) && oldHead in store && newHead in store && NumbersUpTo(Path(store, 0, oldHead))
      modifies this`canon, this`current, this`keys, this`lookup
      ensures NumbersUpTo(Path(store, 0, newHead)) && current == newHead
      ensures KeepsAbove(old(canon), store[oldHead].number + 1, canon, store[newHead].number + 1)
      ensures old(Numbers(Path(store, 0, oldHead))) ==> Numbers(Path(store, 0, newHead))
      ensures old(keys) == HistoryKeys(history, Path(store, 0, oldHead)) && ShortChain(Path(store, 0, oldHead)) ==>
                keys == HistoryKeys(history, Path(store, 0, newHead))
      ensures old(lookup) == ChainLookup(Path(store, 0, oldHead)) && UniqueContents(Path(store, 0, oldHead)) ==>
                lookup == ChainLookup(Path(store, 0, newHead))
    {
      hide Path, ChainKeys, ChainLookup, ShortChain, UniqueContents, ChainContents, UpTo, KeepsAbove, CanonOf, CanonFrom,
        Without;
      ghost var po, pn := Path(store, 0, oldHead), Path(store, 0, newHead);
      PathNodes(store, 0, oldHead);
      PathNodes(store, 0, newHead);
      var oldChain, newChain, c := CollectChains(store, oldHead, newHead);
      ghost var okKeys := keys == HistoryKeys(history, po) && ShortChain(po);
      ghost var okLookup := lookup == ChainLookup(po) && UniqueContents(po);
      if okKeys {
        KeysOfPrefix(po, c);
      }
      if okLookup {
        LookupOfPrefix(po, c);
      }
      Refiled(canon, po, pn, c);
      DropChain(oldChain, po, c);
      if newChain == [] {
        assert pn[..c] == pn;
        NoneFiled(canon, pn, c);
        FiledAgain(canon, pn);
        Insert(store[newHead]);
      } else {
        InsertChain(newChain, pn, c);
      }
    }

    /** Indexes the transactions of a block and makes it the head. */
    method SetHead(b: MinorBlock, ghost path: seq<MinorBlock>)
      requires b.number == |path| && NumbersUpTo(path)
      modifies this`canon, this`current, this`keys, this`lookup
      ensures NumbersUpTo(path + [b]) && current == b.hash && canon == old(canon)[b.number := b.hash]
      ensures old(Numbers(path) || Numbers(path + [b])) ==> Numbers(path + [b])
      ensures old(Indexes(path) || Indexes(path + [b])) ==> Indexes(path + [b])
    {
      hide BlockKeys, BlockEntries, ChainKeys, ChainLookup, CanonOf;
      IndexAppend(path, b);
      IndexAgain(path, b);
      PutTxIndexFromBlock(b);
      Insert(b);
    }
  }
}
