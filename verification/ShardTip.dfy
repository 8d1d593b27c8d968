/**
 * The shard's view of both layers: which minor block is its tip, which root block is its root tip,
 * and what the root chain has confirmed. One step is one critical section of the chain lock.
 */
module ShardTip {
  import opened BlockTree
  import opened ChainTypes
  import opened TxIndex
  import opened MinorChain
  import Cursor
  import Delivery

  /** What the part of AddRootBlock before the lock can end with. */
  datatype Prepared = Rejected | Known | OffChain | Ready

  /** What the part of AddRootBlock under the lock can end with. */
  datatype Committed = NotSameRootChain | Kept | Switched | GenesisReset

  /** One critical section of the chain. */
  datatype Step =
    | Insert(block: MinorBlock)
    | NewGenesis(root: RootBlock, genesis: MinorBlock)
    | Prepare(root: RootBlock, version: nat, lists: map<Hash, seq<Deposit>>)
    | Commit(hash: Hash)

  /** Minor blocks refer to stored root blocks, and root blocks to stored minor blocks. */
  ghost predicate References(store: Store<MinorBody>, roots: Store<RootBody>, last: map<Hash, Option<Hash>>) {
    && (forall h :: h in store ==> store[h].body.prevRoot in roots)
    && last.Keys == roots.Keys
    && (forall r :: r in roots && last[r].Some? ==> last[r].value in store)
  }

  ghost predicate Empty(b: MinorBlock) {
    b.body.txs == [] && b.body.deposits == []
  }

  ghost predicate EmptyGeneses(store: Store<MinorBody>) {
    forall h :: h in store && store[h].number == 0 ==> Empty(store[h])
  }

  /** A root block at the genesis height confirms nothing and has its own stored genesis block. */
  ghost predicate Geneses(store: Store<MinorBody>, roots: Store<RootBody>, last: map<Hash, Option<Hash>>,
                          geneses: map<Hash, MinorBlock>, base: nat)
    requires last.Keys == roots.Keys
  {
    forall r :: r in roots && roots[r].number == base ==>
      last[r] == None && GenesisOf(store, geneses, r)
  }

  ghost predicate GenesisOf(store: Store<MinorBody>, geneses: map<Hash, MinorBlock>, r: Hash) {
    && r in geneses && geneses[r].hash in store && store[geneses[r].hash] == geneses[r]
    && geneses[r].number == 0 && geneses[r].body.prevRoot == r
  }

  lemma ReferencesOf(store: Store<MinorBody>, roots: Store<RootBody>, last: map<Hash, Option<Hash>>, h: Hash, r: Hash)
    requires References(store, roots, last)
    ensures h in store ==> store[h].body.prevRoot in roots
    ensures last.Keys == roots.Keys && (r in roots && last[r].Some? ==> last[r].value in store)
  {
  }

  /** Storing one more minor block keeps all references. */
  lemma ReferencesKept(store: Store<MinorBody>, roots: Store<RootBody>, last: map<Hash, Option<Hash>>,
                       geneses: map<Hash, MinorBlock>, base: nat, b: MinorBlock)
    requires References(store, roots, last) && Geneses(store, roots, last, geneses, base)
    requires b.body.prevRoot in roots && (b.hash in store ==> store[b.hash] == b)
    ensures References(store[b.hash := b], roots, last) && Geneses(store[b.hash := b], roots, last, geneses, base)
  {
  }

  /** Storing one more root block keeps all references. */
  lemma ReferencesKeptByRoot(store: Store<MinorBody>, roots: Store<RootBody>, last: map<Hash, Option<Hash>>,
                             geneses: map<Hash, MinorBlock>, base: nat, rb: RootBlock, c: Option<Hash>)
    requires References(store, roots, last) && Geneses(store, roots, last, geneses, base)
    requires rb.hash in roots ==> roots[rb.hash] == rb && last[rb.hash] == c
    requires c.Some? ==> c.value in store
    requires rb.number == base ==> c == None && GenesisOf(store, geneses, rb.hash)
    ensures References(store, roots[rb.hash := rb], last[rb.hash := c])
    ensures Geneses(store, roots[rb.hash := rb], last[rb.hash := c], geneses, base)
  {
  }

  /** Storing another root block at the genesis height with its genesis block keeps all references. */
  lemma ReferencesKeptByGenesis(store: Store<MinorBody>, roots: Store<RootBody>, last: map<Hash, Option<Hash>>,
                                geneses: map<Hash, MinorBlock>, base: nat, rb: RootBlock, g: MinorBlock)
    requires References(store, roots, last) && Geneses(store, roots, last, geneses, base)
    requires rb.number == base && (rb.hash in roots ==> roots[rb.hash] == rb)
    requires g.number == 0 && g.body.prevRoot == rb.hash && (g.hash in store ==> store[g.hash] == g)
    ensures References(store[g.hash := g], roots[rb.hash := rb], last[rb.hash := None])
    ensures Geneses(store[g.hash := g], roots[rb.hash := rb], last[rb.hash := None], geneses[rb.hash := g], base)
    ensures rb.hash in roots ==> last[rb.hash] == None
  {
  }

  /** What every root block in rs confirms was mined on that root block's own chain. */
  ghost predicate AllSound(store: Store<MinorBody>, roots: Store<RootBody>, last: map<Hash, Option<Hash>>, base: nat,
                           rs: set<Hash>)
    requires Tree(roots, base) && References(store, roots, last) && rs <= roots.Keys
  {
    forall r :: r in rs && last[r].Some? ==> IsAncestor(roots, base, store[last[r].value].body.prevRoot, r)
  }

  ghost predicate Submap<K, V>(small: map<K, V>, big: map<K, V>) {
    forall k :: k in small ==> k in big && big[k] == small[k]
  }

  lemma SoundOf(store: Store<MinorBody>, roots: Store<RootBody>, last: map<Hash, Option<Hash>>, base: nat, rs: set<Hash>,
                r: Hash)
    requires Tree(roots, base) && References(store, roots, last) && rs <= roots.Keys
    requires AllSound(store, roots, last, base, rs) && r in rs
    ensures last[r].Some? ==> IsAncestor(roots, base, store[last[r].value].body.prevRoot, r)
  {
  }

  lemma SoundKept(store: Store<MinorBody>, roots: Store<RootBody>, last: map<Hash, Option<Hash>>, base: nat,
                  rs: set<Hash>, store': Store<MinorBody>, roots': Store<RootBody>, last': map<Hash, Option<Hash>>)
    requires Tree(roots, base) && References(store, roots, last) && rs <= roots.Keys
    requires Tree(roots', base) && References(store', roots', last')
    requires Submap(store, store') && Submap(roots, roots') && Submap(last, last')
    requires AllSound(store, roots, last, base, rs)
    ensures rs <= roots'.Keys && AllSound(store', roots', last', base, rs)
  {
    hide Tree, IsAncestor;
    forall r | r in rs && last'[r].Some?
      ensures IsAncestor(roots', base, store'[last'[r].value].body.prevRoot, r)
    {
      AncestorExtend(roots, roots', base, store[last[r].value].body.prevRoot, r);
    }
  }

  /** Storing one more genesis block and its root block moves no path, and no root block gets unsound. */
  lemma GenesisStored(store: Store<MinorBody>, roots: Store<RootBody>, last: map<Hash, Option<Hash>>,
                      geneses: map<Hash, MinorBlock>, base: nat, rs: set<Hash>, rb: RootBlock, g: MinorBlock,
                      tip: Hash, rootTip: Hash)
    requires Tree(store, 0) && Tree(roots, base) && rs <= roots.Keys && rb.hash != EMPTY_HASH && g.hash != EMPTY_HASH
    requires References(store, roots, last) && Geneses(store, roots, last, geneses, base)
    requires AllSound(store, roots, last, base, rs)
    requires rb.number == base && (rb.hash in roots ==> roots[rb.hash] == rb)
    requires g.number == 0 && g.body.prevRoot == rb.hash && (g.hash in store ==> store[g.hash] == g)
    requires tip in store && rootTip in roots && EmptyGeneses(store) && Empty(g)
    ensures EmptyGeneses(store[g.hash := g])
    ensures var store', roots', last' := store[g.hash := g], roots[rb.hash := rb], last[rb.hash := None];
            && Tree(store', 0) && Tree(roots', base) && References(store', roots', last')
            && Geneses(store', roots', last', geneses[rb.hash := g], base) && AllSound(store', roots', last', base, rs)
            && last'[rootTip] == last[rootTip] && Path(store', 0, tip) == Path(store, 0, tip)
            && (IsAncestor(roots, base, store[tip].body.prevRoot, rootTip) ==>
                  IsAncestor(roots', base, store[tip].body.prevRoot, rootTip))
            && (forall h :: h in store ==> (IsAncestor(store, 0, h, tip) <==> IsAncestor(store', 0, h, tip)))
  {
    hide Tree, Path, References, Geneses, AllSound, IsAncestor;
    var store', roots', last' := store[g.hash := g], roots[rb.hash := rb], last[rb.hash := None];
    ReferencesKeptByGenesis(store, roots, last, geneses, base, rb, g);
    ReferencesOf(store, roots, last, tip, rootTip);
    TreeGrows(roots, base, rb);
    TreeGrows(store, 0, g);
    PathExtend(store, store', 0, tip);
    AncestorExtend(roots, roots', base, store[tip].body.prevRoot, rootTip);
    SoundKept(store, roots, last, base, rs, store', roots', last');
    forall h | h in store
      ensures IsAncestor(store, 0, h, tip) <==> IsAncestor(store', 0, h, tip)
    {
      AncestorExtend(store, store', 0, h, tip);
    }
  }

  /** The first state: one root block and one genesis block that refer to each other. */
  lemma ReferencesAtStart(root: RootBlock, genesis: MinorBlock)
    requires root.hash != EMPTY_HASH && genesis.number == 0 && genesis.body.prevRoot == root.hash
    ensures References(map[genesis.hash := genesis], map[root.hash := root], map[root.hash := None])
    ensures Geneses(map[genesis.hash := genesis], map[root.hash := root], map[root.hash := None],
                    map[root.hash := genesis], root.number)
    ensures Tree(map[root.hash := root], root.number)
    ensures Empty(genesis) ==> EmptyGeneses(map[genesis.hash := genesis])
    ensures AllSound(map[genesis.hash := genesis], map[root.hash := root], map[root.hash := None], root.number,
                     {root.hash})
    ensures IsAncestor(map[root.hash := root], root.number, root.hash, root.hash)
  {
    SingleBlock(root);
  }

  lemma EmptyIndex(b: MinorBlock)
    requires Empty(b)
    ensures ChainKeys([b]) == {} && ChainLookup([b]) == map[]
  {
    assert BlockKeys(b) == {} && Contents(b) == [];
  }

  /** Overwriting only height 0 turns one chain's index into a genesis block's exactly on height 0. */
  lemma GenesisIndex(path: seq<MinorBlock>, g: MinorBlock)
    requires path != []
    ensures CanonOf(path)[0 := g.hash] == CanonOf([g]) <==> |path| == 1
  {
    if |path| > 1 {
      assert 1 in CanonOf(path)[0 := g.hash] && 1 !in CanonOf([g]);
    }
  }

  /** An exact index is right up to the tip, and one with just height 0 overwritten up to the genesis block there. */
  lemma ExactIsUpTo(canon: map<nat, Hash>, path: seq<MinorBlock>, g: MinorBlock)
    ensures canon == CanonOf(path) ==> UpTo(canon, path)
    ensures UpTo(canon[0 := g.hash], [g])
  {
  }

  lemma UpToBelow(canon: map<nat, Hash>, path: seq<MinorBlock>, b: MinorBlock)
    requires UpTo(canon, path + [b])
    ensures UpTo(canon, path)
  {
    forall n | 0 <= n < |path|
      ensures n in canon && canon[n] == path[n].hash
    {
      assert (path + [b])[n] == path[n];
    }
  }

  // ---------- which block is better ----------

  /** The first block is higher, or as high and mined on a root block at least as high. */
  ghost predicate AtLeast(roots: Store<RootBody>, x: MinorBlock, y: MinorBlock) {
    && x.body.prevRoot in roots && y.body.prevRoot in roots
    && (x.number > y.number || (x.number == y.number && roots[x.body.prevRoot].number >= roots[y.body.prevRoot].number))
  }

  /** The block may become the tip: it is mined on the root tip's chain and built on what that has confirmed. */
  ghost predicate Eligible(store: Store<MinorBody>, roots: Store<RootBody>, base: nat, rootTip: Hash, confirmed: Option<Hash>,
                           b: MinorBlock) {
    && Tree(store, 0) && Tree(roots, base) && b.parent in store && b.body.prevRoot in roots && rootTip in roots
    && (confirmed.Some? ==> confirmed.value in store)
    && IsAncestor(roots, base, b.body.prevRoot, rootTip)
    && (confirmed.Some? ==> IsAncestor(store, 0, confirmed.value, b.parent))
  }

  /** Growing stores change nothing about a block they can tell of already. */
  lemma EligibleBefore(store: Store<MinorBody>, roots: Store<RootBody>, store': Store<MinorBody>, roots': Store<RootBody>, base: nat,
                       rootTip: Hash, confirmed: Option<Hash>, b: MinorBlock)
    requires Tree(store, 0) && Tree(roots, base) && Submap(store, store') && Submap(roots, roots')
    requires b.parent in store && b.body.prevRoot in roots && rootTip in roots && (confirmed.Some? ==> confirmed.value in store)
    requires Eligible(store', roots', base, rootTip, confirmed, b)
    ensures Eligible(store, roots, base, rootTip, confirmed, b)
  {
    hide Path, Tree, IsAncestor;
    AncestorExtend(roots, roots', base, b.body.prevRoot, rootTip);
    if confirmed.Some? {
      AncestorExtend(store, store', 0, confirmed.value, b.parent);
    }
  }

  /** No root block was committed among the first n steps. */
  predicate NoCommit(steps: seq<Step>, n: nat)
    requires n <= |steps|
  {
    forall i :: 0 <= i < n ==> !steps[i].Commit?
  }

  lemma CommitsOne(steps: seq<Step>, n: nat)
    requires n < |steps|
    ensures NoCommit(steps, n + 1) <==> NoCommit(steps, n) && !steps[n].Commit?
  {
  }

  /** The tip is the one at the start or an inserted block, and no eligible block inserted is better. */
  ghost predicate Best(store: Store<MinorBody>, roots: Store<RootBody>, base: nat, rootTip: Hash, confirmed: Option<Hash>,
                       steps: seq<Step>, n: nat, first: MinorBlock, tip: MinorBlock)
    requires n <= |steps|
  {
    && AtLeast(roots, tip, first)
    && (tip == first || exists i :: 0 <= i < n && steps[i] == Insert(tip))
    && (forall i :: 0 <= i < n && steps[i].Insert? ==>
          && steps[i].block.parent in store && steps[i].block.body.prevRoot in roots
          && (Eligible(store, roots, base, rootTip, confirmed, steps[i].block) ==> AtLeast(roots, tip, steps[i].block)))
  }

  /** What a step that commits nothing does to the tip: an insert moves it to the block or not, and for the better. */
  ghost predicate Chosen(store: Store<MinorBody>, roots: Store<RootBody>, base: nat, rootTip: Hash, confirmed: Option<Hash>,
                         step: Step, tip: MinorBlock, tip': MinorBlock) {
    if step.Insert? then
      && step.block.parent in store && step.block.body.prevRoot in roots
      && AtLeast(roots, tip', tip) && (tip' == tip || tip' == step.block)
      && (Eligible(store, roots, base, rootTip, confirmed, step.block) ==> AtLeast(roots, tip', step.block))
    else tip' == tip
  }

  lemma StaysChosen(store: Store<MinorBody>, roots: Store<RootBody>, base: nat, rootTip: Hash, confirmed: Option<Hash>, step: Step,
                    tip: MinorBlock)
    ensures !step.Insert? ==> Chosen(store, roots, base, rootTip, confirmed, step, tip, tip)
  {
  }

  lemma BestKept(store: Store<MinorBody>, roots: Store<RootBody>, store': Store<MinorBody>, roots': Store<RootBody>, base: nat,
                 rootTip: Hash, confirmed: Option<Hash>, steps: seq<Step>, n: nat, first: MinorBlock, tip: MinorBlock,
                 tip': MinorBlock)
    requires n < |steps| && Best(store, roots, base, rootTip, confirmed, steps, n, first, tip)
    requires Tree(store, 0) && Tree(roots, base) && Submap(store, store') && Submap(roots, roots')
    requires rootTip in roots && (confirmed.Some? ==> confirmed.value in store)
    requires Chosen(store, roots, base, rootTip, confirmed, steps[n], tip, tip')
    ensures Best(store', roots', base, rootTip, confirmed, steps, n + 1, first, tip')
  {
    hide Tree, Eligible;
    forall i | 0 <= i <= n && steps[i].Insert? && Eligible(store', roots', base, rootTip, confirmed, steps[i].block)
      ensures AtLeast(roots', tip', steps[i].block)
    {
      EligibleBefore(store, roots, store', roots', base, rootTip, confirmed, steps[i].block);
    }
  }

  /** Where a run of the chain started. */
  datatype Start = Start(
    store: Store<MinorBody>, accepted: set<Hash>, rootTip: Hash, resets: nat, misled: nat, linked: bool, indexed: bool,
    exact: bool, tip: MinorBlock)

  class MinorBlockChain {
    const index: MinorIndex
    const branch: ShardId
    const genesisRootHeight: nat
    const maxBlocks: nat
    /** The configured genesis root heights of all shards. */
    const geneses: map<ShardId, nat>
    var store: Store<MinorBody>
    var roots: Store<RootBody>
    var rootTip: Hash
    var confirmedTip: Option<Hash>
    /** The last header of this shard confirmed up to each root block. */
    var lastConfirmed: map<Hash, Option<Hash>>
    /** The shard's genesis block for each root block at its genesis root height. */
    var genesisFor: map<Hash, MinorBlock>
    /** The root blocks that have passed the first part of AddRootBlock. */
    var prepared: set<Hash>
    /** Those that have passed both parts. */
    ghost var accepted: set<Hash>
    /** How often the chain started over from another genesis block when its tip was above height 0. */
    ghost var resets: nat
    /** How often a root block confirmed a block that only a stale entry of the index named. */
    ghost var misled: nat

    /** Starts from a root block at the shard's genesis root height and the genesis block made for it. */
    constructor (history: bool, branch: ShardId, maxBlocks: nat, geneses: map<ShardId, nat>, genesisRoot: RootBlock,
                 genesis: MinorBlock)
      requires genesisRoot.hash != EMPTY_HASH && genesis.hash != EMPTY_HASH
      requires genesis.number == 0 && genesis.body == MinorBody(genesisRoot.hash, [], [])
      ensures Valid() && fresh(index) && index.history == history && genesisRootHeight == genesisRoot.number
      ensures index.current == genesis.hash && rootTip == genesisRoot.hash && confirmedTip == None
      ensures store == map[genesis.hash := genesis] && roots == map[genesisRoot.hash := genesisRoot]
      ensures lastConfirmed == map[genesisRoot.hash := None] && genesisFor == map[genesisRoot.hash := genesis]
      ensures accepted == {genesisRoot.hash} && index.Indexes(Path(store, 0, index.current))
      ensures this.branch == branch && this.maxBlocks == maxBlocks && resets == misled == 0
    {
      hide Tree, Path, References, Geneses, EmptyGeneses, AllSound, IsAncestor, UpTo, CanonOf, ChainKeys, ChainLookup;
      ExactIsUpTo(CanonOf([genesis]), [genesis], genesis);
      ReferencesAtStart(genesisRoot, genesis);
      SingleBlock(genesisRoot);
      SingleBlock(genesis);
      index := new MinorIndex(history, genesis);
      this.branch, this.maxBlocks, this.geneses, genesisRootHeight := branch, maxBlocks, geneses, genesisRoot.number;
      store, roots := map[genesis.hash := genesis], map[genesisRoot.hash := genesisRoot];
      rootTip, confirmedTip := genesisRoot.hash, None;
      lastConfirmed, genesisFor := map[genesisRoot.hash := None], map[genesisRoot.hash := genesis];
      prepared, accepted := {genesisRoot.hash}, {genesisRoot.hash};
      resets, misled := 0, 0;
    }

    ghost predicate Stores()
      reads this`store, this`roots, this`lastConfirmed, this`genesisFor
    {
      && Tree(store, 0) && Tree(roots, genesisRootHeight) && EmptyGeneses(store)
      && References(store, roots, lastConfirmed) && Geneses(store, roots, lastConfirmed, genesisFor, genesisRootHeight)
    }

    /** The minor block was mined on a root block that r's chain contains. */
    ghost predicate MinedOn(h: Hash, r: Hash)
      requires Stores() && h in store && r in roots
      reads this`store, this`roots, this`lastConfirmed, this`genesisFor
    {
      IsAncestor(roots, genesisRootHeight, store[h].body.prevRoot, r)
    }

    /** What r confirms was mined on r's own chain. */
    ghost predicate SoundRoot(r: Hash)
      requires Stores() && r in roots
      reads this`store, this`roots, this`lastConfirmed, this`genesisFor
    {
      lastConfirmed[r].Some? ==> MinedOn(lastConfirmed[r].value, r)
    }

    ghost function Weight(r: Hash): nat
      requires r in roots
      reads this`roots
    {
      roots[r].body.totalDifficulty
    }

    /** The root tip is the heaviest accepted root block, and fixes the confirmed tip. */
    ghost predicate RootOk()
      reads this`store, this`roots, this`lastConfirmed, this`genesisFor, this`rootTip, this`confirmedTip, this`prepared
      reads this`accepted
    {
      && Stores() && rootTip in accepted && accepted <= prepared <= roots.Keys
      && AllSound(store, roots, lastConfirmed, genesisRootHeight, prepared)
      && (forall r :: r in accepted ==> Weight(r) <= Weight(rootTip))
      && confirmedTip == lastConfirmed[rootTip] && (confirmedTip.Some? ==> confirmedTip.value in store)
    }

    /** The current tip is mined on the root tip's chain. */
    ghost predicate OnRoot()
      requires Stores() && rootTip in roots
      reads this`store, this`roots, this`lastConfirmed, this`genesisFor, this`rootTip, index`current
    {
      index.current in store && MinedOn(index.current, rootTip)
    }

    /** It also descends from the confirmed tip. */
    ghost predicate TipOk()
      requires Stores() && rootTip in roots && (confirmedTip.Some? ==> confirmedTip.value in store)
      reads this`store, this`roots, this`lastConfirmed, this`genesisFor, this`rootTip, this`confirmedTip, index`current
    {
      OnRoot() && (confirmedTip.Some? ==> IsAncestor(store, 0, confirmedTip.value, index.current))
    }

    /** The same for a root block that is not the root tip yet. */
    ghost predicate TipOn(r: Hash)
      requires Stores() && r in roots
      reads this`store, this`roots, this`lastConfirmed, this`genesisFor, index`current
    {
      && index.current in store && MinedOn(index.current, r)
      && (lastConfirmed[r].Some? ==> IsAncestor(store, 0, lastConfirmed[r].value, index.current))
    }

    /** The canonical index is exactly the tip's chain. */
    ghost predicate IndexOk()
      requires Stores()
      reads this`store, this`roots, this`lastConfirmed, this`genesisFor, index`current, index`canon
    {
      index.current in store && index.Numbers(Path(store, 0, index.current))
    }

    /** It is the tip's chain up to the tip's height. */
    ghost predicate IndexedUp()
      requires Stores()
      reads this`store, this`roots, this`lastConfirmed, this`genesisFor, index`current, index`canon
    {
      index.current in store && index.NumbersUpTo(Path(store, 0, index.current))
    }

    /**
     * What holds after every step: always a heaviest root tip with the tip on its chain, and the index right
     * up to the tip; the tip above the confirmed one as long as the chain was never misled; and the whole
     * index as long as it never started over above height 0, without which it cannot be misled.
     */
    ghost predicate Valid()
      reads this, index
    {
      && RootOk() && OnRoot() && IndexedUp()
      && (misled == 0 ==> TipOk()) && (resets == 0 ==> IndexOk()) && (misled > 0 ==> resets > 0)
    }

    /** Nothing is confirmed yet, or b is above the confirmed tip on a chain that contains it. */
    method IsMinorBlockLinkedToRootTip(b: MinorBlock) returns (linked: bool)
      requires Stores() && (confirmedTip.Some? ==> confirmedTip.value in store)
      requires b.number > 0 && Linked(store, 0, b)
      ensures linked <==> confirmedTip.None? || LinkedAbove(b)
    {
      hide Tree;
      if confirmedTip.None? {
        return true;
      }
      if b.number <= store[confirmedTip.value].number {
        return false;
      }
      linked := BuiltOn(store, 0, b, confirmedTip.value);
    }

    ghost predicate LinkedAbove(b: MinorBlock)
      requires Tree(store, 0) && b.number > 0 && Linked(store, 0, b)
      requires confirmedTip.Some? && confirmedTip.value in store
      reads this
    {
      IsAncestor(store, 0, confirmedTip.value, b.parent)
    }

    /** The checks of the block validator that the chain relies on. */
    predicate Validated(b: MinorBlock)
      reads this`store, this`roots
    {
      && b.hash != EMPTY_HASH && b.number > 0 && Linked(store, 0, b) && b.body.prevRoot in roots
      && (b.hash in store ==> store[b.hash] == b)
    }

    /** The tip moves to b: it extends the tip, or is linked to the confirmed tip and higher, or equally
        high on a higher root block; and in any case it is mined on the root tip's chain. */
    ghost predicate Preferred(b: MinorBlock)
      requires RootOk() && OnRoot() && Validated(b)
      reads this, index
    {
      var tip := store[index.current];
      && IsAncestor(roots, genesisRootHeight, b.body.prevRoot, rootTip)
      && (|| b.parent == tip.hash
          || ((confirmedTip.None? || LinkedAbove(b))
              && (b.number > tip.number
                  || (b.number == tip.number
                      && roots[b.body.prevRoot].number > roots[tip.body.prevRoot].number))))
    }

    method UpdateTip(b: MinorBlock) returns (update: bool)
      requires RootOk() && OnRoot() && Validated(b)
      ensures update <==> Preferred(b)
    {
      hide Path, IsAncestor, Tree;
      var tip := store[index.current];
      var same := OnChainOf(roots, genesisRootHeight, rootTip, b.body.prevRoot);
      if !same {
        return false;
      }
      if b.parent == tip.hash {
        return true;
      }
      var linked := IsMinorBlockLinkedToRootTip(b);
      if !linked {
        return false;
      }
      return b.number > tip.number
             || (b.number == tip.number && roots[b.body.prevRoot].number > roots[tip.body.prevRoot].number);
    }

    /** Stores a validated block; the tip does not move. */
    method WriteBlock(b: MinorBlock)
      requires Valid() && Validated(b)
      modifies this`store
      ensures Valid() && store == old(store)[b.hash := b]
      ensures Path(store, 0, index.current) == old(Path(store, 0, index.current))
      ensures Path(store, 0, b.hash) == old(Path(store, 0, b.parent)) + [b]
      ensures TipOk() <==> old(TipOk())
      ensures IndexOk() <==> old(IndexOk())
      ensures old(Preferred(b)) && (old(TipOk()) || b.parent != index.current) && confirmedTip.Some? ==>
                IsAncestor(store, 0, confirmedTip.value, b.hash)
    {
      hide Path, Tree, IsAncestor, CanonOf, UpTo, References, Geneses, AllSound;
      ReferencesKept(store, roots, lastConfirmed, genesisFor, genesisRootHeight, b);
      var grown := store[b.hash := b];
      AddBlock(store, 0, b);
      PathExtend(store, grown, 0, index.current);
      if confirmedTip.Some? {
        ReferencesOf(store, roots, lastConfirmed, index.current, rootTip);
        AncestorsAfterAdd(store, 0, b, confirmedTip.value, index.current);
        AncestorExtend(store, grown, 0, confirmedTip.value, index.current);
        if Preferred(b) && (TipOk() || b.parent != index.current) {
          PreferredIsLinked(b);
        }
      }
      SoundKept(store, roots, lastConfirmed, genesisRootHeight, prepared, grown, roots, lastConfirmed);
      store := grown;
    }

    /** Makes a stored block the tip, moving the indexes over to its chain. */
    method MoveTip(b: MinorBlock)
      requires Valid() && b.hash in store && store[b.hash] == b && b.number > 0 && MinedOn(b.hash, rootTip)
      requires misled == 0 && confirmedTip.Some? ==> IsAncestor(store, 0, confirmedTip.value, b.hash)
      modifies index`canon, index`current, index`keys, index`lookup
      ensures Valid() && index.current == b.hash
      ensures old(IndexOk()) ==> IndexOk()
      ensures old(WellIndexed()) ==> index.Indexes(Path(store, 0, b.hash))
    {
      hide Path, Tree, IsAncestor, ShortChain, UniqueContents, ChainKeys, ChainLookup, CanonOf, UpTo, KeepsAbove;
      StoredBlock(store, 0, b.hash);
      ghost var below := Path(store, 0, b.parent);
      AddBlock(store, 0, b);
      assert store[b.hash := b] == store;
      if b.parent != index.current {
        index.Reorg(store, index.current, b.hash);
        UpToBelow(index.canon, below, b);
      }
      index.SetHead(b, below);
    }

    /** Stores a validated block and, if it is preferred, makes it the tip. */
    method InsertBlock(b: MinorBlock) returns (update: bool)
      requires Valid() && Validated(b)
      modifies this`store, index`canon, index`current, index`keys, index`lookup
      ensures Valid()
      ensures update <==> old(Preferred(b))
      ensures old(TipOk()) || (update && b.parent != old(index.current)) ==> TipOk()
      ensures old(IndexOk()) ==> IndexOk()
      ensures store == old(store)[b.hash := b] && index.current == if update then b.hash else old(index.current)
      ensures index.current in store && AtLeast(roots, store[index.current], old(store[index.current]))
      ensures old(Eligible(store, roots, genesisRootHeight, rootTip, confirmedTip, b)) ==> AtLeast(roots, store[index.current], b)
      ensures Chosen(old(store), roots, genesisRootHeight, rootTip, confirmedTip, Insert(b), old(store[index.current]),
                     store[index.current])
      ensures old(WellIndexed()) ==> index.Indexes(Path(store, 0, index.current))
    {
      hide Path, Tree, IsAncestor, ShortChain, UniqueContents, ChainKeys, ChainLookup, CanonOf, UpTo, References, Geneses,
        AllSound;
      StoredBlock(store, 0, index.current);
      ReferencesOf(store, roots, lastConfirmed, index.current, rootTip);
      update := UpdateTip(b);
      WriteBlock(b);
      if update {
        MoveTip(b);
      }
    }

    /** The whole index is right, on a chain the transaction index can handle. */
    ghost predicate WellIndexed()
      requires Tree(store, 0) && index.current in store
      reads this, index
    {
      var path := Path(store, 0, index.current);
      index.Indexes(path) && ShortChain(path) && UniqueContents(path)
    }

    /** Heights fit in 32 bits, and no hash repeats on any stored chain. */
    ghost predicate Clean()
      requires Tree(store, 0)
      reads this`store
    {
      forall h :: h in store ==> ShortChain(Path(store, 0, h)) && UniqueContents(Path(store, 0, h))
    }

    twostate lemma CleanBefore()
      requires old(Tree(store, 0)) && Tree(store, 0) && Submap(old(store), store)
      ensures Clean() ==> old(Clean())
    {
      hide Path, Tree, ShortChain, UniqueContents;
      forall h | h in old(store)
        ensures Path(store, 0, h) == Path(old(store), 0, h)
      {
        PathExtend(old(store), store, 0, h);
      }
    }

    /** A preferred block is built on the confirmed tip, if the tip is or the block is not on the tip. */
    lemma PreferredIsLinked(b: MinorBlock)
      requires RootOk() && OnRoot() && Validated(b) && confirmedTip.Some? && Preferred(b)
      requires TipOk() || b.parent != index.current
      ensures IsAncestor(store, 0, confirmedTip.value, b.parent)
    {
      hide Path, IsAncestor, Tree;
      StoredBlock(store, 0, index.current);
    }

    // ---------- root blocks ----------

    /** Stores a root block together with the last header of this shard confirmed up to it. */
    method PutRootBlock(rb: RootBlock, c: Option<Hash>)
      requires Valid() && rb.hash != EMPTY_HASH && rb.number >= genesisRootHeight
      requires rb.number > genesisRootHeight ==> Linked(roots, genesisRootHeight, rb)
      requires rb.hash in roots ==> roots[rb.hash] == rb && lastConfirmed[rb.hash] == c
      requires c.Some? ==> c.value in store
      requires rb.number == genesisRootHeight ==> c == None && GenesisOf(store, genesisFor, rb.hash)
      modifies this`roots, this`lastConfirmed
      ensures Valid() && roots == old(roots)[rb.hash := rb] && lastConfirmed == old(lastConfirmed)[rb.hash := c]
      ensures TipOk() <==> old(TipOk())
    {
      hide Path, Tree, IsAncestor, CanonOf, UpTo, References, Geneses, AllSound;
      ReferencesKeptByRoot(store, roots, lastConfirmed, genesisFor, genesisRootHeight, rb, c);
      TreeGrows(roots, genesisRootHeight, rb);
      ReferencesOf(store, roots, lastConfirmed, index.current, rootTip);
      var grown, lastGrown := roots[rb.hash := rb], lastConfirmed[rb.hash := c];
      AncestorExtend(roots, grown, genesisRootHeight, store[index.current].body.prevRoot, rootTip);
      SoundKept(store, roots, lastConfirmed, genesisRootHeight, prepared, store, grown, lastGrown);
      roots, lastConfirmed := grown, lastGrown;
    }

    /**
     * Another root block at the shard's genesis root height, with the genesis block made for it; the
     * shard has started already, so neither tip moves.
     */
    method InitGenesisState(rb: RootBlock, g: MinorBlock) returns (ok: bool)
      requires Valid() && rb.hash != EMPTY_HASH && g.hash != EMPTY_HASH
      requires g.number == 0 && g.body == MinorBody(rb.hash, [], [])
      requires rb.hash in roots ==> roots[rb.hash] == rb
      requires g.hash in store ==> store[g.hash] == g
      modifies this`store, this`roots, this`lastConfirmed, this`genesisFor
      ensures Valid() && (ok <==> rb.number == genesisRootHeight)
      ensures TipOk() <==> old(TipOk())
      ensures store == if ok then old(store)[g.hash := g] else old(store)
      ensures roots == if ok then old(roots)[rb.hash := rb] else old(roots)
      ensures lastConfirmed == if ok then old(lastConfirmed)[rb.hash := None] else old(lastConfirmed)
      ensures genesisFor == if ok then old(genesisFor)[rb.hash := g] else old(genesisFor)
      ensures Path(store, 0, index.current) == old(Path(store, 0, index.current))
    {
      hide Path, Tree, IsAncestor, CanonOf, UpTo, References, Geneses, EmptyGeneses, AllSound, MinorBlockChain.OnRoot,
        MinorBlockChain.TipOk, MinorBlockChain.IndexOk, MinorBlockChain.IndexedUp, MinorBlockChain.Stores;
      if rb.number != genesisRootHeight {
        return false;
      }
      StoreGenesis(rb, g);
      return true;
    }

    /** Stores a root block at the genesis root height with its genesis block. */
    method StoreGenesis(rb: RootBlock, g: MinorBlock)
      requires RootOk() && OnRoot() && rb.hash != EMPTY_HASH && g.hash != EMPTY_HASH && rb.number == genesisRootHeight
      requires g.number == 0 && g.body == MinorBody(rb.hash, [], [])
      requires rb.hash in roots ==> roots[rb.hash] == rb
      requires g.hash in store ==> store[g.hash] == g
      modifies this`store, this`roots, this`lastConfirmed, this`genesisFor
      ensures RootOk() && OnRoot() && (TipOk() <==> old(TipOk()))
      ensures (IndexOk() <==> old(IndexOk())) && (IndexedUp() <==> old(IndexedUp()))
      ensures store == old(store)[g.hash := g] && roots == old(roots)[rb.hash := rb]
      ensures lastConfirmed == old(lastConfirmed)[rb.hash := None] && genesisFor == old(genesisFor)[rb.hash := g]
      ensures Path(store, 0, index.current) == old(Path(store, 0, index.current))
    {
      hide Path, Tree, IsAncestor, CanonOf, UpTo, References, Geneses, EmptyGeneses, AllSound;
      ReferencesOf(store, roots, lastConfirmed, index.current, rootTip);
      GenesisStored(store, roots, lastConfirmed, genesisFor, genesisRootHeight, prepared, rb, g, index.current, rootTip);
      store, genesisFor := store[g.hash := g], genesisFor[rb.hash := g];
      roots, lastConfirmed := roots[rb.hash := rb], lastConfirmed[rb.hash := None];
    }

    /** The last header of this shard confirmed up to rb: its own last one, else its parent's. */
    ghost function Confirms(rb: RootBlock): Option<Hash>
      requires rb.parent in lastConfirmed
      reads this`lastConfirmed
    {
      var own := Own(rb.body.headers, branch);
      if own != [] then Some(own[|own| - 1].hash) else lastConfirmed[rb.parent]
    }

    /** The checks a root block has to pass before it is stored. */
    ghost predicate Admissible(rb: RootBlock)
      requires References(store, roots, lastConfirmed)
      reads this`store, this`roots, this`lastConfirmed
    {
      var own := Own(rb.body.headers, branch);
      && rb.number > genesisRootHeight && rb.parent in roots
      && (forall h :: h in own ==> h.hash in store)
      && |own| <= maxBlocks
      && (own != [] ==> own[0].number == 0 || lastConfirmed[rb.parent] == Some(own[0].parent))
    }

    /** This shard's headers of a root block, or none if the block of one of them is missing. */
    method CollectHeaders(headers: seq<MinorHeader>) returns (own: Option<seq<MinorHeader>>)
      ensures own.Some? <==> forall h :: h in Own(headers, branch) ==> h.hash in store
      ensures own.Some? ==> own.value == Own(headers, branch)
    {
      var hs := [];
      for i := 0 to |headers|
        invariant hs == Own(headers[..i], branch)
        invariant forall h :: h in hs ==> h.hash in store
      {
        assert headers[..i + 1][..i] == headers[..i];
        if headers[i].branch == branch {
          if headers[i].hash !in store {
            assert headers[i] in Own(headers, branch);
            return None;
          }
          hs := hs + [headers[i]];
        }
      }
      assert headers[..|headers|] == headers;
      return Some(hs);
    }

    /** Checks a root block and finds the last header of this shard confirmed up to it. */
    method CheckRootBlock(rb: RootBlock) returns (ok: bool, last: Option<Hash>)
      requires References(store, roots, lastConfirmed) && rb.number > genesisRootHeight
      ensures ok <==> Admissible(rb)
      ensures ok ==> last == Confirms(rb) && (last.Some? ==> last.value in store)
      ensures ok ==>
                var own := Own(rb.body.headers, branch);
                && |own| <= maxBlocks && (forall h :: h in own ==> h.hash in store) && rb.parent in lastConfirmed
                && (own != [] && own[0].number > 0 ==> lastConfirmed[rb.parent] == Some(own[0].parent))
                && last == if own == [] then lastConfirmed[rb.parent] else Some(own[|own| - 1].hash)
    {
      hide References;
      if rb.parent !in roots {
        return false, None;
      }
      var headers := CollectHeaders(rb.body.headers);
      if headers.None? || |headers.value| > maxBlocks {
        return false, None;
      }
      ReferencesOf(store, roots, lastConfirmed, rb.parent, rb.parent);
      var own := headers.value;
      last := lastConfirmed[rb.parent];
      if own != [] {
        if own[0].number != 0 && last != Some(own[0].parent) {
          return false, None;
        }
        last := Some(own[|own| - 1].hash);
      }
      return true, last;
    }

    /** What the cursor of this shard would read; the token plays no part in the check. */
    function Reading(lists: map<Hash, seq<Deposit>>): Cursor.Chain
      reads this`roots
    {
      Cursor.Chain(branch, 0, genesisRootHeight, roots, lists, geneses)
    }

    /** Of every other shard's header just those deposit lists are stored that have to be. */
    ghost predicate ListsAccepted(headers: seq<MinorHeader>, lists: map<Hash, seq<Deposit>>)
      reads this`roots
    {
      forall h :: h in headers && h.branch != branch ==> Delivery.AcceptedOnAdd(Reading(lists), h)
    }

    method CheckLists(headers: seq<MinorHeader>, lists: map<Hash, seq<Deposit>>) returns (ok: bool)
      ensures ok <==> ListsAccepted(headers, lists)
    {
      hide Delivery.AcceptedOnAdd;
      for i := 0 to |headers|
        invariant ListsAccepted(headers[..i], lists)
      {
        if headers[i].branch != branch && !Delivery.AcceptedOnAdd(Reading(lists), headers[i]) {
          return false;
        }
      }
      assert headers[..|headers|] == headers;
      return true;
    }

    /**
     * The part of AddRootBlock before the lock, with the deposit lists stored by then. A root block that
     * confirms a minor block mined off its own chain is refused, but only after it has been stored.
     */
    method PrepareRootBlock(rb: RootBlock, version: nat, lists: map<Hash, seq<Deposit>>) returns (r: Prepared)
      requires Valid() && rb.hash != EMPTY_HASH
      requires rb.hash in roots ==> roots[rb.hash] == rb
      requires rb.parent in roots ==> Linked(roots, genesisRootHeight, rb)
      modifies this`roots, this`lastConfirmed, this`prepared
      ensures Valid() && (TipOk() <==> old(TipOk()))
      ensures r.Rejected? || r.Known? ==> roots == old(roots) && lastConfirmed == old(lastConfirmed)
      ensures r.Known? <==> version == 0 && rb.number > genesisRootHeight && rb.hash in old(roots)
      ensures r.OffChain? || r.Ready? <==>
                version == 0 && rb.hash !in old(roots) && old(Admissible(rb)) && old(ListsAccepted(rb.body.headers, lists))
      ensures r.OffChain? || r.Ready? ==>
                && roots == old(roots)[rb.hash := rb]
                && lastConfirmed == old(lastConfirmed)[rb.hash := old(Confirms(rb))]
      ensures r.Ready? ==> SoundRoot(rb.hash)
      ensures r.OffChain? ==> !SoundRoot(rb.hash)
      ensures prepared == old(prepared) + if r.Ready? then {rb.hash} else {}
    {
      hide Path, Tree, IsAncestor, CanonOf, UpTo, References, Geneses, Own, MinorBlockChain.IndexOk, MinorBlockChain.TipOk,
        MinorBlockChain.OnRoot, MinorBlockChain.IndexedUp, AllSound, MinorBlockChain.Confirms, MinorBlockChain.Admissible, MinorBlockChain.ListsAccepted;
      if rb.number <= genesisRootHeight {
        AdmissibleIsAbove(rb);
        return Rejected;
      }
      if version != 0 {
        return Rejected;
      }
      if rb.hash in roots {
        return Known;
      }
      var ok, last := CheckRootBlock(rb);
      var listsOk := CheckLists(rb.body.headers, lists);
      if !ok || !listsOk {
        return Rejected;
      }
      AdmissibleIsAbove(rb);
      PutRootBlock(rb, last);
      if last.Some? {
        ReferencesOf(store, roots, lastConfirmed, last.value, rb.hash);
        var same := OnChainOf(roots, genesisRootHeight, rb.hash, store[last.value].body.prevRoot);
        if !same {
          return OffChain;
        }
      }
      MarkPrepared(rb.hash);
      return Ready;
    }

    method MarkPrepared(r: Hash)
      requires Valid() && r in roots && SoundRoot(r)
      modifies this`prepared
      ensures Valid() && prepared == old(prepared) + {r}
      ensures TipOk() <==> old(TipOk())
    {
      hide Path, Tree, IsAncestor, CanonOf, UpTo, References, Geneses, EmptyGeneses, MinorBlockChain.IndexOk,
        MinorBlockChain.TipOk, MinorBlockChain.OnRoot, MinorBlockChain.IndexedUp;
      prepared := prepared + {r};
    }

    lemma AdmissibleIsAbove(rb: RootBlock)
      requires References(store, roots, lastConfirmed)
      ensures Admissible(rb) ==> rb.number > genesisRootHeight && rb.parent in roots
    {
    }

    /** The index names the block at its height. */
    predicate Names(h: Hash)
      requires h in store
      reads this`store, index`canon
    {
      store[h].number in index.canon && index.canon[store[h].number] == h
    }

    /** What r confirms is above the tip, but an entry left there names it. */
    ghost predicate FalselyNamed(r: Hash)
      requires Stores() && r in roots && index.current in store
      reads this`store, this`roots, this`lastConfirmed, this`genesisFor, index`current, index`canon
    {
      lastConfirmed[r].Some? && store[lastConfirmed[r].value].number > store[index.current].number
      && Names(lastConfirmed[r].value)
    }

    /** The chain the rewind starts on: the tip's, unless the index does not name what r confirms. */
    ghost function StartTip(r: Hash): Hash
      requires Stores() && r in roots && index.current in store
      reads this`store, this`roots, this`lastConfirmed, this`genesisFor, index`current, index`canon
    {
      if lastConfirmed[r].Some? && !Names(lastConfirmed[r].value) then lastConfirmed[r].value else index.current
    }

    /** No block of that chain, not even its genesis block, was mined on r's chain. */
    ghost predicate GenesisFork(r: Hash)
      requires Stores() && r in roots && index.current in store
      reads this`store, this`roots, this`lastConfirmed, this`genesisFor, index`current, index`canon
    {
      forall h :: h in store && IsAncestor(store, 0, h, StartTip(r)) ==> !MinedOn(h, r)
    }

    ghost predicate Heavier(r: Hash)
      requires r in roots && rootTip in roots
      reads this`roots, this`rootTip
    {
      Weight(r) > Weight(rootTip)
    }

    /** On the chain of `start`, tip is the highest block mined on r's chain. */
    ghost predicate Highest(tip: Hash, start: Hash, r: Hash)
      requires Stores() && r in roots && start in store
      reads this`store, this`roots, this`lastConfirmed, this`genesisFor
    {
      && tip in store && IsAncestor(store, 0, tip, start) && MinedOn(tip, r)
      && forall h :: h in store && IsAncestor(store, 0, h, start) && MinedOn(h, r) ==> IsAncestor(store, 0, h, tip)
    }

    /**
     * Goes down from the tip to the highest block mined on r's chain; there is none if it gets past
     * the genesis block.
     */
    method Rewind(r: Hash) returns (found: bool)
      requires Stores() && r in roots && index.current in store
      modifies index`current
      ensures found ==> Highest(index.current, old(index.current), r)
      ensures !found ==> index.current in store && store[index.current].number == 0
      ensures !found ==> forall h :: h in store && IsAncestor(store, 0, h, old(index.current)) ==> !MinedOn(h, r)
    {
      hide Path, IsAncestor, Tree, References, Geneses;
      AncestorSelf(store, 0, index.current);
      found := true;
      ReferencesOf(store, roots, lastConfirmed, index.current, r);
      var same := OnChainOf(roots, genesisRootHeight, r, store[index.current].body.prevRoot);
      while !same
        invariant index.current in store && IsAncestor(store, 0, index.current, old(index.current))
        invariant same <==> MinedOn(index.current, r)
        invariant forall h :: h in store && IsAncestor(store, 0, h, old(index.current)) && MinedOn(h, r) ==>
                    IsAncestor(store, 0, h, index.current)
        decreases store[index.current].number
      {
        StoredBlock(store, 0, index.current);
        if store[index.current].number == 0 {
          forall h | h in store && IsAncestor(store, 0, h, index.current)
            ensures h == index.current
          {
            AncestorOfLowest(store, 0, h, index.current);
          }
          return false;
        }
        ghost var above := index.current;
        forall h | h in store
          ensures IsAncestor(store, 0, h, above) && h != above ==> IsAncestor(store, 0, h, store[above].parent)
        {
          AncestorParent(store, 0, h, above);
        }
        AncestorParent(store, 0, above, above);
        AncestorTransitive(store, 0, store[above].parent, above, old(index.current));
        index.current := store[index.current].parent;
        ReferencesOf(store, roots, lastConfirmed, index.current, r);
        same := OnChainOf(roots, genesisRootHeight, r, store[index.current].body.prevRoot);
      }
    }

    /** Up to the tip's height, being named by the index is being an ancestor of the tip. */
    lemma NamedMeansAncestor(c: Hash)
      requires Stores() && IndexedUp() && c in store
      ensures store[c].number <= store[index.current].number ==> (Names(c) <==> IsAncestor(store, 0, c, index.current))
      ensures store[c].number > store[index.current].number ==> !IsAncestor(store, 0, c, index.current)
      ensures IndexOk() ==> (Names(c) <==> IsAncestor(store, 0, c, index.current))
    {
      hide Tree, Path, References, Geneses, EmptyGeneses;
      AncestorAt(store, 0, c, index.current);
    }

    /** With an exact index nothing is falsely named, and only a shard without confirmed blocks can start over. */
    lemma ForkMeans(r: Hash)
      requires Stores() && IndexedUp() && r in roots && SoundRoot(r)
      ensures IndexOk() ==> !FalselyNamed(r)
      ensures GenesisFork(r) && !FalselyNamed(r) ==> lastConfirmed[r].None?
    {
      hide Path, IsAncestor, Tree, References, Geneses, CanonOf, UpTo;
      ReferencesOf(store, roots, lastConfirmed, r, r);
      var last := lastConfirmed[r];
      if last.Some? {
        NamedMeansAncestor(last.value);
        AncestorSelf(store, 0, last.value);
      }
    }

    /** Before the rewind: if the index does not name what r confirms, that becomes the tip. */
    method StartAtConfirmed(r: Hash)
      requires Stores() && IndexedUp() && r in roots
      modifies index`current
      ensures index.current in store && index.current == old(StartTip(r))
      ensures lastConfirmed[r].Some? && !old(FalselyNamed(r)) ==> IsAncestor(store, 0, lastConfirmed[r].value, index.current)
      ensures old(FalselyNamed(r)) ==> store[index.current].number < store[lastConfirmed[r].value].number
    {
      hide Path, IsAncestor, Tree, References, Geneses, CanonOf, UpTo;
      ReferencesOf(store, roots, lastConfirmed, r, r);
      var last := lastConfirmed[r];
      if last.Some? {
        NamedMeansAncestor(last.value);
        AncestorSelf(store, 0, last.value);
        if !Names(last.value) {
          index.current := last.value;
        }
      }
    }

    /** The genesis block made for the root block r's chain starts with. */
    method GenesisFor(r: Hash) returns (g: MinorBlock)
      requires Stores() && r in roots
      ensures g.hash in store && store[g.hash] == g && g.number == 0 && MinedOn(g.hash, r)
    {
      hide Path, Tree, References;
      var root := BlockByHeight(roots, genesisRootHeight, r, genesisRootHeight);
      StoredBlock(roots, genesisRootHeight, r);
      PathPrefix(roots, genesisRootHeight, r, 0);
      g := genesisFor[root.value.hash];
    }

    /**
     * Moves the tip onto r's chain. The tip then descends from what r confirms exactly unless that was falsely
     * named. If the chain has to start over from another genesis block, only height 0 of the index is overwritten,
     * since the tip has already been rewound to height 0 when the entries above it should be deleted.
     */
    method SwitchTip(r: Hash) returns (reset: bool)
      requires Valid() && r in prepared
      modifies index`canon, index`current, index`keys, index`lookup
      ensures index.current in store && MinedOn(index.current, r) && IndexedUp()
      ensures TipOn(r) <==> !old(FalselyNamed(r))
      ensures old(FalselyNamed(r)) ==> store[index.current].number < store[lastConfirmed[r].value].number
      ensures reset <==> old(GenesisFork(r))
      ensures old(IndexOk()) ==> (IndexOk() <==> !(reset && store[old(index.current)].number > 0))
      ensures reset ==> index.canon == old(index.canon)[0 := index.current] && store[index.current].number == 0
      ensures !reset ==> Highest(index.current, old(StartTip(r)), r)
      ensures old(WellIndexed()) && IndexOk() ==> index.Indexes(Path(store, 0, index.current))
    {
      hide Path, IsAncestor, Tree, References, Geneses, CanonOf, UpTo, KeepsAbove, ChainKeys, ChainLookup, ShortChain,
        UniqueContents;
      var orig := index.current;
      ReferencesOf(store, roots, lastConfirmed, r, r);
      StartAtConfirmed(r);
      var found := Rewind(r);
      if !found {
        var g := GenesisFor(r);
        GenesisIndex(Path(store, 0, orig), g);
        StartsOver(orig, g);
        ExactIsUpTo(index.canon, [], g);
        index.Insert(g);
        HeightsBelow(r);
        return true;
      }
      HeightsBelow(r);
      if index.current != orig {
        index.Reorg(store, orig, index.current);
      }
      return false;
    }

    /** The tip descends from what r confirms only if it is at least as high. */
    lemma HeightsBelow(r: Hash)
      requires Stores() && r in roots && index.current in store
      ensures lastConfirmed[r].Some? && store[index.current].number < store[lastConfirmed[r].value].number ==> !TipOn(r)
      ensures forall h :: h in store && IsAncestor(store, 0, index.current, h) ==> store[index.current].number <= store[h].number
    {
      hide Path, IsAncestor, Tree, References, Geneses;
      ReferencesOf(store, roots, lastConfirmed, r, r);
      if lastConfirmed[r].Some? {
        AncestorAt(store, 0, lastConfirmed[r].value, index.current);
      }
      forall h | h in store && IsAncestor(store, 0, index.current, h)
        ensures store[index.current].number <= store[h].number
      {
        AncestorAt(store, 0, index.current, h);
      }
    }

    /** Genesis blocks have the same, empty, transaction index. */
    lemma StartsOver(orig: Hash, g: MinorBlock)
      requires Stores() && g.hash in store && store[g.hash] == g && g.number == 0 && orig in store
      ensures Path(store, 0, g.hash) == [g]
      ensures store[orig].number == 0 ==> var path := Path(store, 0, orig);
                ChainKeys([g]) == ChainKeys(path) && ChainLookup([g]) == ChainLookup(path)
    {
      EmptyIndex(g);
      if store[orig].number == 0 {
        EmptyIndex(store[orig]);
      }
    }

    /**
     * The part of AddRootBlock under the lock. The tip is on the root tip's chain in every case, so the error
     * return cannot happen; it descends from the confirmed tip after a switch exactly unless that was falsely named.
     */
    method CommitRootBlock(r: Hash) returns (res: Committed)
      requires Valid() && r in prepared
      modifies this`rootTip, this`confirmedTip, this`accepted, this`resets, this`misled
      modifies index`canon, index`current, index`keys, index`lookup
      ensures Valid() && accepted == old(accepted) + {r}
      ensures res != NotSameRootChain
      ensures res == Kept <==> !old(Heavier(r))
      ensures res == Kept ==> rootTip == old(rootTip) && confirmedTip == old(confirmedTip) && index.current == old(index.current)
      ensures res == Kept ==> (TipOk() <==> old(TipOk()))
      ensures rootTip == if Weight(r) > old(Weight(rootTip)) then r else old(rootTip)
      ensures res != Kept ==> rootTip == r && confirmedTip == lastConfirmed[r]
      ensures res != Kept ==> (TipOk() <==> !old(FalselyNamed(r)))
      ensures res != Kept && !TipOk() ==> store[index.current].number < store[confirmedTip.value].number
      ensures res == GenesisReset <==> old(GenesisFork(r)) && res != Kept
      ensures old(IndexOk()) ==> (IndexOk() <==> !(res == GenesisReset && store[old(index.current)].number > 0))
      ensures res == GenesisReset ==> index.canon == old(index.canon)[0 := index.current] && store[index.current].number == 0
      ensures res == Switched ==> Highest(index.current, old(StartTip(r)), r)
      ensures old(WellIndexed()) && IndexOk() ==> index.Indexes(Path(store, 0, index.current))
      ensures resets == old(resets) + if old(ResetsAbove(r)) then 1 else 0
      ensures misled == old(misled) + if old(Misleads(r)) then 1 else 0
      ensures old(IndexOk()) ==> misled == old(misled)
    {
      hide Path, IsAncestor, Tree, References, Geneses, CanonOf, UpTo, ChainKeys, ChainLookup, ShortChain, UniqueContents,
        AllSound, MinorBlockChain.GenesisFork, MinorBlockChain.FalselyNamed, MinorBlockChain.Highest;
      ReferencesOf(store, roots, lastConfirmed, index.current, rootTip);
      if roots[r].body.totalDifficulty <= roots[rootTip].body.totalDifficulty {
        var same := OnChainOf(roots, genesisRootHeight, rootTip, store[index.current].body.prevRoot);
        if !same {
          return NotSameRootChain;
        }
        accepted := accepted + {r};
        return Kept;
      }
      var reset := SwitchRoot(r);
      return if reset then GenesisReset else Switched;
    }

    /** Makes a heavier root block the root tip, and what it confirms the confirmed tip. */
    method SetRootTip(r: Hash)
      requires RootOk() && r in prepared && Heavier(r) && index.current in store
      modifies this`rootTip, this`confirmedTip, this`accepted
      ensures RootOk() && rootTip == r && confirmedTip == lastConfirmed[r] && accepted == old(accepted) + {r}
      ensures OnRoot() <==> MinedOn(index.current, r)
      ensures TipOk() <==> TipOn(r)
    {
      hide Path, IsAncestor, Tree, References, Geneses, EmptyGeneses, AllSound;
      ReferencesOf(store, roots, lastConfirmed, r, r);
      rootTip, confirmedTip := r, lastConfirmed[r];
      accepted := accepted + {r};
    }

    lemma CanCommit(r: Hash)
      requires Valid() && r in prepared
      ensures Stores() && r in roots && rootTip in roots && r in lastConfirmed && index.current in store
      ensures lastConfirmed[r].Some? ==> lastConfirmed[r].value in store
      ensures IndexOk() ==> !FalselyNamed(r)
    {
      hide Path, IsAncestor, Tree, References, Geneses, EmptyGeneses, CanonOf, UpTo, AllSound, MinorBlockChain.GenesisFork,
        MinorBlockChain.FalselyNamed;
      ReferencesOf(store, roots, lastConfirmed, r, r);
      SoundOf(store, roots, lastConfirmed, genesisRootHeight, prepared, r);
      ForkMeans(r);
    }

    /** The commit of a heavier root block. */
    method SwitchRoot(r: Hash) returns (reset: bool)
      requires Valid() && r in prepared && Heavier(r)
      modifies this`rootTip, this`confirmedTip, this`accepted, this`resets, this`misled
      modifies index`canon, index`current, index`keys, index`lookup
      ensures Valid() && accepted == old(accepted) + {r} && rootTip == r && confirmedTip == lastConfirmed[r]
      ensures TipOk() <==> !old(FalselyNamed(r))
      ensures old(FalselyNamed(r)) ==> store[index.current].number < store[lastConfirmed[r].value].number
      ensures reset <==> old(GenesisFork(r))
      ensures old(IndexOk()) ==> (IndexOk() <==> !(reset && store[old(index.current)].number > 0)) && !old(FalselyNamed(r))
      ensures reset ==> index.canon == old(index.canon)[0 := index.current] && store[index.current].number == 0
      ensures !reset ==> Highest(index.current, old(StartTip(r)), r)
      ensures old(WellIndexed()) && IndexOk() ==> index.Indexes(Path(store, 0, index.current))
      ensures resets == old(resets) + if reset && store[old(index.current)].number > 0 then 1 else 0
      ensures misled == old(misled) + if old(FalselyNamed(r)) then 1 else 0
    {
      hide Path, IsAncestor, Tree, References, Geneses, CanonOf, UpTo, ChainKeys, ChainLookup, ShortChain, UniqueContents,
        AllSound, MinorBlockChain.GenesisFork, MinorBlockChain.FalselyNamed, MinorBlockChain.WellIndexed,
        MinorBlockChain.Highest, MinorBlockChain.TipOk, MinorBlockChain.TipOn, MinorBlockChain.IndexOk,
        MinorBlockChain.IndexedUp, MinorBlockChain.Stores, MinorBlockChain.RootOk;
      CanCommit(r);
      ghost var high, named := store[index.current].number > 0, FalselyNamed(r);
      reset := SwitchTip(r);
      SetRootTip(r);
      resets := resets + if reset && high then 1 else 0;
      misled := misled + if named then 1 else 0;
    }

    /** Committing r makes the chain start over from another genesis block although its tip is above height 0. */
    ghost predicate ResetsAbove(r: Hash)
      requires Stores() && r in roots && rootTip in roots && index.current in store
      reads this`store, this`roots, this`lastConfirmed, this`genesisFor, this`rootTip, index`current, index`canon
    {
      Heavier(r) && GenesisFork(r) && store[index.current].number > 0
    }

    /** Committing r leaves the tip off what r confirms. */
    ghost predicate Misleads(r: Hash)
      requires Stores() && r in roots && rootTip in roots && index.current in store
      reads this`store, this`roots, this`lastConfirmed, this`genesisFor, this`rootTip, index`current, index`canon
    {
      Heavier(r) && FalselyNamed(r)
    }

    /** What the block validators and the hashes guarantee of a step's blocks. */
    predicate CanTake(step: Step)
      reads this`store, this`roots, this`prepared
    {
      match step
      case Insert(b) => Validated(b)
      case NewGenesis(rb, g) =>
        && rb.hash != EMPTY_HASH && g.hash != EMPTY_HASH && g.number == 0 && g.body == MinorBody(rb.hash, [], [])
        && (rb.hash in roots ==> roots[rb.hash] == rb) && (g.hash in store ==> store[g.hash] == g)
      case Prepare(rb, _, _) =>
        && rb.hash != EMPTY_HASH && (rb.hash in roots ==> roots[rb.hash] == rb)
        && (rb.parent in roots ==> Linked(roots, genesisRootHeight, rb))
      case Commit(r) => r in prepared
    }

    /** A step that only stores something: neither tip moves. */
    method Learn(step: Step)
      requires Valid() && CanTake(step) && (step.NewGenesis? || step.Prepare?)
      modifies this`store, this`roots, this`lastConfirmed, this`genesisFor, this`prepared
      ensures Valid() && (TipOk() <==> old(TipOk())) && (IndexOk() <==> old(IndexOk()))
      ensures Submap(old(store), store) && Submap(old(roots), roots)
      ensures index.current in store && store[index.current] == old(store[index.current])
      ensures Path(store, 0, index.current) == old(Path(store, 0, index.current))
    {
      hide Path, Tree, IsAncestor, References, Geneses, CanonOf, UpTo, AllSound, MinorBlockChain.Confirms, MinorBlockChain.Admissible,
        MinorBlockChain.MinedOn;
      match step {
        case NewGenesis(rb, g) =>
          var _ := InitGenesisState(rb, g);
        case Prepare(rb, version, lists) =>
          var _ := PrepareRootBlock(rb, version, lists);
      }
    }

    /** One step, whatever came before it. */
    method Take(step: Step)
      requires Valid() && CanTake(step)
      modifies this, index`canon, index`current, index`keys, index`lookup
      ensures Valid()
      ensures resets == old(resets) + if step.Commit? && old(ResetsAbove(step.hash)) then 1 else 0
      ensures misled == old(misled) + if step.Commit? && old(Misleads(step.hash)) then 1 else 0
      ensures old(TipOk()) && misled == old(misled) ==> TipOk()
      ensures misled > old(misled) ==> !TipOk()
      ensures old(IndexOk()) ==> (IndexOk() <==> resets == old(resets)) && misled == old(misled)
      ensures old(accepted) <= accepted && old(rootTip) in roots
      ensures rootTip == old(rootTip) || Weight(old(rootTip)) < Weight(rootTip)
      ensures Submap(old(store), store) && Submap(old(roots), roots)
      ensures !step.Commit? ==>
                && rootTip == old(rootTip) && confirmedTip == old(confirmedTip)
                && index.current in store
                && Chosen(old(store), old(roots), genesisRootHeight, rootTip, confirmedTip, step, old(store[index.current]),
                          store[index.current])
      ensures old(index.Indexes(Path(store, 0, index.current))) && Clean() && resets == old(resets) ==>
                index.Indexes(Path(store, 0, index.current))
    {
      hide Path, Tree, IsAncestor, References, Geneses, CanonOf, UpTo, AllSound, MinorBlockChain.GenesisFork,
        MinorBlockChain.Confirms, MinorBlockChain.Admissible, MinorBlockChain.MinedOn, MinorBlockChain.FalselyNamed, Chosen,
        AtLeast, Eligible, MinorBlockChain.Preferred, MinorBlockChain.Highest;
      StaysChosen(store, roots, genesisRootHeight, rootTip, confirmedTip, step, store[index.current]);
      match step {
        case Insert(b) =>
          var _ := InsertBlock(b);
        case NewGenesis(_, _) =>
          Learn(step);
        case Prepare(_, _, _) =>
          Learn(step);
        case Commit(r) =>
          var _ := CommitRootBlock(r);
      }
      CleanBefore();
    }

    lemma BestAtStart(steps: seq<Step>)
      requires Valid()
      ensures NoCommit(steps, 0)
      ensures Best(store, roots, genesisRootHeight, rootTip, confirmedTip, steps, 0, store[index.current], store[index.current])
    {
      hide Path, Tree, IsAncestor, CanonOf, UpTo, Geneses, EmptyGeneses, AllSound, Eligible;
    }

    ghost function Now(): Start
      requires Valid()
      reads this, index
    {
      Start(store, accepted, rootTip, resets, misled, TipOk(), IndexOk(), index.Indexes(Path(store, 0, index.current)),
            store[index.current])
    }

    /** What holds after any steps since the start. */
    ghost predicate Since(s: Start, steps: seq<Step>, n: nat)
      requires Valid() && n <= |steps|
      reads this, index
    {
      && Submap(s.store, store) && s.resets <= resets && s.misled <= misled
      && (s.linked && misled == s.misled ==> TipOk())
      && (s.indexed && resets == s.resets ==> IndexOk() && misled == s.misled)
      && (s.exact && Clean() && resets == s.resets ==> index.Indexes(Path(store, 0, index.current)))
      && s.accepted <= accepted && s.rootTip in roots && (rootTip == s.rootTip || Weight(s.rootTip) < Weight(rootTip))
      && (NoCommit(steps, n) ==>
            Best(store, roots, genesisRootHeight, rootTip, confirmedTip, steps, n, s.tip, store[index.current]))
    }

    lemma SinceStart(steps: seq<Step>)
      requires Valid()
      ensures Since(Now(), steps, 0)
    {
      BestAtStart(steps);
      hide Path, Tree, IsAncestor, CanonOf, UpTo, Geneses, EmptyGeneses, AllSound, Best, MinorBlockChain.Clean;
    }

    lemma SinceMeans(s: Start, steps: seq<Step>, n: nat)
      requires Valid() && n <= |steps| && Since(s, steps, n)
      ensures s.resets <= resets && s.misled <= misled && (s.linked && misled == s.misled ==> TipOk())
      ensures s.indexed && resets == s.resets ==> IndexOk() && misled == s.misled
      ensures s.exact && Clean() && resets == s.resets ==> index.Indexes(Path(store, 0, index.current))
      ensures s.accepted <= accepted && s.rootTip in roots && (rootTip == s.rootTip || Weight(s.rootTip) < Weight(rootTip))
      ensures NoCommit(steps, n) ==>
                Best(store, roots, genesisRootHeight, rootTip, confirmedTip, steps, n, s.tip, store[index.current])
    {
      hide Path, Tree, IsAncestor, CanonOf, UpTo, Geneses, EmptyGeneses, AllSound, Best, MinorBlockChain.Clean;
    }

    /** One more step of a run. */
    method Advance(steps: seq<Step>, n: nat, ghost start: Start)
      requires Valid() && n < |steps| && CanTake(steps[n]) && Since(start, steps, n)
      modifies this, index`canon, index`current, index`keys, index`lookup
      ensures Valid() && Since(start, steps, n + 1)
    {
      hide Path, Tree, IsAncestor, References, Geneses, EmptyGeneses, AllSound, UpTo, CanonOf, MinorBlockChain.MinedOn,
        MinorBlockChain.CanTake, MinorBlockChain.Clean, Best, Chosen, NoCommit, MinorBlockChain.TipOk,
        MinorBlockChain.IndexOk, MinorBlockChain.IndexedUp;
      ghost var tip := store[index.current];
      Take(steps[n]);
      CleanBefore();
      CommitsOne(steps, n);
      if NoCommit(steps, n + 1) {
        BestKept(old(store), old(roots), store, roots, genesisRootHeight, rootTip, confirmedTip, steps, n, start.tip, tip,
                 store[index.current]);
      }
    }

    /**
     * Any interleaving of inserts, genesis blocks and root-block additions, also after the chain has started
     * over from another genesis block: the root tip stays heaviest and never gets lighter, the tip stays on its
     * chain, and the index is right up to the tip. The tip stays above the confirmed tip as long as the run does
     * not mislead the chain, and the whole index stays right as long as the chain does not start over above
     * height 0.
     */
    method Run(steps: seq<Step>) returns (taken: nat)
      requires Valid()
      modifies this, index`canon, index`current, index`keys, index`lookup
      ensures Valid() && taken <= |steps|
      ensures taken < |steps| ==> !CanTake(steps[taken])
      ensures old(resets) <= resets && old(misled) <= misled
      ensures old(TipOk()) && misled == old(misled) ==> TipOk()
      ensures old(IndexOk()) && resets == old(resets) ==> IndexOk() && misled == old(misled)
      ensures old(index.Indexes(Path(store, 0, index.current))) && Clean() && resets == old(resets) ==>
                index.Indexes(Path(store, 0, index.current))
      ensures old(accepted) <= accepted && old(rootTip) in roots
      ensures rootTip == old(rootTip) || Weight(old(rootTip)) < Weight(rootTip)
      ensures NoCommit(steps, taken) ==>
                Best(store, roots, genesisRootHeight, rootTip, confirmedTip, steps, taken, old(store[index.current]),
                     store[index.current])
    {
      ghost var start := Now();
      SinceStart(steps);
      hide MinorBlockChain.Since, MinorBlockChain.CanTake, Tree, Path, Best, NoCommit, IsAncestor, References, Geneses, AllSound, UpTo,
        CanonOf;
      taken := 0;
      while taken < |steps| && CanTake(steps[taken])
        invariant taken <= |steps| && Valid() && Since(start, steps, taken)
      {
        Advance(steps, taken, start);
        taken := taken + 1;
      }
      SinceMeans(start, steps, taken);
    }
  }

  /** In a tree of two chains from height 0, the lowest block of one is not an ancestor on the other. */
  lemma TwoChains<T>(store: Store<T>, a: Hash, b: Hash, top: Hash)
    requires Tree(store, 0) && a in store && b in store && top in store && a != b
    requires store[a].number == 0 && store[top].number == 1 && store[top].parent == b
    ensures !IsAncestor(store, 0, a, top)
  {
    AncestorAt(store, 0, a, top);
    assert Path(store, 0, top) == Path(store, 0, b) + [store[top]];
  }

  /** A shard at height 1. */
  method AtHeightOne() returns (chain: MinorBlockChain)
    ensures fresh(chain) && fresh(chain.index) && chain.Valid() && chain.genesisRootHeight == 0
    ensures chain.branch == ShardId(1) && chain.maxBlocks == 2 && chain.resets == chain.misled == 0
    ensures chain.prepared == {10} && chain.rootTip == 10 && chain.index.current == 31
    ensures chain.store.Keys == {30, 31} && chain.roots.Keys == {10}
    ensures chain.store[30].body.prevRoot == chain.store[31].body.prevRoot == 10 && chain.store[31].parent == 30
    ensures chain.store[31].number == 1 && chain.roots[10].number == 0 && chain.Weight(10) == 1
  {
    hide Path, IsAncestor, Tree, References, Geneses, CanonOf, UpTo, AllSound, GenesisOf, ChainKeys, ChainLookup,
      MinorBlockChain.IndexOk, MinorBlockChain.WellIndexed;
    var root: RootBlock := Block(10, 0, 0, RootBody(0, 0, 0, [], 1, 1, 0));
    var genesis: MinorBlock := Block(30, 0, 0, MinorBody(10, [], []));
    chain := new MinorBlockChain(false, ShardId(1), 2, map[ShardId(1) := 0], root, genesis);
    AncestorSelf(chain.roots, 0, 10);
    var update := chain.InsertBlock(Block(31, 30, 1, MinorBody(10, [], [])));
  }

  /** The same shard when it knows of a second root chain, forked off at its genesis root height. */
  method ForkedAtGenesis() returns (chain: MinorBlockChain)
    ensures fresh(chain) && fresh(chain.index) && chain.Valid() && chain.genesisRootHeight == 0
    ensures chain.branch == ShardId(1) && chain.maxBlocks == 2 && chain.resets == chain.misled == 0
    ensures chain.prepared == {10, 21} && chain.rootTip == 10 && chain.index.current == 31
    ensures chain.store.Keys == {30, 31, 40} && chain.roots.Keys == {10, 20, 21} && chain.lastConfirmed[21] == None
    ensures chain.store[30].body.prevRoot == chain.store[31].body.prevRoot == 10 && chain.store[31].parent == 30
    ensures chain.store[31].number == 1 && chain.store[40].number == 0 && chain.store[40].body.prevRoot == 20
    ensures chain.roots[10].number == 0 && chain.roots[21].number == 1 && chain.roots[21].parent == 20
    ensures chain.Weight(10) < chain.Weight(21) == 2
  {
    hide Path, IsAncestor, Tree, References, Geneses, CanonOf, UpTo, AllSound, GenesisOf,
      MinorBlockChain.IndexOk, MinorBlockChain.TipOk, MinorBlockChain.OnRoot, MinorBlockChain.IndexedUp;
    chain := AtHeightOne();
    var root: RootBlock := Block(20, 0, 0, RootBody(0, 0, 0, [], 1, 1, 0));
    var ok := chain.InitGenesisState(root, Block(40, 0, 0, MinorBody(20, [], [])));
    var next: RootBlock := Block(21, 20, 1, RootBody(0, 0, 0, [], 1, 2, 0));
    var prepared := chain.PrepareRootBlock(next, 0, map[]);
  }

  /** The heaviest root block, on the first root chain, that confirms both blocks there. */
  function Confirming(): RootBlock {
    Block(11, 10, 1, RootBody(0, 0, 0, [MinorHeader(30, 0, 0, ShardId(1), 10, 0), MinorHeader(31, 30, 1, ShardId(1), 10, 0)],
                              1, 3, 0))
  }

  lemma OwnHeaders()
    ensures Own(Confirming().body.headers, ShardId(1)) == Confirming().body.headers
  {
    var hs := Confirming().body.headers;
    assert hs[..1] == [hs[0]] && hs[..1][..0] == [];
  }

  /** The same shard when it has prepared that root block too. */
  method ForkedTwice() returns (chain: MinorBlockChain)
    ensures fresh(chain) && fresh(chain.index) && chain.Valid() && chain.genesisRootHeight == 0
    ensures chain.resets == chain.misled == 0
    ensures {11, 21} <= chain.prepared && chain.rootTip == 10 && chain.index.current == 31
    ensures chain.store.Keys == {30, 31, 40} && chain.roots.Keys == {10, 20, 21, 11}
    ensures chain.lastConfirmed[21] == None && chain.lastConfirmed[11] == Some(31)
    ensures chain.store[30].body.prevRoot == chain.store[31].body.prevRoot == 10 && chain.store[31].parent == 30
    ensures chain.store[31].number == 1 && chain.store[40].number == 0 && chain.store[40].body.prevRoot == 20
    ensures chain.roots[10].number == 0 && chain.roots[21].number == 1 && chain.roots[21].parent == 20
    ensures chain.roots[11] == Confirming() && chain.Weight(10) < chain.Weight(21) < chain.Weight(11)
  {
    hide Path, IsAncestor, Tree, References, Geneses, CanonOf, UpTo, AllSound, GenesisOf, Own,
      MinorBlockChain.IndexOk, MinorBlockChain.TipOk, MinorBlockChain.OnRoot, MinorBlockChain.IndexedUp;
    chain := ForkedAtGenesis();
    OwnHeaders();
    var prepared := chain.PrepareRootBlock(Confirming(), 0, map[]);
    AncestorParent(chain.roots, 0, 10, 11);
  }

  /**
   * When the second root chain becomes the heavier one, a block on the first genesis block is still
   * filed as canonical at height 1 after the chain has started over from the second one.
   */
  method StaleAfterGenesisFork() returns (chain: MinorBlockChain)
    ensures fresh(chain) && fresh(chain.index) && chain.Valid() && chain.genesisRootHeight == 0
    ensures chain.TipOk() && !chain.IndexOk() && chain.resets == 1 && chain.misled == 0
    ensures chain.index.current == 40 && chain.store.Keys == {30, 31, 40} && chain.store[40].number == 0
    ensures 1 in chain.index.canon && chain.index.canon[1] == 31 && chain.store[31].number == 1
    ensures chain.rootTip == 21 && 11 in chain.prepared && chain.lastConfirmed[11] == Some(31)
    ensures chain.roots[11] == Confirming() && chain.Weight(21) < chain.Weight(11)
  {
    hide Path, IsAncestor, Tree, References, Geneses, CanonOf, UpTo, AllSound;
    chain := ForkedTwice();
    TwoChains(chain.roots, 10, 20, 21);
    TwoChains(chain.store, 40, 30, 31);
    AncestorSelf(chain.store, 0, 31);
    chain.NamedMeansAncestor(31);
    var res := chain.CommitRootBlock(21);
  }

  /**
   * When the first root chain becomes the heavier one again and confirms that block, the entry left of it stops
   * the tip from moving there: the tip ends below the confirmed block.
   */
  method MisledAfterGenesisFork() returns (chain: MinorBlockChain)
    ensures chain.Valid() && !chain.TipOk() && chain.misled == 1
    ensures chain.confirmedTip == Some(31) && 31 in chain.store && chain.index.current in chain.store
    ensures chain.store[chain.index.current].number < chain.store[31].number
  {
    hide Path, IsAncestor, Tree, References, Geneses, CanonOf, UpTo, AllSound, MinorBlockChain.GenesisFork;
    chain := StaleAfterGenesisFork();
    var res := chain.CommitRootBlock(11);
  }
}
