/** The root chain: which block is its head, its canonical index, and what it has confirmed. */
module RootChain {
  import opened BlockTree
  import opened ChainTypes
  import opened Confirmation

  datatype Added = Rejected | Side | Canonical

  /** A block to import, with the minor blocks validated by then and the verdict on its own header. */
  datatype Import = Import(block: RootBlock, validated: set<Hash>, sealOk: bool)

  /** The work of a chain: the sum of its difficulties. */
  ghost function Work(path: seq<RootBlock>): nat {
    if path == [] then 0 else Work(path[..|path| - 1]) + path[|path| - 1].body.difficulty
  }

  /** Total difficulties add up along parent links, from the one genesis block. */
  ghost predicate Weighed(store: Store<RootBody>, genesis: Hash)
    requires Tree(store, 0)
  {
    forall h :: h in store ==> WeighedBlock(store, genesis, store[h])
  }

  ghost predicate WeighedBlock(store: Store<RootBody>, genesis: Hash, b: RootBlock) {
    if b.number == 0 then b.hash == genesis && b.body.totalDifficulty == b.body.difficulty
    else b.parent in store && b.body.totalDifficulty == store[b.parent].body.totalDifficulty + b.body.difficulty
  }

  /** The total difficulty a block states is the work of its chain. */
  lemma {:induction false} TotalIsWork(store: Store<RootBody>, genesis: Hash, h: Hash)
    requires Tree(store, 0) && Weighed(store, genesis) && h in store
    ensures store[h].body.totalDifficulty == Work(Path(store, 0, h))
    decreases store[h].number
  {
    var p := Path(store, 0, h);
    if store[h].number > 0 {
      TotalIsWork(store, genesis, store[h].parent);
      assert p[..|p| - 1] == Path(store, 0, store[h].parent);
    } else {
      assert p == [store[h]] && p[..0] == [];
    }
  }

  /** Every chain starts with the genesis block. */
  lemma StartsAtGenesis(store: Store<RootBody>, genesis: Hash, h: Hash)
    requires Tree(store, 0) && Weighed(store, genesis) && h in store
    ensures Path(store, 0, h)[0].hash == genesis
  {
    hide Path;
    StoredBlock(store, 0, h);
    PathPrefix(store, 0, h, 0);
  }

  /** A head is preferred to a block by more work, and with equal work by being no higher. */
  predicate Beats(head: RootBlock, b: RootBlock) {
    || head.body.totalDifficulty > b.body.totalDifficulty
    || (head.body.totalDifficulty == b.body.totalDifficulty && head.number <= b.number)
  }

  ghost predicate Heaviest(store: Store<RootBody>, head: Hash)
    requires head in store
  {
    forall h :: h in store ==> Beats(store[head], store[h])
  }

  /** The index holds the chain of the head, and entries above it up to the highest head there was. */
  ghost predicate IndexedTo(canon: map<nat, Hash>, path: seq<RootBlock>, highest: nat) {
    && |path| <= highest + 1
    && (forall n :: n in canon <==> 0 <= n <= highest)
    && (forall n :: 0 <= n < |path| ==> canon[n] == path[n].hash)
  }

  /** Filing the head of an indexed chain once more changes nothing. */
  lemma FiledHead(canon: map<nat, Hash>, path: seq<RootBlock>, highest: nat)
    requires path != [] && IndexedTo(canon, path, highest)
    ensures canon[|path| - 1 := path[|path| - 1].hash] == canon && |path| - 1 <= highest
  {
  }

  lemma FiledNext(canon: map<nat, Hash>, path: seq<RootBlock>, b: RootBlock, highest: nat)
    requires b.number == |path| && IndexedTo(canon, path, highest)
    ensures IndexedTo(canon[b.number := b.hash], path + [b], if b.number > highest then b.number else highest)
  {
  }

  /** Where the head beats all other blocks, it or the last block beats all. */
  lemma NextHeaviest(store: Store<RootBody>, head: Hash, b: RootBlock)
    requires head in store && b.hash in store && store[b.hash] == b
    requires forall h :: h in store && h != b.hash ==> Beats(store[head], store[h])
    ensures Beats(store[head], b) ==> Heaviest(store, head)
    ensures !Beats(store[head], b) ==> Heaviest(store, b.hash)
  {
  }

  /** Nothing stale is left above the head exactly when no head was ever higher. */
  lemma ExactIndex(canon: map<nat, Hash>, path: seq<RootBlock>, highest: nat)
    requires IndexedTo(canon, path, highest)
    ensures canon == (map n: nat | 0 <= n < |path| :: path[n].hash) <==> highest + 1 == |path|
  {
    if highest + 1 > |path| {
      assert highest in canon;
    }
  }

  ghost predicate AllTracked(store: Store<RootBody>, latest: map<Hash, Latest>)
    requires Tree(store, 0)
  {
    forall h :: h in store ==> h in latest && Tracks(latest[h], Path(store, 0, h))
  }

  /** A block whose latest headers are right can be stored. */
  lemma TrackedAfter(store: Store<RootBody>, latest: map<Hash, Latest>, rb: RootBlock)
    requires Tree(store, 0) && AllTracked(store, latest)
    requires rb.hash != EMPTY_HASH && rb.hash !in store && rb.number > 0 && Linked(store, 0, rb)
    requires rb.hash in latest && Tracks(latest[rb.hash], Path(store, 0, rb.parent) + [rb])
    ensures Tree(store[rb.hash := rb], 0) && AllTracked(store[rb.hash := rb], latest)
  {
    hide Path, Tree, Tracks;
    var grown := store[rb.hash := rb];
    AddBlock(store, 0, rb);
    forall h | h in store
      ensures Path(grown, 0, h) == Path(store, 0, h)
    {
      PathExtend(store, grown, 0, h);
    }
  }

  lemma WeighedAfter(store: Store<RootBody>, genesis: Hash, rb: RootBlock)
    requires Tree(store, 0) && Weighed(store, genesis) && Tree(store[rb.hash := rb], 0)
    requires rb.hash !in store && rb.number > 0 && WeighedBlock(store, genesis, rb)
    ensures Weighed(store[rb.hash := rb], genesis)
  {
    hide Tree;
  }

  lemma NothingConfirmed(first: RootBlock)
    requires first.body.headers == []
    ensures Tracks(map[], [first])
  {
    forall s
      ensures TracksShard(map[], [first], s)
    {
      assert [first][..0] == [] && Confirmed([], s) == [] && Own(first.body.headers, s) == [];
      assert Confirmed([first], s) == [];
    }
  }

  // ---------- imports ----------

  /** The parent of rb is known and rb adds its own difficulty to it; rb itself is new. */
  predicate NewOn(store: Store<RootBody>, rb: RootBlock) {
    && rb.hash != EMPTY_HASH && rb.hash !in store && rb.number >= 1 && Linked(store, 0, rb)
    && rb.body.totalDifficulty == store[rb.parent].body.totalDifficulty + rb.body.difficulty
  }

  /** What an import finds. */
  datatype RootState = RootState(store: Store<RootBody>, latest: map<Hash, Latest>, head: Hash)

  /** The block passes all checks. */
  ghost predicate Fits(rules: Rules, s: RootState, x: Import) {
    && x.sealOk && Tree(s.store, 0) && NewOn(s.store, x.block) && x.block.parent in s.latest
    && HeadersOk(rules, s.store, x.validated, x.block, s.latest[x.block.parent])
  }

  /** An import stores exactly a block that fits, and makes it the head just if the old one does not beat it. */
  ghost predicate Imported(rules: Rules, s: RootState, x: Import, r: Added, s': RootState) {
    && s.head in s.store && (r.Rejected? <==> !Fits(rules, s, x))
    && s'.store == (if r.Rejected? then s.store else s.store[x.block.hash := x.block])
    && (r.Canonical? <==> Fits(rules, s, x) && !Beats(s.store[s.head], x.block))
    && s'.head == if r.Canonical? then x.block.hash else s.head
  }

  class RootBlockChain {
    const rules: Rules
    const genesis: Hash
    var store: Store<RootBody>
    var canon: map<nat, Hash>
    var head: Hash
    /** The last confirmed header of each shard, for every root block. */
    var latest: map<Hash, Latest>
    /** The greatest height the head has had. */
    ghost var highest: nat

    constructor (rules: Rules, first: RootBlock)
      requires first.hash != EMPTY_HASH && first.number == 0 && first.body.headers == []
      requires first.body.totalDifficulty == first.body.difficulty
      ensures Valid() && this.rules == rules && genesis == first.hash && head == first.hash && highest == 0
      ensures store == map[first.hash := first]
    {
      hide Path, Tree;
      SingleBlock(first);
      NothingConfirmed(first);
      EmptyIsLawful(rules, first);
      this.rules, genesis, head, highest := rules, first.hash, first.hash, 0;
      store, canon, latest := map[first.hash := first], map[0 := first.hash], map[first.hash := map[]];
    }

    ghost predicate Stores()
      reads this`store, this`latest
    {
      Tree(store, 0) && Weighed(store, genesis) && AllTracked(store, latest) && AllLawful(rules, store)
    }

    ghost predicate Indexed()
      requires Tree(store, 0)
      reads this`store, this`head, this`canon, this`highest
    {
      head in store && IndexedTo(canon, Path(store, 0, head), highest)
    }

    ghost predicate Valid()
      reads this
    {
      Stores() && Indexed() && Heaviest(store, head)
    }

    /** Makes a block the head and files it under its height. */
    method Insert(b: RootBlock)
      modifies this`canon, this`head, this`highest
      ensures canon == old(canon)[b.number := b.hash] && head == b.hash
      ensures highest == if b.number > old(highest) then b.number else old(highest)
    {
      canon, head := canon[b.number := b.hash], b.hash;
      highest := if b.number > highest then b.number else highest;
    }

    /** Puts the blocks of a path above height c on the canonical chain, lowest first. */
    method InsertChain(chain: seq<RootBlock>, ghost path: seq<RootBlock>, ghost c: nat)
      requires 0 < c && Down(chain, path, c) && (forall i :: 0 <= i < |path| ==> path[i].number == i)
      requires IndexedTo(canon, path[..c], highest)
      modifies this`canon, this`head, this`highest
      ensures IndexedTo(canon, path, highest)
      ensures highest == if |path| - 1 > old(highest) then |path| - 1 else old(highest)
    {
      var i := |chain|;
      while i > 0
        invariant 0 <= i <= |chain|
        invariant IndexedTo(canon, path[..|path| - i], highest)
        invariant highest == if |path| - i - 1 > old(highest) then |path| - i - 1 else old(highest)
      {
        i := i - 1;
        Insert(chain[i]);
      }
      assert path[..|path|] == path;
    }

    /**
     * Moves the index over to the chain of another block, deleting nothing. Fails only if the two
     * chains have no block in common.
     */
    method Reorg(newHead: Hash) returns (ok: bool)
      requires Stores() && Indexed() && newHead in store
      modifies this`canon, this`head, this`highest
      ensures ok && IndexedTo(canon, Path(store, 0, newHead), highest)
      ensures highest == if store[newHead].number > old(highest) then store[newHead].number else old(highest)
    {
      hide Path, Tree, Weighed, AllTracked, AllLawful;
      ghost var po, pn := Path(store, 0, head), Path(store, 0, newHead);
      PathNodes(store, 0, newHead);
      StartsAtGenesis(store, genesis, head);
      StartsAtGenesis(store, genesis, newHead);
      var _, newChain, c := CollectChains(store, head, newHead);
      if c == 0 {
        return false;
      }
      assert IndexedTo(canon, pn[..c], highest);
      InsertChain(newChain, pn, c);
      return true;
    }

    /** The last block stored becomes the head if the head does not beat it. */
    method ChooseHead(b: RootBlock) returns (canonical: bool)
      requires Stores() && Indexed() && b.hash in store && store[b.hash] == b && b.number > 0
      requires forall h :: h in store && h != b.hash ==> Beats(store[head], store[h])
      modifies this`canon, this`head, this`highest
      ensures Valid()
      ensures canonical <==> !Beats(old(store[head]), b)
      ensures head == if canonical then b.hash else old(head)
      ensures highest == if canonical && b.number > old(highest) then b.number else old(highest)
    {
      hide Path, Tree, Weighed, AllTracked, AllLawful, IndexedTo, RootBlockChain.Stores;
      var current := store[head];
      NextHeaviest(store, head, b);
      canonical := b.body.totalDifficulty > current.body.totalDifficulty;
      if !canonical && b.body.totalDifficulty == current.body.totalDifficulty {
        canonical := b.number < current.number;
      }
      if canonical {
        var ok := Adopt(b);
        if !ok {
          return false;
        }
      }
    }

    /** Moves the index over to a stored block and makes it the head. */
    method Adopt(b: RootBlock) returns (ok: bool)
      requires Stores() && Indexed() && b.hash in store && store[b.hash] == b && b.number > 0
      modifies this`canon, this`head, this`highest
      ensures ok && Indexed() && head == b.hash
      ensures highest == if b.number > old(highest) then b.number else old(highest)
    {
      hide Path, Tree, Weighed, AllTracked, AllLawful, IndexedTo;
      StoredBlock(store, 0, head);
      StoredBlock(store, 0, b.hash);
      if b.parent != head {
        ok := Reorg(b.hash);
        if !ok {
          return;
        }
        FiledHead(canon, Path(store, 0, b.hash), highest);
      } else {
        FiledNext(canon, Path(store, 0, b.parent), b, highest);
      }
      OnTop(b);
      Insert(b);
      return true;
    }

    lemma OnTop(b: RootBlock)
      requires Tree(store, 0) && b.hash in store && store[b.hash] == b && b.number > 0
      ensures b.parent in store && Path(store, 0, b.hash) == Path(store, 0, b.parent) + [b]
    {
    }

    predicate Extends(rb: RootBlock)
      reads this`store
    {
      NewOn(store, rb)
    }

    /** Everything a root block has to pass; `sealOk` stands for the checks on its header alone. */
    ghost predicate Acceptable(rb: RootBlock, validated: set<Hash>, sealOk: bool)
      requires Stores()
      reads this`store, this`latest
    {
      sealOk && Extends(rb) && HeadersOk(rules, store, validated, rb, latest[rb.parent])
    }

    /** Validates a block and keeps the latest headers after it. */
    method ValidateBlock(rb: RootBlock, validated: set<Hash>, sealOk: bool) returns (ok: bool)
      requires Valid()
      modifies this`latest
      ensures Valid() && (ok <==> old(Acceptable(rb, validated, sealOk)))
      ensures ok ==> rb.hash in latest && Tracks(latest[rb.hash], Path(store, 0, rb.parent) + [rb])
      ensures ok ==> Extends(rb) && MayAdd(rules, store, rb) && forall h :: h in rb.body.headers ==> h.hash in validated
      ensures latest ==
              if ok then old(latest)[rb.hash := Advance(old(latest)[rb.parent], rb.body.headers)] else old(latest)
    {
      hide Path, Tree, Weighed, Heaviest, Tracks, Advance, HeadersOk, IndexedTo, AllLawful, MayAdd;
      if !sealOk || !Extends(rb) {
        return false;
      }
      var next;
      ok, next := ValidateHeaders(rules, store, validated, rb, latest[rb.parent]);
      if ok {
        ConfirmStep(rules, store, validated, Path(store, 0, rb.parent), rb, latest[rb.parent]);
        HeadersLawful(rules, store, validated, rb, latest[rb.parent]);
        latest := latest[rb.hash := next];
      }
    }

    /** Stores a validated block and chooses the head. */
    method WriteBlockWithState(b: RootBlock) returns (canonical: bool)
      requires Valid() && Extends(b)
      requires b.hash in latest && Tracks(latest[b.hash], Path(store, 0, b.parent) + [b]) && MayAdd(rules, store, b)
      modifies this`store, this`canon, this`head, this`highest
      ensures Valid() && store == old(store)[b.hash := b] && Lawful(rules, store, b)
      ensures forall h :: h in b.body.headers ==> h.time <= b.body.time
      ensures canonical <==> !Beats(old(store[head]), b)
      ensures head == if canonical then b.hash else old(head)
      ensures highest == if canonical && b.number > old(highest) then b.number else old(highest)
    {
      hide Path, Tree, Weighed, AllTracked, AllLawful, Tracks, IndexedTo;
      TrackedAfter(store, latest, b);
      LawfulAfter(rules, store, b);
      WeighedAfter(store, genesis, b);
      PathExtend(store, store[b.hash := b], 0, head);
      store := store[b.hash := b];
      canonical := ChooseHead(b);
    }

    /** One block of an import: validation, then the write. */
    method AddBlock(rb: RootBlock, validated: set<Hash>, sealOk: bool) returns (r: Added)
      requires Valid()
      modifies this
      ensures Valid()
      ensures r.Rejected? <==> !old(Acceptable(rb, validated, sealOk))
      ensures r.Rejected? ==> store == old(store) && head == old(head) && canon == old(canon)
      ensures !r.Rejected? ==> store == old(store)[rb.hash := rb]
      ensures !r.Rejected? ==>
                Lawful(rules, store, rb) && forall h :: h in rb.body.headers ==> h.hash in validated && h.time <= rb.body.time
      ensures r.Canonical? <==> old(Acceptable(rb, validated, sealOk)) && !Beats(old(store[head]), rb)
      ensures head == if r.Canonical? then rb.hash else old(head)
      ensures highest == if r.Canonical? && rb.number > old(highest) then rb.number else old(highest)
      ensures store[head].body.totalDifficulty >= old(store[head].body.totalDifficulty)
    {
      hide Path, Tree, Weighed, AllTracked, AllLawful, Tracks, IndexedTo, HeadersOk, RootBlockChain.Stores, Advance;
      var ok := ValidateBlock(rb, validated, sealOk);
      if !ok {
        return Rejected;
      }
      var canonical := WriteBlockWithState(rb);
      return if canonical then Canonical else Side;
    }

    ghost function Now(): RootState
      reads this`store, this`latest, this`head
    {
      RootState(store, latest, head)
    }

    /** The same as one step of a run. */
    method Take(x: Import) returns (r: Added)
      requires Valid()
      modifies this
      ensures Valid() && Imported(rules, old(Now()), x, r, Now())
      ensures store[head].body.totalDifficulty >= old(store[head].body.totalDifficulty)
      ensures forall h :: h in old(store) ==> h in store && store[h] == old(store)[h]
    {
      hide Path, Tree, Weighed, Tracks, AllLawful, IndexedTo, HeadersOk, Advance, Lawful;
      r := AddBlock(x.block, x.validated, x.sealOk);
    }

    /**
     * Any run of imports: every block that fits when it comes is stored and no other, the head's total difficulty is
     * the work of its own chain, is greatest among all blocks written and never falls, the index holds the head's
     * chain at every height up to it, and no root block confirms a header it must not.
     */
    method AddBlocks(imports: seq<Import>) returns (results: seq<Added>, ghost states: seq<RootState>)
      requires Valid()
      modifies this
      ensures Valid() && store[head].body.totalDifficulty == Work(Path(store, 0, head))
      ensures AllLawful(rules, store)
      ensures |results| == |imports| && |states| == |imports| + 1 && states[0] == old(Now()) && states[|imports|] == Now()
      ensures forall i {:trigger imports[i]} :: 0 <= i < |imports| ==>
                Imported(rules, states[i], imports[i], results[i], states[i + 1])
      ensures store[head].body.totalDifficulty >= old(store[head].body.totalDifficulty)
      ensures forall h :: h in store ==>
                && store[h].body.totalDifficulty <= store[head].body.totalDifficulty
                && (store[h].body.totalDifficulty == store[head].body.totalDifficulty ==> store[head].number <= store[h].number)
      ensures forall h :: h in old(store) ==> h in store && store[h] == old(store)[h]
    {
      hide Path, Tree, Weighed, AllTracked, AllLawful, IndexedTo, Imported;
      results, states := [], [Now()];
      for i := 0 to |imports|
        invariant Valid() && store[head].body.totalDifficulty >= old(store[head].body.totalDifficulty)
        invariant forall h :: h in old(store) ==> h in store && store[h] == old(store)[h]
        invariant |results| == i && |states| == i + 1 && states[0] == old(Now()) && states[i] == Now()
        invariant forall j {:trigger imports[j]} :: 0 <= j < i ==>
                    Imported(rules, states[j], imports[j], results[j], states[j + 1])
      {
        var r := Take(imports[i]);
        results, states := results + [r], states + [Now()];
      }
      TotalIsWork(store, genesis, head);
    }
  }

  /** A block without headers confirms nothing and has nothing to check. */
  lemma EmptyHeadersOk(rules: Rules, store: Store<RootBody>, rb: RootBlock, latest: Latest)
    requires Tree(store, 0) && rb.number > 0 && Linked(store, 0, rb) && rb.body.headers == []
    ensures HeadersOk(rules, store, {}, rb, latest)
  {
  }

  /** One block without headers on top of a stored one. */
  method Mine(chain: RootBlockChain, hash: Hash, parent: Hash, difficulty: nat) returns (ghost rb: RootBlock)
    requires chain.Valid() && parent in chain.store && hash != EMPTY_HASH && hash !in chain.store
    modifies chain
    ensures chain.Valid() && chain.store == old(chain.store)[hash := rb]
    ensures rb.number == old(chain.store)[parent].number + 1
    ensures rb.body.totalDifficulty == old(chain.store)[parent].body.totalDifficulty + difficulty
    ensures var canonical := !Beats(old(chain.store[chain.head]), rb);
            && chain.head == (if canonical then hash else old(chain.head))
            && chain.highest == if canonical && rb.number > old(chain.highest) then rb.number else old(chain.highest)
  {
    hide Path, Tree, Weighed, AllTracked, AllLawful, HeadersOk, IndexedTo;
    var total := chain.store[parent].body.totalDifficulty + difficulty;
    var b := Block(hash, parent, chain.store[parent].number + 1, RootBody(0, 0, 0, [], difficulty, total, 0));
    Has(chain, parent);
    EmptyHeadersOk(chain.rules, chain.store, b, chain.latest[parent]);
    var _ := chain.AddBlock(b, {}, true);
    rb := b;
  }

  lemma Has(chain: RootBlockChain, h: Hash)
    requires chain.Stores() && h in chain.store
    ensures h in chain.latest
  {
  }

  /** A heavier but lower chain takes over, and the entry of the old head stays in the index. */
  method StaleAboveHead() returns (chain: RootBlockChain)
    ensures chain.Valid() && chain.store[chain.head].number == 1 && 2 in chain.canon
  {
    hide Path, Tree, Weighed, AllTracked, AllLawful;
    chain := new RootBlockChain(Rules(_ => 1, _ => {}), Block(1, 0, 0, RootBody(0, 0, 0, [], 1, 1, 0)));
    var _ := Mine(chain, 2, 1, 1);
    var _ := Mine(chain, 3, 2, 1);
    var _ := Mine(chain, 4, 1, 9);
  }
}
