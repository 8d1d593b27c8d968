/** Stores of hash-linked blocks, and the ancestor test both chain layers use. */
module BlockTree {

  /** Block hashes; taken as injective, so a hash stands for one block. */
  type Hash = nat

  const EMPTY_HASH: Hash := 0

  datatype Option<+T> = None | Some(value: T)

  /** A block: its own hash, its parent's hash, its height, and everything else it carries. */
  datatype Block<+T> = Block(hash: Hash, parent: Hash, number: nat, body: T)

  type Store<T> = map<Hash, Block<T>>

  /**
   * A well-formed store whose lowest blocks have height `base`: every block is filed under its own
   * hash, and the parent of every higher block is stored one height below it.
   */
  ghost predicate Tree<T>(store: Store<T>, base: nat) {
    forall h :: h in store ==>
      && h != EMPTY_HASH && store[h].hash == h && store[h].number >= base
      && (store[h].number > base ==> Linked(store, base, store[h]))
  }

  /** The parent of b is stored one height below b. */
  predicate Linked<T>(store: Store<T>, base: nat, b: Block<T>) {
    b.parent in store && store[b.parent].number + 1 == b.number
  }

  /** The chain of blocks from height `base` up to and including the block stored under h. */
  ghost function Path<T>(store: Store<T>, base: nat, h: Hash): (p: seq<Block<T>>)
    requires Tree(store, base) && h in store
    ensures |p| == store[h].number - base + 1
    ensures p[|p| - 1] == store[h]
    decreases store[h].number
  {
    if store[h].number == base then [store[h]]
    else Path(store, base, store[h].parent) + [store[h]]
  }

  /** The blocks of a path are stored, at consecutive heights. */
  lemma {:induction false} PathNodes<T>(store: Store<T>, base: nat, h: Hash)
    requires Tree(store, base) && h in store
    ensures forall i :: 0 <= i < |Path(store, base, h)| ==>
              var b := Path(store, base, h)[i];
              b.hash in store && store[b.hash] == b && b.number == base + i
    decreases store[h].number
  {
    if store[h].number > base {
      PathNodes(store, base, store[h].parent);
    }
  }

  /** The chain of a block whose parent (if any) is stored, whether or not the block itself is. */
  ghost function PathTo<T>(store: Store<T>, base: nat, b: Block<T>): (p: seq<Block<T>>)
    requires Tree(store, base) && b.number >= base && (b.number > base ==> Linked(store, base, b))
    ensures |p| == b.number - base + 1
  {
    if b.number == base then [b] else Path(store, base, b.parent) + [b]
  }

  lemma PathToStored<T>(store: Store<T>, base: nat, h: Hash)
    requires Tree(store, base) && h in store
    ensures PathTo(store, base, store[h]) == Path(store, base, h)
  {
  }

  /** Every prefix of a path is the path of its last block. */
  lemma {:induction false} PathPrefix<T>(store: Store<T>, base: nat, h: Hash, i: nat)
    requires Tree(store, base) && h in store && i <= store[h].number - base
    ensures var b := Path(store, base, h)[i];
            && b.hash in store && store[b.hash] == b && b.number == base + i
            && Path(store, base, b.hash) == Path(store, base, h)[..i + 1]
    decreases store[h].number
  {
    var p := Path(store, base, h);
    if i < |p| - 1 {
      var q := Path(store, base, store[h].parent);
      PathPrefix(store, base, store[h].parent, i);
      assert p[..i + 1] == q[..i + 1];
    } else {
      assert p[..i + 1] == p;
    }
  }

  /** Going from a block of a path to its parent steps down the path. */
  lemma PathStep<T>(store: Store<T>, base: nat, h: Hash, i: nat)
    requires Tree(store, base) && h in store && 0 < i <= store[h].number - base
    ensures var p := Path(store, base, h);
            && p[i].number == base + i && p[i - 1].number == base + i - 1
            && p[i].parent in store && store[p[i].parent] == p[i - 1]
  {
    var p := Path(store, base, h);
    PathPrefix(store, base, h, i);
    PathPrefix(store, base, h, i - 1);
    var q := Path(store, base, p[i].hash);
    assert q == Path(store, base, p[i].parent) + [p[i]];
    assert p[i - 1] == q[i - 1];
  }

  /** A block whose parent is stored can be added; its path is its parent's path and itself. */
  lemma AddBlock<T>(store: Store<T>, base: nat, b: Block<T>)
    requires Tree(store, base) && b.hash != EMPTY_HASH && b.number > base && Linked(store, base, b)
    requires b.hash in store ==> store[b.hash] == b
    ensures Tree(store[b.hash := b], base)
    ensures Path(store[b.hash := b], base, b.hash) == Path(store, base, b.parent) + [b]
  {
    PathExtend(store, store[b.hash := b], base, b.parent);
  }

  /** A lowest block, or one whose parent is stored, can be added. */
  lemma TreeGrows<T>(store: Store<T>, base: nat, b: Block<T>)
    requires Tree(store, base) && b.hash != EMPTY_HASH && b.number >= base
    requires b.number > base ==> Linked(store, base, b)
    requires b.hash in store ==> store[b.hash] == b
    ensures Tree(store[b.hash := b], base)
  {
  }

  /** A single block is a tree of its own. */
  lemma SingleBlock<T>(b: Block<T>)
    requires b.hash != EMPTY_HASH
    ensures Tree(map[b.hash := b], b.number) && Path(map[b.hash := b], b.number, b.hash) == [b]
  {
  }

  /** `a` is `b` itself or one of its ancestors. */
  ghost predicate IsAncestor<T>(store: Store<T>, base: nat, a: Hash, b: Hash)
    requires Tree(store, base) && a in store && b in store
  {
    Path(store, base, a) <= Path(store, base, b)
  }

  /** Being an ancestor means being met on the way down at one's own height. */
  lemma AncestorAt<T>(store: Store<T>, base: nat, a: Hash, b: Hash)
    requires Tree(store, base) && a in store && b in store
    ensures IsAncestor(store, base, a, b) <==>
            store[a].number <= store[b].number && Path(store, base, b)[store[a].number - base].hash == a
  {
    var p, q := Path(store, base, a), Path(store, base, b);
    if store[a].number <= store[b].number && q[store[a].number - base].hash == a {
      PathPrefix(store, base, b, store[a].number - base);
      assert p == q[..|p|];
    }
  }

  lemma AncestorTransitive<T>(store: Store<T>, base: nat, a: Hash, b: Hash, c: Hash)
    requires Tree(store, base) && a in store && b in store && c in store
    requires IsAncestor(store, base, a, b) && IsAncestor(store, base, b, c)
    ensures IsAncestor(store, base, a, c)
  {
  }

  /** Adding blocks to a store does not change the paths it already has. */
  lemma {:induction false} PathExtend<T>(store: Store<T>, bigger: Store<T>, base: nat, h: Hash)
    requires Tree(store, base) && Tree(bigger, base) && h in store
    requires forall k :: k in store ==> k in bigger && bigger[k] == store[k]
    ensures Path(bigger, base, h) == Path(store, base, h)
    decreases store[h].number
  {
    if store[h].number > base {
      PathExtend(store, bigger, base, store[h].parent);
    }
  }

  lemma AncestorExtend<T>(store: Store<T>, bigger: Store<T>, base: nat, a: Hash, b: Hash)
    requires Tree(store, base) && Tree(bigger, base) && a in store && b in store
    requires forall k :: k in store ==> k in bigger && bigger[k] == store[k]
    ensures IsAncestor(bigger, base, a, b) <==> IsAncestor(store, base, a, b)
  {
    hide Path;
    PathExtend(store, bigger, base, a);
    PathExtend(store, bigger, base, b);
  }

  lemma AncestorSelf<T>(store: Store<T>, base: nat, a: Hash)
    requires Tree(store, base) && a in store
    ensures IsAncestor(store, base, a, a)
  {
  }

  /** A lowest block has no ancestor but itself. */
  lemma AncestorOfLowest<T>(store: Store<T>, base: nat, a: Hash, b: Hash)
    requires Tree(store, base) && a in store && b in store && store[b].number == base
    ensures IsAncestor(store, base, a, b) ==> a == b
  {
  }

  /** A proper ancestor is an ancestor of the parent; and the parent is an ancestor. */
  lemma AncestorParent<T>(store: Store<T>, base: nat, a: Hash, b: Hash)
    requires Tree(store, base) && a in store && b in store && store[b].number > base
    ensures store[b].parent in store && IsAncestor(store, base, store[b].parent, b)
    ensures IsAncestor(store, base, a, b) && a != b ==> IsAncestor(store, base, a, store[b].parent)
  {
    var p, q := Path(store, base, a), Path(store, base, b);
    var r := Path(store, base, store[b].parent);
    assert q == r + [store[b]];
    if IsAncestor(store, base, a, b) && a != b {
      assert q[|p| - 1] == p[|p| - 1] == store[a];
      assert p == q[..|p|] == r[..|p|];
    }
  }

  /** A stored block can be looked up by its own hash, and so can its parent. */
  lemma StoredBlock<T>(store: Store<T>, base: nat, h: Hash)
    requires Tree(store, base) && h in store
    ensures h != EMPTY_HASH && store[h].hash == h && base <= store[h].number
    ensures store[h].number > base ==> Linked(store, base, store[h])
  {
  }

  /** Ancestors stay ancestors when a block is added, and those of its parent become its own. */
  lemma AncestorsAfterAdd<T>(store: Store<T>, base: nat, b: Block<T>, a: Hash, h: Hash)
    requires Tree(store, base) && b.hash != EMPTY_HASH && b.number > base && Linked(store, base, b)
    requires b.hash in store ==> store[b.hash] == b
    requires a in store && h in store
    ensures Tree(store[b.hash := b], base)
    ensures IsAncestor(store, base, a, h) ==> IsAncestor(store[b.hash := b], base, a, h)
    ensures IsAncestor(store, base, a, b.parent) ==> IsAncestor(store[b.hash := b], base, a, b.hash)
  {
    hide Path, Tree;
    var grown := store[b.hash := b];
    AddBlock(store, base, b);
    PathExtend(store, grown, base, a);
    PathExtend(store, grown, base, h);
  }

  /**
   * Walks parent hashes down from `long` and compares what it meets at the height of `short`.
   * The process exits when the arguments are in the wrong order or a parent is missing, so those
   * are demands on the caller.
   */
  method IsSameChain<T>(store: Store<T>, base: nat, long: Block<T>, short: Block<T>) returns (same: bool)
    requires Tree(store, base) && base <= short.number <= long.number
    requires long.number > base ==> Linked(store, base, long)
    ensures same <==> PathTo(store, base, long)[short.number - base].hash == short.hash
  {
    if short.number == long.number {
      return short.hash == long.hash;
    }
    ghost var p := PathTo(store, base, long);
    if short.number + 1 == long.number {
      return short.hash == long.parent;
    }
    var diff := long.number - short.number;
    var hash := long.parent;
    var i := 0;
    while i < diff - 1
      invariant 0 <= i <= diff - 1
      invariant hash == p[|p| - 2 - i].hash
    {
      PathStep(store, base, long.parent, |p| - 2 - i);
      PathPrefix(store, base, long.parent, |p| - 2 - i);
      PathPrefix(store, base, long.parent, |p| - 3 - i);
      hash := store[hash].parent;
      i := i + 1;
    }
    same := hash == short.hash;
  }

  /** The same test for stored blocks; a higher block is never on the chain of a lower one. */
  method OnChainOf<T>(store: Store<T>, base: nat, long: Hash, short: Hash) returns (same: bool)
    requires Tree(store, base) && long in store && short in store
    ensures same <==> IsAncestor(store, base, short, long)
  {
    AncestorAt(store, base, short, long);
    PathToStored(store, base, long);
    hide Path, IsAncestor;
    if store[long].number < store[short].number {
      return false;
    }
    same := IsSameChain(store, base, store[long], store[short]);
  }

  /** The same test for a block that need not be stored itself, against a lower stored block. */
  method BuiltOn<T>(store: Store<T>, base: nat, b: Block<T>, short: Hash) returns (same: bool)
    requires Tree(store, base) && b.number > base && Linked(store, base, b)
    requires short in store && store[short].number < b.number
    ensures same <==> IsAncestor(store, base, short, b.parent)
  {
    AncestorAt(store, base, short, b.parent);
    hide Path, IsAncestor;
    same := IsSameChain(store, base, b, store[short]);
  }

  /** The block at a given height on the chain of `h`; none above it. */
  method BlockByHeight<T>(store: Store<T>, base: nat, h: Hash, height: nat) returns (r: Option<Block<T>>)
    requires Tree(store, base) && height >= base
    ensures h in store && height <= store[h].number ==>
              r == Some(Path(store, base, h)[height - base]) && r.value.number == height
    ensures h !in store || height > store[h].number ==> r == None
  {
    if h !in store || height > store[h].number {
      return None;
    }
    var b := store[h];
    ghost var p := Path(store, base, h);
    while height != b.number
      invariant base <= height <= b.number && b.number - base < |p|
      invariant b == p[b.number - base]
      decreases b.number
    {
      PathStep(store, base, h, b.number - base);
      b := store[b.parent];
    }
    PathNodes(store, base, h);
    return Some(b);
  }

  /** The blocks of a path from its top down to height c. */
  ghost predicate Down<T>(chain: seq<Block<T>>, path: seq<Block<T>>, c: nat) {
    c <= |path| && |chain| == |path| - c && forall i :: 0 <= i < |chain| ==> chain[i] == path[|path| - 1 - i]
  }

  lemma DownStart<T>(path: seq<Block<T>>)
    ensures Down([], path, |path|)
  {
  }

  lemma DownNext<T>(chain: seq<Block<T>>, path: seq<Block<T>>, c: nat, b: Block<T>)
    requires c < |path| && Down(chain, path, c + 1) && b == path[c]
    ensures Down(chain + [b], path, c)
  {
  }

  /** The blocks of a chain from its head down to just above a height, and the block at that height. */
  method Descend<T>(store: Store<T>, head: Hash, height: nat) returns (chain: seq<Block<T>>, b: Block<T>)
    requires Tree(store, 0) && head in store && height <= store[head].number
    ensures b == Path(store, 0, head)[height] && b.number == height
    ensures Down(chain, Path(store, 0, head), height + 1)
  {
    hide Path, Tree, Down;
    ghost var p := Path(store, 0, head);
    DownStart(p);
    chain, b := [], store[head];
    while b.number != height
      invariant height <= b.number < |p| && b == p[b.number] && Down(chain, p, b.number + 1)
      decreases b.number
    {
      PathStep(store, 0, head, b.number);
      DownNext(chain, p, b.number, b);
      chain := chain + [b];
      b := store[b.parent];
    }
  }

  /**
   * The blocks to take off and to put on when the head moves from one block to another: both chains
   * from the top down to the highest common block, or down to both genesis blocks if they differ.
   */
  method CollectChains<T>(store: Store<T>, oldHead: Hash, newHead: Hash)
    returns (oldChain: seq<Block<T>>, newChain: seq<Block<T>>, c: nat)
    requires Tree(store, 0) && oldHead in store && newHead in store
    ensures var po, pn := Path(store, 0, oldHead), Path(store, 0, newHead);
            && Down(oldChain, po, c) && Down(newChain, pn, c) && po[..c] == pn[..c]
            && (c < |po| && c < |pn| ==> po[c].hash != pn[c].hash)
  {
    hide Path, Tree, Down;
    ghost var po, pn := Path(store, 0, oldHead), Path(store, 0, newHead);
    DownStart(po);
    DownStart(pn);
    var oldBlock, newBlock := store[oldHead], store[newHead];
    oldChain, newChain := [], [];
    if oldBlock.number > newBlock.number {
      oldChain, oldBlock := Descend(store, oldHead, newBlock.number);
    } else {
      newChain, newBlock := Descend(store, newHead, oldBlock.number);
    }
    while true
      invariant oldBlock.number == newBlock.number < |po| && newBlock.number < |pn|
      invariant oldBlock == po[oldBlock.number] && newBlock == pn[newBlock.number]
      invariant Down(oldChain, po, oldBlock.number + 1) && Down(newChain, pn, oldBlock.number + 1)
      invariant var n := oldBlock.number + 1; n < |po| && n < |pn| ==> po[n].hash != pn[n].hash
      decreases oldBlock.number
    {
      if oldBlock.hash == newBlock.hash {
        c := oldBlock.number + 1;
        PathPrefix(store, 0, oldHead, oldBlock.number);
        PathPrefix(store, 0, newHead, newBlock.number);
        return;
      }
      DownNext(oldChain, po, oldBlock.number, oldBlock);
      DownNext(newChain, pn, newBlock.number, newBlock);
      oldChain, newChain := oldChain + [oldBlock], newChain + [newBlock];
      if oldBlock.number == 0 || newBlock.number == 0 {
        c := 0;
        return;
      }
      PathStep(store, 0, oldHead, oldBlock.number);
      PathStep(store, 0, newHead, newBlock.number);
      oldBlock, newBlock := store[oldBlock.parent], store[newBlock.parent];
    }
  }
}
