/** One account's transactions by nonce: a map, a heap of its nonces, and a cached sorted view. */
module Nonces {
  import opened BlockTree
  import opened ChainTypes

  datatype Tx = Tx(
    hash: Hash, from: Recipient, nonce: nat, gasPrice: nat, gas: nat, cost: nat, transferToken: Token)

  type Txs = map<nat, Tx>

  ghost predicate ByNonce(m: Txs) {
    forall n :: n in m ==> m[n].nonce == n
  }

  /** The transactions of m in the order of their nonces. */
  ghost predicate Flat(s: seq<Tx>, m: Txs) {
    && (forall i, j :: 0 <= i < j < |s| ==> s[i].nonce < s[j].nonce)
    && (forall i :: 0 <= i < |s| ==> s[i].nonce in m && m[s[i].nonce] == s[i])
    && (forall n :: n in m ==> m[n] in s)
  }

  /** The transactions of m, each once, in any order. */
  ghost predicate Lists(s: seq<Tx>, m: Txs) {
    && (forall i, j :: 0 <= i < j < |s| ==> s[i].nonce != s[j].nonce)
    && (forall i :: 0 <= i < |s| ==> s[i].nonce in m && m[s[i].nonce] == s[i])
    && (forall n :: n in m ==> m[n] in s)
  }

  function Below(m: Txs, n: nat): Txs {
    map k | k in m && k < n :: m[k]
  }

  function From(m: Txs, n: nat): Txs {
    map k | k in m && k >= n :: m[k]
  }

  function Without(m: Txs, f: Tx -> bool): Txs {
    map k | k in m && !f(m[k]) :: m[k]
  }

  function Only(m: Txs, f: Tx -> bool): Txs {
    map k | k in m && f(m[k]) :: m[k]
  }

  /** How many nonces of m are below n. */
  function Rank(m: Txs, n: nat): nat {
    |Below(m, n).Keys|
  }

  /** The transactions with the k lowest nonces, and the others. */
  function Lowest(m: Txs, k: nat): Txs {
    map n | n in m && Rank(m, n) < k :: m[n]
  }

  function Highest(m: Txs, k: nat): Txs {
    map n | n in m && Rank(m, n) >= k :: m[n]
  }

  /** The lowest nonces of m without a gap: their transactions in order, and the nonce after them is free. */
  ghost predicate IsRun(s: seq<Tx>, m: Txs) {
    && s != [] && (forall n :: n in m ==> s[0].nonce <= n)
    && (forall i :: 0 <= i < |s| ==> s[i].nonce == s[0].nonce + i && s[i].nonce in m && m[s[i].nonce] == s[i])
    && s[0].nonce + |s| !in m
  }

  function Reversed(s: seq<Tx>): (r: seq<Tx>)
    ensures |r| == |s|
  {
    seq(|s|, i requires 0 <= i < |s| => s[|s| - 1 - i])
  }

  /** The transactions at the given nonces. */
  function Gather(ns: seq<nat>, m: Txs): (s: seq<Tx>)
    requires forall n :: n in ns ==> n in m
    ensures |s| == |ns|
  {
    seq(|ns|, i requires 0 <= i < |ns| => m[ns[i]])
  }

  // ---------- nonce heaps ----------

  ghost predicate Distinct(s: seq<nat>) {
    forall i, j :: 0 <= i < j < |s| ==> s[i] != s[j]
  }

  /** All a heap promises its users: the least element comes first. */
  ghost predicate Heap(s: seq<nat>) {
    Distinct(s) && forall i :: 0 <= i < |s| ==> s[0] <= s[i]
  }

  ghost predicate Sorted(s: seq<nat>) {
    forall i, j :: 0 <= i < j < |s| ==> s[i] < s[j]
  }

  ghost predicate SameElements(s: seq<nat>, t: seq<nat>) {
    forall n :: n in s <==> n in t
  }

  /** Brings the least element to the front. */
  method Heapify(s: seq<nat>) returns (h: seq<nat>)
    requires Distinct(s)
    ensures Heap(h) && SameElements(h, s) && |h| == |s|
  {
    h := s;
    for i := 0 to |h|
      invariant Distinct(h) && SameElements(h, s) && |h| == |s|
      invariant forall j :: 0 <= j < i ==> h[0] <= h[j]
    {
      if h[i] < h[0] {
        ghost var g := h;
        h := h[0 := h[i]][i := h[0]];
        assert g[0] == h[i] && g[i] == h[0] && forall j :: 0 < j < |h| && j != i ==> h[j] == g[j];
        forall n
          ensures n in h <==> n in g
        {
          if n in h {
            var j :| 0 <= j < |h| && h[j] == n;
            assert n == g[if j == 0 then i else if j == i then 0 else j];
          }
          if n in g {
            var j :| 0 <= j < |g| && g[j] == n;
            assert n == h[if j == 0 then i else if j == i then 0 else j];
          }
        }
      }
    }
  }

  method HeapPush(s: seq<nat>, n: nat) returns (h: seq<nat>)
    requires Heap(s) && n !in s
    ensures Heap(h) && SameElements(h, s + [n])
  {
    h := Heapify(s + [n]);
  }

  method HeapPop(s: seq<nat>) returns (n: nat, h: seq<nat>)
    requires Heap(s) && s != []
    ensures n == s[0] && Heap(h) && n !in h && SameElements(s, h + [n]) && |h| == |s| - 1
  {
    n := s[0];
    h := Heapify(s[1..]);
    assert s == [n] + s[1..];
  }

  /** Takes out the element at a position. */
  method HeapRemove(s: seq<nat>, i: nat) returns (h: seq<nat>)
    requires Heap(s) && i < |s|
    ensures Heap(h) && s[i] !in h && SameElements(s, h + [s[i]])
  {
    var rest := s[..i] + s[i + 1..];
    assert s == s[..i] + [s[i]] + s[i + 1..];
    h := Heapify(rest);
  }

  /** Insertion sort of distinct nonces. */
  method SortNonces(s: seq<nat>) returns (r: seq<nat>)
    requires Distinct(s)
    ensures Sorted(r) && SameElements(r, s) && |r| == |s|
  {
    r := [];
    for i := 0 to |s|
      invariant Sorted(r) && SameElements(r, s[..i]) && |r| == i
    {
      assert s[..i + 1] == s[..i] + [s[i]] && s[i] !in s[..i];
      r := InsertSorted(r, s[i]);
    }
    assert s[..|s|] == s;
  }

  method InsertSorted(r: seq<nat>, n: nat) returns (t: seq<nat>)
    requires Sorted(r) && n !in r
    ensures Sorted(t) && SameElements(t, r + [n]) && |t| == |r| + 1
  {
    var k := 0;
    while k < |r| && r[k] < n
      invariant 0 <= k <= |r| && forall i :: 0 <= i < k ==> r[i] < n
    {
      k := k + 1;
    }
    t := r[..k] + [n] + r[k..];
    assert r == r[..k] + r[k..];
    assert k < |r| ==> n < r[k];
  }

  /** The elements of a set of nonces, in no particular order. */
  method Elements(ns: set<nat>) returns (s: seq<nat>)
    ensures Distinct(s) && |s| == |ns| && forall n :: n in s <==> n in ns
  {
    s := [];
    var left := ns;
    while left != {}
      invariant left <= ns && Distinct(s) && |s| + |left| == |ns|
      invariant forall n :: n in s <==> n in ns - left
    {
      var n :| n in left;
      assert n !in s;
      s := s + [n];
      left := left - {n};
    }
  }

  /** A nonce heap has as many nonces as its map. */
  lemma {:induction false} IndexLength(s: seq<nat>, ns: set<nat>)
    requires Distinct(s) && forall n :: n in s <==> n in ns
    ensures |s| == |ns|
  {
    if s != [] {
      var last := s[|s| - 1];
      assert s == s[..|s| - 1] + [last];
      IndexLength(s[..|s| - 1], ns - {last});
    } else {
      assert ns == {};
    }
  }

  /** In a sorted index the position of a nonce is its rank. */
  lemma RankAt(s: seq<nat>, m: Txs, i: nat)
    requires Sorted(s) && i < |s| && forall n :: n in s <==> n in m
    ensures Rank(m, s[i]) == i
  {
    var below := Below(m, s[i]).Keys;
    forall n
      ensures n in s[..i] <==> n in below
    {
      if n in below {
        var j :| 0 <= j < |s| && s[j] == n;
        assert s[..i][j] == n;
      }
    }
    IndexLength(s[..i], below);
  }

  // ---------- sorted views ----------

  lemma FlatRanks(s: seq<Tx>, m: Txs)
    requires Flat(s, m) && ByNonce(m)
    ensures |s| == |m| && forall i :: 0 <= i < |s| ==> Rank(m, s[i].nonce) == i
  {
    var ns := seq(|s|, i requires 0 <= i < |s| => s[i].nonce);
    forall n
      ensures n in ns <==> n in m
    {
      if n in m {
        var i :| 0 <= i < |s| && s[i] == m[n];
        assert ns[i] == n;
      }
    }
    IndexLength(ns, m.Keys);
    forall i | 0 <= i < |s|
      ensures Rank(m, s[i].nonce) == i
    {
      RankAt(ns, m, i);
    }
  }

  /** There is one sorted view, and it determines the map. */
  lemma FlatUnique(s: seq<Tx>, t: seq<Tx>, m: Txs)
    requires Flat(s, m) && Flat(t, m) && ByNonce(m)
    ensures s == t
  {
    hide Rank;
    FlatRanks(s, m);
    FlatRanks(t, m);
    forall i | 0 <= i < |s|
      ensures s[i] == t[i]
    {
      assert m[s[i].nonce] in t;
      var j :| 0 <= j < |t| && t[j] == s[i];
      assert Rank(m, s[i].nonce) == i && Rank(m, t[j].nonce) == j;
    }
  }

  lemma FlatDetermines(s: seq<Tx>, m: Txs, m': Txs)
    requires Flat(s, m) && Flat(s, m') && ByNonce(m) && ByNonce(m')
    ensures m == m'
  {
    forall n
      ensures n in m <==> n in m'
      ensures n in m && n in m' ==> m[n] == m'[n]
    {
      if n in m {
        var i :| 0 <= i < |s| && s[i] == m[n];
      }
      if n in m' {
        var i :| 0 <= i < |s| && s[i] == m'[n];
      }
    }
  }

  lemma FlatHead(s: seq<Tx>, m: Txs)
    requires Flat(s, m) && ByNonce(m) && s != []
    ensures s[0].nonce in m && m[s[0].nonce] == s[0] && Flat(s[1..], m - {s[0].nonce})
    ensures forall n :: n in m ==> s[0].nonce <= n
  {
    forall n | n in m
      ensures s[0].nonce <= n && (n != s[0].nonce ==> m[n] in s[1..])
    {
      var i :| 0 <= i < |s| && s[i] == m[n];
      if i > 0 {
        assert s[1..][i - 1] == m[n];
      }
    }
  }

  lemma FlatLast(s: seq<Tx>, m: Txs)
    requires Flat(s, m) && ByNonce(m) && s != []
    ensures var last := s[|s| - 1];
            last.nonce in m && m[last.nonce] == last && Flat(s[..|s| - 1], m - {last.nonce})
  {
    var last := s[|s| - 1];
    forall n | n in m && n != last.nonce
      ensures m[n] in s[..|s| - 1]
    {
      var i :| 0 <= i < |s| && s[i] == m[n];
      assert s[..|s| - 1][i] == m[n];
    }
  }

  /** Cut at a nonce, a sorted view gives the sorted views of what is below and of what is not. */
  lemma FlatSplit(s: seq<Tx>, m: Txs, t: nat, k: nat)
    requires Flat(s, m) && ByNonce(m) && k <= |s|
    requires (forall i :: 0 <= i < k ==> s[i].nonce < t) && (forall i :: k <= i < |s| ==> s[i].nonce >= t)
    ensures Flat(s[..k], Below(m, t)) && Flat(s[k..], From(m, t))
  {
    FlatBelow(s, m, t, k);
    FlatFrom(s, m, t, k);
  }

  lemma FlatBelow(s: seq<Tx>, m: Txs, t: nat, k: nat)
    requires Flat(s, m) && ByNonce(m) && k <= |s|
    requires (forall i :: 0 <= i < k ==> s[i].nonce < t) && (forall i :: k <= i < |s| ==> s[i].nonce >= t)
    ensures Flat(s[..k], Below(m, t))
  {
    forall n | n in Below(m, t)
      ensures m[n] in s[..k]
    {
      var i :| 0 <= i < |s| && s[i] == m[n];
      assert s[..k][i] == m[n];
    }
  }

  lemma FlatFrom(s: seq<Tx>, m: Txs, t: nat, k: nat)
    requires Flat(s, m) && ByNonce(m) && k <= |s|
    requires (forall i :: 0 <= i < k ==> s[i].nonce < t) && (forall i :: k <= i < |s| ==> s[i].nonce >= t)
    ensures Flat(s[k..], From(m, t))
  {
    forall n | n in From(m, t)
      ensures m[n] in s[k..]
    {
      var i :| 0 <= i < |s| && s[i] == m[n];
      assert s[k..][i - k] == m[n];
    }
  }

  /** Having rank below k means being below the nonce at position k. */
  lemma LowestIsBelow(s: seq<Tx>, m: Txs, k: nat)
    requires Flat(s, m) && ByNonce(m) && k < |s|
    ensures Lowest(m, k) == Below(m, s[k].nonce) && Highest(m, k) == From(m, s[k].nonce)
  {
    hide Rank;
    FlatRanks(s, m);
    forall n | n in m
      ensures Rank(m, n) < k <==> n < s[k].nonce
    {
      var i :| 0 <= i < |s| && s[i] == m[n];
    }
  }

  lemma Ascending(s: seq<Tx>, m: Txs, k: nat)
    requires Flat(s, m) && k < |s|
    ensures (forall i :: 0 <= i < k ==> s[i].nonce < s[k].nonce) && (forall i :: k <= i < |s| ==> s[i].nonce >= s[k].nonce)
  {
  }

  /** A sorted view cut off after k transactions is that of the k lowest nonces. */
  lemma FlatCap(s: seq<Tx>, m: Txs, k: nat)
    requires Flat(s, m) && ByNonce(m) && k <= |s|
    ensures Flat(s[..k], Lowest(m, k)) && Flat(s[k..], Highest(m, k)) && ByNonce(Lowest(m, k))
  {
    hide Lowest, Highest, Flat;
    if k == |s| {
      FlatRanks(s, m);
      AllLow(m, k);
      NoneFlat();
      assert s[..k] == s && s[k..] == [];
    } else {
      LowestIsBelow(s, m, k);
      Ascending(s, m, k);
      FlatSplit(s, m, s[k].nonce, k);
    }
  }

  lemma FlatSnoc(lower: seq<Tx>, m: Txs, top: nat)
    requires ByNonce(m) && top in m && (forall n :: n in m ==> n <= top) && Flat(lower, m - {top})
    ensures Flat(lower + [m[top]], m)
  {
    var s := lower + [m[top]];
    forall n | n in m
      ensures m[n] in s
    {
      if n == top {
        assert s[|lower|] == m[n];
      } else {
        assert (m - {top})[n] == m[n];
        assert m[n] in lower;
      }
    }
  }

  /** Every map has a sorted view. */
  lemma {:induction false} HasFlat(m: Txs) returns (s: seq<Tx>)
    requires ByNonce(m)
    ensures Flat(s, m)
    decreases |m|
  {
    if m == map[] {
      s := [];
    } else {
      var top := Greatest(m.Keys);
      assert |m - {top}| < |m| by {
        assert (m - {top}).Keys == m.Keys - {top};
      }
      var lower := HasFlat(m - {top});
      s := lower + [m[top]];
      FlatSnoc(lower, m, top);
    }
  }

  lemma {:induction false} Greatest(ns: set<nat>) returns (top: nat)
    requires ns != {}
    ensures top in ns && forall n :: n in ns ==> n <= top
    decreases |ns|
  {
    var one :| one in ns;
    top := one;
    if ns != {one} {
      var other := Greatest(ns - {one});
      top := if other > one then other else one;
      assert forall n :: n in ns ==> n == one || n in ns - {one};
    }
  }

  class TxSortedMap {
    var items: Txs
    var index: seq<nat>
    var cache: Option<seq<Tx>>

    constructor ()
      ensures Valid() && items == map[]
    {
      items, index, cache := map[], [], None;
    }

    /** The heap holds exactly the nonces of the map, and a cache is its sorted view. */
    ghost predicate Valid()
      reads this
    {
      && ByNonce(items) && Heap(index) && (forall n :: n in index <==> n in items)
      && (cache.Some? ==> Flat(cache.value, items))
    }

    method Put(tx: Tx)
      requires Valid()
      modifies this
      ensures Valid() && items == old(items)[tx.nonce := tx]
    {
      if tx.nonce !in items {
        index := HeapPush(index, tx.nonce);
      }
      items, cache := items[tx.nonce := tx], None;
    }

    /** The map and its heap agree. */
    ghost predicate Indexed()
      reads this`items, this`index
    {
      ByNonce(items) && Heap(index) && forall n :: n in index <==> n in items
    }

    /** Takes the transaction with the least nonce off the heap and out of the map. */
    method PopLeast(ghost s: seq<Tx>) returns (tx: Tx)
      requires Indexed() && index != [] && Flat(s, items)
      modifies this`items, this`index
      ensures Indexed() && s != [] && tx == s[0] && Flat(s[1..], items) && items == old(items) - {tx.nonce}
      ensures |index| < |old(index)| && old(index)[0] == tx.nonce
    {
      assert items[index[0]] in s;
      FlatHead(s, items);
      var nonce, rest := HeapPop(index);
      assert s[0].nonce in index;
      tx := items[nonce];
      index, items := rest, items - {nonce};
    }

    /** The loop of Forward: pops while the least nonce is below the threshold. */
    method PopBelow(threshold: nat, ghost s: seq<Tx>) returns (removed: seq<Tx>)
      requires Indexed() && Flat(s, items)
      modifies this`items, this`index
      ensures Indexed() && |removed| <= |s| && removed == s[..|removed|] && Flat(s[|removed|..], items)
      ensures forall tx :: tx in removed ==> tx.nonce < threshold
      ensures index != [] ==> index[0] >= threshold
    {
      hide Flat, Heap, ByNonce;
      removed := [];
      assert s[0..] == s;
      while |index| > 0 && index[0] < threshold
        invariant Indexed()
        invariant |removed| <= |s| && removed == s[..|removed|] && Flat(s[|removed|..], items)
        invariant forall tx :: tx in removed ==> tx.nonce < threshold
        decreases |index|
      {
        ghost var r := |removed|;
        var tx := PopLeast(s[r..]);
        assert s[r..][1..] == s[r + 1..];
        removed := removed + [tx];
      }
    }

    /** Removes and returns, in order, the transactions with nonces below the threshold. */
    method Forward(threshold: nat) returns (removed: seq<Tx>)
      requires Valid()
      modifies this
      ensures Valid() && items == From(old(items), threshold) && Flat(removed, Below(old(items), threshold))
    {
      hide Flat, Heap, ByNonce;
      ghost var s := HasFlat(items);
      removed := PopBelow(threshold, s);
      LeastFirst(index, threshold);
      SplitDone(s, old(items), items, threshold, |removed|);
      if cache.Some? {
        FlatUnique(cache.value, s, old(items));
        cache := Some(cache.value[|removed|..]);
      }
    }

    /** The first part of Filter: goes through the map and takes out what the filter picks. */
    method PickOut(f: Tx -> bool) returns (removed: seq<Tx>)
      requires ByNonce(items)
      modifies this`items
      ensures items == Without(old(items), f) && Lists(removed, Only(old(items), f))
      ensures removed == [] ==> items == old(items)
    {
      removed := [];
      var left := items.Keys;
      while left != {}
        invariant left <= items.Keys && (removed == [] ==> items == old(items))
        invariant forall n :: n in items <==> n in old(items) && (n in left || !f(old(items)[n]))
        invariant forall n :: n in items ==> items[n] == old(items)[n]
        invariant Lists(removed, Only(old(items), f) - left)
        decreases |left|
      {
        var n :| n in left;
        if f(items[n]) {
          ListsMore(removed, Only(old(items), f), left, n);
          removed := removed + [items[n]];
          items := items - {n};
        } else {
          assert Only(old(items), f) - (left - {n}) == Only(old(items), f) - left;
        }
        left := left - {n};
      }
      assert Only(old(items), f) - {} == Only(old(items), f);
    }

    /** Removes and returns the transactions the filter picks, in the order the map is gone through. */
    method Filter(f: Tx -> bool) returns (removed: seq<Tx>)
      requires Valid()
      modifies this
      ensures Valid() && items == Without(old(items), f) && Lists(removed, Only(old(items), f))
    {
      hide Heap, Flat, Lists;
      removed := PickOut(f);
      if |removed| > 0 {
        var ns := Elements(items.Keys);
        index := Heapify(ns);
        cache := None;
      }
    }

    /** The loop of Cap: takes the highest nonces off the sorted index until few enough are left. */
    method DropHighest(threshold: nat, ghost s: seq<Tx>) returns (drops: seq<Tx>)
      requires ByNonce(items) && Flat(s, items) && |s| == |index| && threshold <= |s|
      requires forall i :: 0 <= i < |s| ==> index[i] == s[i].nonce
      modifies this`items
      ensures Flat(s[..threshold], items) && drops == Reversed(s[threshold..]) && ByNonce(items)
    {
      hide Flat;
      drops := [];
      var size := |index|;
      assert s[..size] == s && Reversed(s[size..]) == [];
      while size > threshold
        invariant threshold <= size <= |s| && ByNonce(items)
        invariant Flat(s[..size], items) && drops == Reversed(s[size..])
      {
        FlatLast(s[..size], items);
        assert s[..size][..size - 1] == s[..size - 1];
        assert Reversed(s[size - 1..]) == Reversed(s[size..]) + [s[size - 1]];
        drops := drops + [items[index[size - 1]]];
        items := items - {index[size - 1]};
        size := size - 1;
      }
    }

    /** Keeps the lowest nonces and returns the others, highest first. */
    method Cap(threshold: nat) returns (drops: seq<Tx>)
      requires Valid()
      modifies this
      ensures Valid() && items == Lowest(old(items), threshold)
      ensures Flat(Reversed(drops), Highest(old(items), threshold))
    {
      hide Heap, Lowest, Highest, Flat, Rank, Reversed;
      if |items| <= threshold {
        AllLow(items, threshold);
        NoneFlat();
        return [];
      }
      HeapIsDistinct(index);
      IndexLength(index, items.Keys);
      index := SortNonces(index);
      ghost var s := Gather(index, items);
      GatherIsFlat(index, items);
      if cache.Some? {
        FlatUnique(cache.value, s, items);
      }
      drops := DropHighest(threshold, s);
      FlatCap(s, old(items), threshold);
      FlatDetermines(s[..threshold], items, Lowest(old(items), threshold));
      ReversedTwice(s[threshold..]);
      KeptNonces(s[..threshold], items, index[..threshold]);
      assert |s| - |drops| == threshold;
      Shorten(threshold, |drops|, s);
    }

    /** The rest of Cap: the index is a heap of the lowest nonces again, and the cache loses its last ones. */
    method Shorten(threshold: nat, dropped: nat, ghost s: seq<Tx>)
      requires ByNonce(items) && threshold <= |s| && |s| == |index| == threshold + dropped && Distinct(index)
      requires Flat(s[..threshold], items) && (forall n :: n in index[..threshold] <==> n in items)
      requires cache.Some? ==> cache.value == s
      modifies this`index, this`cache
      ensures Valid()
    {
      hide Heap, Flat, ByNonce;
      index := Heapify(index[..threshold]);
      if cache.Some? {
        cache := Some(cache.value[..|cache.value| - dropped]);
      }
    }

    method Remove(nonce: nat) returns (found: bool)
      requires Valid()
      modifies this
      ensures Valid() && (found <==> nonce in old(items)) && items == old(items) - {nonce}
    {
      if nonce !in items {
        assert items - {nonce} == items;
        return false;
      }
      for i := 0 to |index|
        invariant forall j :: 0 <= j < i ==> index[j] != nonce
        invariant index == old(index)
      {
        if index[i] == nonce {
          index := HeapRemove(index, i);
          break;
        }
      }
      items, cache := items - {nonce}, None;
      return true;
    }

    /** The loop of Ready: pops while the least nonce is the next number. */
    method TakeRun(ghost s: seq<Tx>) returns (ready: seq<Tx>)
      requires Indexed() && index != [] && Flat(s, items)
      modifies this`items, this`index
      ensures Indexed() && 0 < |ready| <= |s| && ready == s[..|ready|] && Flat(s[|ready|..], items)
      ensures forall i :: 0 <= i < |ready| ==> ready[i].nonce == s[0].nonce + i
      ensures index != [] ==> index[0] != s[0].nonce + |ready|
    {
      hide Flat, Heap, ByNonce;
      FirstIsLeast(s, items, index);
      assert s[0..] == s;
      var next := index[0];
      ready := [];
      while |index| > 0 && index[0] == next
        invariant Indexed() && |ready| <= |s| && ready == s[..|ready|] && Flat(s[|ready|..], items)
        invariant next == s[0].nonce + |ready| && (ready == [] ==> index == old(index))
        invariant forall i :: 0 <= i < |ready| ==> ready[i].nonce == s[0].nonce + i
        decreases |index|
      {
        var tx := PopLeast(s[|ready|..]);
        assert s[|ready|..][1..] == s[|ready| + 1..];
        ready := ready + [tx];
        next := next + 1;
      }
    }

    /** Takes out the lowest run of nonces, if it starts no higher than asked for. */
    method Ready(start: nat) returns (ready: seq<Tx>)
      requires Valid()
      modifies this
      ensures Valid()
      ensures (forall n :: n in old(items) ==> n > start) ==> ready == [] && items == old(items)
      ensures (exists n :: n in old(items) && n <= start) ==>
                IsRun(ready, old(items)) && items == From(old(items), ready[0].nonce + |ready|)
    {
      hide Flat, Heap, ByNonce, IsRun;
      if |index| == 0 || index[0] > start {
        LeastFirst(index, start + 1);
        return [];
      }
      assert index[0] in items;
      ghost var s := HasFlat(items);
      ready := TakeRun(s);
      NextFree(s[|ready|..], items, index, s[0].nonce + |ready|);
      RunDone(s, old(items), items, |ready|);
      cache := None;
    }

    method Flatten() returns (txs: seq<Tx>)
      requires Valid()
      modifies this`cache
      ensures Valid() && Flat(txs, items)
    {
      if cache.None? {
        var ns := Elements(items.Keys);
        var sorted := SortNonces(ns);
        GatherIsFlat(sorted, items);
        cache := Some(Gather(sorted, items));
      }
      return cache.value;
    }
  }

  lemma ListsMore(removed: seq<Tx>, all: Txs, left: set<nat>, n: nat)
    requires ByNonce(all) && n in all && n in left && Lists(removed, all - left)
    ensures Lists(removed + [all[n]], all - (left - {n}))
  {
    var s, m := removed + [all[n]], all - (left - {n});
    forall k | k in m
      ensures m[k] in s
    {
      if k == n {
        assert s[|removed|] == m[k];
      } else {
        assert (all - left)[k] == m[k];
        assert m[k] in removed;
      }
    }
  }

  lemma ReversedTwice(s: seq<Tx>)
    ensures Reversed(Reversed(s)) == s
  {
  }

  lemma KeptNonces(s: seq<Tx>, m: Txs, ns: seq<nat>)
    requires Flat(s, m) && ByNonce(m) && |ns| == |s| && forall i :: 0 <= i < |s| ==> ns[i] == s[i].nonce
    ensures forall n :: n in ns <==> n in m
  {
    forall n | n in m
      ensures n in ns
    {
      var i :| 0 <= i < |s| && s[i] == m[n];
      assert ns[i] == n;
    }
  }

  /** A heap starts with the nonce its sorted view starts with. */
  lemma FirstIsLeast(s: seq<Tx>, m: Txs, h: seq<nat>)
    requires Flat(s, m) && ByNonce(m) && Heap(h) && h != [] && forall n :: n in h <==> n in m
    ensures s != [] && h[0] == s[0].nonce
  {
    assert m[h[0]] in s;
    FlatHead(s, m);
    assert s[0].nonce in h;
  }

  /** The heap of what is left shows whether its first nonce is the next number. */
  lemma NextFree(rest: seq<Tx>, left: Txs, h: seq<nat>, next: nat)
    requires Flat(rest, left) && ByNonce(left) && Heap(h) && forall n :: n in h <==> n in left
    requires h != [] ==> h[0] != next
    ensures rest != [] ==> rest[0].nonce != next
  {
    if rest != [] {
      FlatHead(rest, left);
      assert h != [];
      FirstIsLeast(rest, left, h);
    }
  }

  /** Taken one by one until the next nonce is not the next number, the first transactions are a run. */
  lemma RunDone(s: seq<Tx>, m: Txs, left: Txs, r: nat)
    requires ByNonce(m) && ByNonce(left) && Flat(s, m) && 0 < r <= |s| && Flat(s[r..], left)
    requires forall i :: 0 <= i < r ==> s[i].nonce == s[0].nonce + i
    requires |s| > r ==> s[r].nonce != s[0].nonce + r
    ensures IsRun(s[..r], m) && left == From(m, s[0].nonce + r)
  {
    hide Flat, ByNonce, From, IsRun;
    AroundGap(s, m, r);
    RunSplits(s, m, left, r, s[0].nonce + r);
    FlatHead(s, m);
    FlatEntries(s, m);
    PrefixIsRun(s, m, r);
  }

  lemma FlatEntries(s: seq<Tx>, m: Txs)
    requires Flat(s, m)
    ensures forall i :: 0 <= i < |s| ==> s[i].nonce in m && m[s[i].nonce] == s[i]
  {
  }

  lemma PrefixIsRun(s: seq<Tx>, m: Txs, r: nat)
    requires 0 < r <= |s| && (forall n :: n in m ==> s[0].nonce <= n) && s[0].nonce + r !in m
    requires forall i :: 0 <= i < r ==> s[i].nonce == s[0].nonce + i
    requires forall i :: 0 <= i < |s| ==> s[i].nonce in m && m[s[i].nonce] == s[i]
    ensures IsRun(s[..r], m)
  {
    var p := s[..r];
    assert p[0] == s[0];
    forall i | 0 <= i < |p|
      ensures p[i].nonce == p[0].nonce + i && p[i].nonce in m && m[p[i].nonce] == p[i]
    {
      assert p[i] == s[i];
    }
  }

  /** The run is below the gap, and all else above it. */
  lemma AroundGap(s: seq<Tx>, m: Txs, r: nat)
    requires Flat(s, m) && 0 < r <= |s|
    requires forall i :: 0 <= i < r ==> s[i].nonce == s[0].nonce + i
    requires |s| > r ==> s[r].nonce != s[0].nonce + r
    ensures forall i :: 0 <= i < r ==> s[i].nonce < s[0].nonce + r
    ensures forall i :: r <= i < |s| ==> s[i].nonce > s[0].nonce + r
  {
    forall i | r <= i < |s|
      ensures s[i].nonce > s[0].nonce + r
    {
      assert s[r - 1].nonce == s[0].nonce + r - 1 && s[r - 1].nonce < s[r].nonce <= s[i].nonce;
    }
  }

  lemma RunSplits(s: seq<Tx>, m: Txs, left: Txs, r: nat, next: nat)
    requires ByNonce(m) && ByNonce(left) && Flat(s, m) && r <= |s| && Flat(s[r..], left)
    requires forall i :: 0 <= i < r ==> s[i].nonce < next
    requires forall i :: r <= i < |s| ==> s[i].nonce > next
    ensures left == From(m, next) && next !in m
  {
    FlatSplit(s, m, next, r);
    FlatDetermines(s[r..], left, From(m, next));
    RunEnds(s, m, next, r);
  }

  lemma RunEnds(s: seq<Tx>, m: Txs, next: nat, r: nat)
    requires Flat(s, m) && ByNonce(m) && r <= |s|
    requires (forall i :: 0 <= i < r ==> s[i].nonce < next) && (forall i :: r <= i < |s| ==> s[i].nonce > next)
    ensures next !in m
  {
    forall n | n in m
      ensures n != next
    {
      var i :| 0 <= i < |s| && s[i] == m[n];
    }
  }

  lemma NoneFlat()
    ensures Flat([], map[]) && Reversed([]) == []
  {
  }

  lemma HeapIsDistinct(s: seq<nat>)
    requires Heap(s)
    ensures Distinct(s)
  {
  }

  lemma GatherIsFlat(ns: seq<nat>, m: Txs)
    requires Sorted(ns) && ByNonce(m) && forall n :: n in ns <==> n in m
    ensures Flat(Gather(ns, m), m)
  {
    var s := Gather(ns, m);
    forall n | n in m
      ensures m[n] in s
    {
      var i :| 0 <= i < |ns| && ns[i] == n;
      assert s[i] == m[n];
    }
  }

  lemma AllLow(m: Txs, k: nat)
    requires ByNonce(m) && |m| <= k
    ensures Lowest(m, k) == m && Highest(m, k) == map[]
  {
    hide Rank;
    var s := HasFlat(m);
    FlatRanks(s, m);
    forall n | n in m
      ensures Rank(m, n) < k
    {
      var i :| 0 <= i < |s| && s[i] == m[n];
    }
  }

  lemma LeastFirst(h: seq<nat>, threshold: nat)
    requires Heap(h) && (h != [] ==> h[0] >= threshold)
    ensures forall n :: n in h ==> n >= threshold
  {
  }

  lemma SplitDone(s: seq<Tx>, m: Txs, left: Txs, threshold: nat, r: nat)
    requires ByNonce(m) && ByNonce(left) && Flat(s, m) && r <= |s| && Flat(s[r..], left)
    requires (forall tx :: tx in s[..r] ==> tx.nonce < threshold) && forall n :: n in left ==> n >= threshold
    ensures left == From(m, threshold) && Flat(s[..r], Below(m, threshold))
  {
    forall i | r <= i < |s|
      ensures s[i].nonce >= threshold
    {
      assert s[r..][i - r] == s[i];
    }
    forall i | 0 <= i < r
      ensures s[i].nonce < threshold
    {
      assert s[i] in s[..r];
    }
    FlatSplit(s, m, threshold, r);
    FlatDetermines(s[r..], left, From(m, threshold));
  }
}
