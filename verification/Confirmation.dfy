/**
 * What a root block may confirm. On every accepted root chain the headers it confirms for one shard
 * form one parent-linked chain from height 0, and the latest headers kept with a root block are the
 * ends of those chains.
 */
module Confirmation {
  import opened BlockTree
  import opened ChainTypes

  type Latest = map<ShardId, MinorHeader>

  /** The settings the validator reads: block limits, and the shards initialized at a root height. */
  datatype Rules = Rules(maxBlocks: ShardId -> nat, initialized: nat -> set<ShardId>)

  predicate Follows(h: MinorHeader, parent: MinorHeader) {
    h.number == parent.number + 1 && h.parent == parent.hash
  }

  /** Every header is one higher than the one before it and names it as its parent. */
  ghost predicate Chained(hs: seq<MinorHeader>) {
    |hs| <= 1 || (Chained(hs[..|hs| - 1]) && Follows(hs[|hs| - 1], hs[|hs| - 2]))
  }

  /** All headers of one shard confirmed along a root chain, in root order. */
  ghost function Confirmed(path: seq<RootBlock>, s: ShardId): seq<MinorHeader> {
    if path == [] then []
    else Confirmed(path[..|path| - 1], s) + Own(path[|path| - 1].body.headers, s)
  }

  /** The confirmed headers of every shard are one chain from height 0, and latest holds their ends. */
  ghost predicate Tracks(latest: Latest, path: seq<RootBlock>) {
    forall s :: TracksShard(latest, path, s)
  }

  ghost predicate TracksShard(latest: Latest, path: seq<RootBlock>, s: ShardId) {
    var hs := Confirmed(path, s);
    && Chained(hs) && (hs != [] ==> hs[0].number == 0)
    && (s in latest <==> hs != []) && (s in latest ==> latest[s] == hs[|hs| - 1])
  }

  lemma {:induction false} ChainedAppend(a: seq<MinorHeader>, b: seq<MinorHeader>)
    requires Chained(a) && Chained(b)
    requires a != [] && b != [] ==> Follows(b[0], a[|a| - 1])
    ensures Chained(a + b)
  {
    if b == [] {
      assert a + b == a;
    } else if |b| == 1 {
      assert (a + b)[..|a|] == a;
    } else {
      ChainedAppend(a, b[..|b| - 1]);
      assert (a + b)[..|a| + |b| - 1] == a + b[..|b| - 1];
    }
  }

  /** No gap, repeat or fork: the header at position i is the only one at height i. */
  lemma {:induction false} ConfirmedHeights(latest: Latest, path: seq<RootBlock>, s: ShardId, i: nat)
    requires TracksShard(latest, path, s) && i < |Confirmed(path, s)|
    ensures Confirmed(path, s)[i].number == i
    ensures i > 0 ==> Confirmed(path, s)[i].parent == Confirmed(path, s)[i - 1].hash
  {
    hide Confirmed;
    ChainedHeights(Confirmed(path, s), i);
  }

  lemma {:induction false} ChainedHeights(hs: seq<MinorHeader>, i: nat)
    requires Chained(hs) && i < |hs| && hs[0].number == 0
    ensures hs[i].number == i && (i > 0 ==> hs[i].parent == hs[i - 1].hash)
    decreases |hs|
  {
    if i < |hs| - 1 {
      ChainedHeights(hs[..|hs| - 1], i);
    } else if i > 0 {
      ChainedHeights(hs[..|hs| - 1], i - 1);
    }
  }

  // ---------- the validator ----------

  /** The order of full shard ids. */
  predicate Before(a: ShardId, b: ShardId) {
    a.branch as int < b.branch as int
  }

  lemma BeforeIsOrder(a: ShardId, b: ShardId, c: ShardId)
    ensures !Before(a, a) && (Before(a, b) || a == b || Before(b, a))
    ensures Before(a, b) && Before(b, c) ==> Before(a, c)
  {
    if a.branch as int == b.branch as int {
      SameId(a.branch, b.branch);
    }
  }

  lemma SameId(a: bv32, b: bv32)
    requires a as int == b as int
    ensures a == b
  {
    assert a as int as bv32 == a && b as int as bv32 == b;
  }

  lemma ZeroIsFirst(s: ShardId)
    ensures !Before(s, ShardId(0)) && (s == ShardId(0) || Before(ShardId(0), s))
  {
    if s.branch as int == 0 {
      SameId(s.branch, 0);
    }
  }

  /** Headers come by shard, in the order of shard ids, of which 0 is none. */
  ghost predicate ByShard(headers: seq<MinorHeader>) {
    && (forall i :: 0 <= i < |headers| ==> headers[i].branch != ShardId(0))
    && (forall i, j :: 0 <= i < j < |headers| ==>
          headers[i].branch == headers[j].branch || Before(headers[i].branch, headers[j].branch))
  }

  /** The order of one root block's headers: by shard, and linked within a shard. */
  ghost predicate Ordered(headers: seq<MinorHeader>) {
    ByShard(headers) && forall s :: Chained(Own(headers, s))
  }

  /** One shard's headers fit on what its shard has confirmed so far. */
  ghost predicate ShardOk(rules: Rules, height: nat, latest: Latest, s: ShardId, own: seq<MinorHeader>)
    requires own != []
  {
    && |own| <= rules.maxBlocks(s) && s in rules.initialized(height)
    && (if s in latest then Follows(own[0], latest[s]) else own[0].number == 0)
  }

  /** All minor blocks are validated and none is younger than the root block. */
  ghost predicate Known(headers: seq<MinorHeader>, validated: set<Hash>, time: nat) {
    forall i :: 0 <= i < |headers| ==> headers[i].hash in validated && headers[i].time <= time
  }

  /** Everything the validator asks of the headers of a root block. */
  ghost predicate HeadersOk(rules: Rules, store: Store<RootBody>, validated: set<Hash>, rb: RootBlock, latest: Latest)
    requires Tree(store, 0) && rb.number > 0 && Linked(store, 0, rb)
  {
    var headers := rb.body.headers;
    && Known(headers, validated, rb.body.time) && Ordered(headers)
    && (forall i :: 0 <= i < |headers| ==> OnOwnChain(store, rb, headers[i].prevRoot))
    && (forall s :: Own(headers, s) != [] ==> ShardOk(rules, rb.number, latest, s, Own(headers, s)))
  }

  /** A known root block on the chain that rb extends. */
  ghost predicate OnOwnChain(store: Store<RootBody>, rb: RootBlock, r: Hash)
    requires Tree(store, 0) && rb.number > 0 && Linked(store, 0, rb)
  {
    r in store && store[r].number <= rb.number && PathTo(store, 0, rb)[store[r].number].hash == r
  }

  // ---------- what every accepted root block keeps to ----------

  /** No more headers of a shard than allowed, and only of shards initialized by then. */
  ghost predicate WithinShares(rules: Rules, b: RootBlock) {
    forall s :: Own(b.body.headers, s) != [] ==>
      |Own(b.body.headers, s)| <= rules.maxBlocks(s) && s in rules.initialized(b.number)
  }

  /**
   * A root block confirms no header younger than itself, none mined off its own chain or on a root block that is
   * not below it, and not too many of a shard.
   */
  ghost predicate Lawful(rules: Rules, store: Store<RootBody>, b: RootBlock)
    requires Tree(store, 0) && b.hash in store
  {
    && (forall h :: h in b.body.headers ==>
          && h.time <= b.body.time && h.prevRoot in store && store[h.prevRoot].number < b.number
          && IsAncestor(store, 0, h.prevRoot, b.hash))
    && WithinShares(rules, b)
  }

  ghost predicate AllLawful(rules: Rules, store: Store<RootBody>)
    requires Tree(store, 0)
  {
    forall h :: h in store ==> store[h].hash == h && Lawful(rules, store, store[h])
  }

  /** The same for a root block that is about to be stored. */
  ghost predicate MayAdd(rules: Rules, store: Store<RootBody>, rb: RootBlock)
    requires Tree(store, 0) && rb.number > 0 && Linked(store, 0, rb)
  {
    && (forall h :: h in rb.body.headers ==> h.time <= rb.body.time && OnOwnChain(store, rb, h.prevRoot))
    && WithinShares(rules, rb)
  }

  lemma HeadersLawful(rules: Rules, store: Store<RootBody>, validated: set<Hash>, rb: RootBlock, latest: Latest)
    requires Tree(store, 0) && rb.number > 0 && Linked(store, 0, rb) && HeadersOk(rules, store, validated, rb, latest)
    ensures MayAdd(rules, store, rb) && forall h :: h in rb.body.headers ==> h.hash in validated
  {
    hide Tree, OnOwnChain, Own, Ordered;
    var headers := rb.body.headers;
    forall h | h in headers
      ensures h.time <= rb.body.time && OnOwnChain(store, rb, h.prevRoot) && h.hash in validated
    {
      var i :| 0 <= i < |headers| && headers[i] == h;
    }
  }

  /** A known root block on the chain that a new one extends is below it, and its ancestor once it is stored. */
  lemma OwnChainIsBelow(store: Store<RootBody>, rb: RootBlock, r: Hash)
    requires Tree(store, 0) && rb.hash != EMPTY_HASH && rb.hash !in store && rb.number > 0 && Linked(store, 0, rb)
    requires OnOwnChain(store, rb, r)
    ensures Tree(store[rb.hash := rb], 0) && store[r].number < rb.number && IsAncestor(store[rb.hash := rb], 0, r, rb.hash)
  {
    hide Tree, Path, IsAncestor;
    StoredBlock(store, 0, r);
    AncestorAt(store, 0, r, rb.parent);
    AncestorsAfterAdd(store, 0, rb, r, rb.parent);
  }

  /** Lawful blocks stay lawful when one more is stored. */
  lemma LawfulAfter(rules: Rules, store: Store<RootBody>, rb: RootBlock)
    requires Tree(store, 0) && AllLawful(rules, store)
    requires rb.hash != EMPTY_HASH && rb.hash !in store && rb.number > 0 && Linked(store, 0, rb) && MayAdd(rules, store, rb)
    ensures Tree(store[rb.hash := rb], 0) && AllLawful(rules, store[rb.hash := rb]) && Lawful(rules, store[rb.hash := rb], rb)
    ensures forall h :: h in rb.body.headers ==> h.time <= rb.body.time
  {
    hide Tree, Path, IsAncestor, OnOwnChain, Own, WithinShares;
    var grown := store[rb.hash := rb];
    AddBlock(store, 0, rb);
    forall k | k in store
      ensures Lawful(rules, grown, store[k])
    {
      forall h | h in store[k].body.headers
        ensures IsAncestor(grown, 0, h.prevRoot, k)
      {
        AncestorExtend(store, grown, 0, h.prevRoot, k);
      }
    }
    forall h | h in rb.body.headers
      ensures h.prevRoot in store && store[h.prevRoot].number < rb.number && IsAncestor(grown, 0, h.prevRoot, rb.hash)
    {
      KnownRoot(store, rb, h.prevRoot);
      OwnChainIsBelow(store, rb, h.prevRoot);
    }
  }

  lemma KnownRoot(store: Store<RootBody>, rb: RootBlock, r: Hash)
    requires Tree(store, 0) && rb.number > 0 && Linked(store, 0, rb) && OnOwnChain(store, rb, r)
    ensures r in store
  {
  }

  lemma EmptyIsLawful(rules: Rules, b: RootBlock)
    requires b.body.headers == [] && Tree(map[b.hash := b], 0)
    ensures AllLawful(rules, map[b.hash := b])
  {
    hide Tree, IsAncestor;
  }

  /** The latest headers after a root block. */
  ghost function Advance(latest: Latest, headers: seq<MinorHeader>): Latest {
    latest + map s | s in Branches(headers) :: Top(Own(headers, s))
  }

  ghost function Branches(headers: seq<MinorHeader>): (r: set<ShardId>)
    ensures forall s :: s in r <==> Own(headers, s) != []
  {
    var r := set h | h in headers :: h.branch;
    assert forall s :: s in r ==> exists h :: h in headers && h.branch == s && h in Own(headers, s);
    assert forall s :: Own(headers, s) != [] ==> Own(headers, s)[0] in headers && Own(headers, s)[0].branch == s;
    r
  }

  lemma AdvanceOf(latest: Latest, headers: seq<MinorHeader>, s: ShardId)
    ensures var own, next := Own(headers, s), Advance(latest, headers);
            if own == [] then (s in next <==> s in latest) && (s in next ==> next[s] == latest[s])
            else s in next && next[s] == own[|own| - 1]
  {
    hide Own;
  }

  /** One shard's headers in a root block extend its chain. */
  lemma ShardStep(rules: Rules, path: seq<RootBlock>, rb: RootBlock, latest: Latest, s: ShardId)
    requires TracksShard(latest, path, s) && Chained(Own(rb.body.headers, s))
    requires var own := Own(rb.body.headers, s); own != [] ==> ShardOk(rules, rb.number, latest, s, own)
    ensures TracksShard(Advance(latest, rb.body.headers), path + [rb], s)
  {
    hide Chained, Own, Advance;
    assert (path + [rb])[..|path|] == path;
    var own := Own(rb.body.headers, s);
    ChainedAppend(Confirmed(path, s), own);
    AdvanceOf(latest, rb.body.headers, s);
    if own == [] {
      assert Confirmed(path, s) + own == Confirmed(path, s);
    }
  }

  /** A validated root block on a tracked chain leaves a tracked chain. */
  lemma ConfirmStep(rules: Rules, store: Store<RootBody>, validated: set<Hash>, path: seq<RootBlock>, rb: RootBlock,
                    latest: Latest)
    requires Tree(store, 0) && rb.number > 0 && Linked(store, 0, rb)
    requires Tracks(latest, path) && HeadersOk(rules, store, validated, rb, latest)
    ensures Tracks(Advance(latest, rb.body.headers), path + [rb])
  {
    hide Chained, Own, Advance, Tree, OnOwnChain, TracksShard, ShardOk;
    forall s
      ensures TracksShard(Advance(latest, rb.body.headers), path + [rb], s)
    {
      assert TracksShard(latest, path, s);
      ShardStep(rules, path, rb, latest, s);
    }
  }

  lemma OwnAppend(p: seq<MinorHeader>, h: MinorHeader, s: ShardId)
    ensures Own(p + [h], s) == Own(p, s) + if h.branch == s then [h] else []
  {
    assert (p + [h])[..|p|] == p;
  }

  lemma {:induction false} OwnPrefix(headers: seq<MinorHeader>, i: nat, s: ShardId)
    requires i <= |headers|
    ensures Own(headers[..i], s) <= Own(headers, s)
    decreases |headers| - i
  {
    if i < |headers| {
      assert headers[..i + 1] == headers[..i] + [headers[i]];
      OwnAppend(headers[..i], headers[i], s);
      OwnPrefix(headers, i + 1, s);
    } else {
      assert headers[..i] == headers;
    }
  }

  lemma {:induction false} ChainedPrefix(hs: seq<MinorHeader>, n: nat)
    requires Chained(hs) && n <= |hs|
    ensures Chained(hs[..n])
  {
    if n < |hs| {
      ChainedPrefix(hs[..|hs| - 1], n);
      assert hs[..|hs| - 1][..n] == hs[..n];
    } else {
      assert hs[..n] == hs;
    }
  }

  lemma OrderedPrefix(headers: seq<MinorHeader>, i: nat)
    requires Ordered(headers) && i <= |headers|
    ensures Ordered(headers[..i])
  {
    hide Own, Chained;
    forall s
      ensures Chained(Own(headers[..i], s))
    {
      OwnPrefix(headers, i, s);
      ChainedPrefix(Own(headers, s), |Own(headers[..i], s)|);
      assert Own(headers, s)[..|Own(headers[..i], s)|] == Own(headers[..i], s);
    }
  }

  lemma ByShardStep(p: seq<MinorHeader>, h: MinorHeader)
    requires ByShard(p)
    ensures ByShard(p + [h]) <==>
            if p == [] then h.branch != ShardId(0)
            else p[|p| - 1].branch == h.branch || Before(p[|p| - 1].branch, h.branch)
  {
    hide Before;
    var q := p + [h];
    assert q[|p|] == h && forall i :: 0 <= i < |p| ==> q[i] == p[i];
    if p != [] {
      var last := p[|p| - 1];
      assert q[|p| - 1] == last && q[|p|] == h;
      ZeroIsFirst(last.branch);
      forall i | 0 <= i < |p|
        ensures Before(p[i].branch, last.branch) && Before(last.branch, h.branch) ==> Before(p[i].branch, h.branch)
      {
        BeforeIsOrder(p[i].branch, last.branch, h.branch);
      }
    }
  }

  /** Within its shard a header links to the header just before it, or starts the shard's list. */
  lemma LinkedToLast(p: seq<MinorHeader>, h: MinorHeader)
    requires Ordered(p) && (p != [] ==> p[|p| - 1].branch == h.branch || Before(p[|p| - 1].branch, h.branch))
    ensures Chained(Own(p + [h], h.branch)) <==>
            p == [] || p[|p| - 1].branch != h.branch || Follows(h, p[|p| - 1])
  {
    assert Ordered(p) ==> ByShard(p);
    hide Chained, Own, Before, ByShard;
    OwnAppend(p, h, h.branch);
    var own := Own(p, h.branch);
    ChainedPair(own, h);
    if p != [] && p[|p| - 1].branch == h.branch {
      var q := p[..|p| - 1];
      assert p == q + [p[|p| - 1]];
      OwnAppend(q, p[|p| - 1], h.branch);
    } else {
      NewShard(p, h.branch);
    }
  }

  lemma NewShard(p: seq<MinorHeader>, s: ShardId)
    requires ByShard(p) && (p != [] ==> p[|p| - 1].branch != s && Before(p[|p| - 1].branch, s))
    ensures Own(p, s) == []
  {
    hide Before, Own;
    if Own(p, s) != [] {
      var x := Own(p, s)[0];
      assert x in Own(p, s);
      var i :| 0 <= i < |p| && p[i] == x;
      BeforeIsOrder(p[|p| - 1].branch, s, p[|p| - 1].branch);
    }
  }

  lemma ChainedPair(hs: seq<MinorHeader>, h: MinorHeader)
    requires Chained(hs)
    ensures Chained(hs + [h]) <==> hs == [] || Follows(h, hs[|hs| - 1])
  {
    assert (hs + [h])[..|hs|] == hs;
  }

  /** The comparison with the header just before is all it takes to keep headers in order. */
  lemma OrderedStep(p: seq<MinorHeader>, h: MinorHeader)
    requires Ordered(p)
    ensures Ordered(p + [h]) <==>
            if p == [] then h.branch != ShardId(0)
            else
              || Before(p[|p| - 1].branch, h.branch)
              || (p[|p| - 1].branch == h.branch && Follows(h, p[|p| - 1]))
  {
    hide Own, Chained, ByShard, Before, Follows;
    ByShardStep(p, h);
    if ByShard(p + [h]) {
      LinkedToLast(p, h);
      forall s | s != h.branch
        ensures Chained(Own(p + [h], s))
      {
        OwnAppend(p, h, s);
        assert Own(p + [h], s) == Own(p, s);
      }
      if p != [] {
        BeforeIsOrder(p[|p| - 1].branch, h.branch, h.branch);
      }
    }
  }

  // ---------- the validator's loops ----------

  ghost predicate GroupsOf(groups: map<ShardId, seq<MinorHeader>>, headers: seq<MinorHeader>) {
    && (forall s :: s in groups <==> Own(headers, s) != [])
    && (forall s :: s in groups ==> groups[s] == Own(headers, s))
  }

  lemma GroupsStep(groups: map<ShardId, seq<MinorHeader>>, p: seq<MinorHeader>, h: MinorHeader)
    requires GroupsOf(groups, p)
    ensures GroupsOf(groups[h.branch := Own(p, h.branch) + [h]], p + [h])
  {
    hide Own;
    forall s
      ensures Own(p + [h], s) == Own(p, s) + if h.branch == s then [h] else []
    {
      OwnAppend(p, h, s);
    }
  }

  /** The first loop: checks order and links, and sorts the headers by shard. */
  method GroupHeaders(headers: seq<MinorHeader>, validated: set<Hash>, time: nat)
    returns (ok: bool, groups: map<ShardId, seq<MinorHeader>>)
    ensures ok <==> Known(headers, validated, time) && Ordered(headers)
    ensures ok ==> GroupsOf(groups, headers)
  {
    hide Own, Chained, Ordered, Before, Follows;
    groups := map[];
    var current := ShardId(0);
    NoHeaders();
    for i := 0 to |headers|
      invariant Known(headers[..i], validated, time) && Ordered(headers[..i])
      invariant GroupsOf(groups, headers[..i])
      invariant current == if i == 0 then ShardId(0) else headers[i - 1].branch
    {
      var h := headers[i];
      ghost var p := headers[..i];
      assert headers[..i + 1] == p + [h];
      if h.hash !in validated || h.time > time {
        return false, groups;
      }
      OrderedStep(p, h);
      if Ordered(headers) {
        OrderedPrefix(headers, i + 1);
      }
      ZeroIsFirst(h.branch);
      BeforeIsOrder(h.branch, current, h.branch);
      GroupsStep(groups, p, h);
      if Before(h.branch, current) {
        return false, groups;
      }
      if Before(current, h.branch) {
        NoGroupYet(p, h.branch);
        current := h.branch;
        groups := groups[current := []];
      } else if i == 0 || !Follows(h, headers[i - 1]) {
        return false, groups;
      }
      groups := groups[current := groups[current] + [h]];
    }
    assert headers[..|headers|] == headers;
    ok := true;
  }

  lemma NoGroupYet(p: seq<MinorHeader>, s: ShardId)
    requires Ordered(p) && (p != [] ==> Before(p[|p| - 1].branch, s))
    ensures Own(p, s) == []
  {
    if p != [] {
      BeforeIsOrder(p[|p| - 1].branch, s, s);
    }
    NewShard(p, s);
  }

  lemma NoHeaders()
    ensures Ordered([]) && GroupsOf(map[], [])
  {
  }

  /** The second loop: the headers' previous root blocks are all on the chain rb extends. */
  method CheckPrevRoots(store: Store<RootBody>, rb: RootBlock) returns (ok: bool)
    requires Tree(store, 0) && rb.number > 0 && Linked(store, 0, rb)
    ensures ok <==> forall i :: 0 <= i < |rb.body.headers| ==> OnOwnChain(store, rb, rb.body.headers[i].prevRoot)
  {
    hide Tree, Path, PathTo;
    var headers := rb.body.headers;
    var prevRoots := set h | h in headers :: h.prevRoot;
    var left := prevRoots;
    while left != {}
      invariant left <= prevRoots && forall r :: r in prevRoots - left ==> OnOwnChain(store, rb, r)
    {
      var r :| r in left;
      var same := false;
      if r in store && store[r].number <= rb.number {
        StoredBlock(store, 0, r);
        same := IsSameChain(store, 0, rb, store[r]);
      }
      if !same {
        var h :| h in headers && h.prevRoot == r;
        return false;
      }
      left := left - {r};
    }
    return true;
  }

  function Top(hs: seq<MinorHeader>): MinorHeader
    requires hs != []
  {
    hs[|hs| - 1]
  }

  method CheckShard(rules: Rules, height: nat, latest: Latest, s: ShardId, own: seq<MinorHeader>) returns (ok: bool)
    requires own != []
    ensures ok <==> ShardOk(rules, height, latest, s, own)
  {
    if |own| > rules.maxBlocks(s) || s !in rules.initialized(height) {
      return false;
    }
    if s !in latest && own[0].number != 0 {
      return false;
    }
    return s in latest ==> Follows(own[0], latest[s]);
  }

  lemma SameShard(rules: Rules, height: nat, latest: Latest, latest': Latest, s: ShardId, own: seq<MinorHeader>)
    requires own != [] && (s in latest <==> s in latest') && (s in latest ==> latest[s] == latest'[s])
    ensures ShardOk(rules, height, latest, s, own) <==> ShardOk(rules, height, latest', s, own)
  {
  }

  /** The third loop, over the shards in any order: limits, and links to what is confirmed already. */
  method CheckShards(rules: Rules, height: nat, latest: Latest, groups: map<ShardId, seq<MinorHeader>>)
    returns (ok: bool, next: Latest)
    requires forall s :: s in groups ==> groups[s] != []
    ensures ok <==> forall s :: s in groups ==> ShardOk(rules, height, latest, s, groups[s])
    ensures ok ==> next.Keys == latest.Keys + groups.Keys
    ensures ok ==> forall s :: s in next ==> next[s] == if s in groups then Top(groups[s]) else latest[s]
  {
    hide ShardOk;
    next := latest;
    var left := groups.Keys;
    while left != {}
      invariant left <= groups.Keys
      invariant forall s :: s in groups.Keys - left ==> ShardOk(rules, height, latest, s, groups[s])
      invariant next.Keys == latest.Keys + (groups.Keys - left)
      invariant forall s :: s in next ==> next[s] == if s in groups && s !in left then Top(groups[s]) else latest[s]
    {
      var s :| s in left;
      var own := groups[s];
      var shardOk := CheckShard(rules, height, next, s, own);
      SameShard(rules, height, latest, next, s, own);
      if !shardOk {
        return false, next;
      }
      next := next[s := Top(own)];
      left := left - {s};
    }
    return true, next;
  }

  /** All checks on a root block's headers, and the latest headers after it. */
  method ValidateHeaders(rules: Rules, store: Store<RootBody>, validated: set<Hash>, rb: RootBlock, latest: Latest)
    returns (ok: bool, next: Latest)
    requires Tree(store, 0) && rb.number > 0 && Linked(store, 0, rb)
    ensures ok <==> HeadersOk(rules, store, validated, rb, latest)
    ensures ok ==> next == Advance(latest, rb.body.headers)
  {
    hide Tree, Own, OnOwnChain, ShardOk, Known, Ordered, Advance;
    next := latest;
    var groups;
    ok, groups := GroupHeaders(rb.body.headers, validated, rb.body.time);
    if !ok {
      return;
    }
    ok := CheckPrevRoots(store, rb);
    if !ok {
      return;
    }
    ok, next := CheckShards(rules, rb.number, latest, groups);
    if ok {
      AdvanceIs(latest, rb.body.headers, groups, next);
    }
  }

  lemma AdvanceIs(latest: Latest, headers: seq<MinorHeader>, groups: map<ShardId, seq<MinorHeader>>, next: Latest)
    requires GroupsOf(groups, headers) && next.Keys == latest.Keys + groups.Keys
    requires forall s :: s in next ==> next[s] == if s in groups then Top(groups[s]) else latest[s]
    ensures next == Advance(latest, headers)
  {
    hide Own, Advance;
    var want := Advance(latest, headers);
    forall s
      ensures s in next <==> s in want
      ensures s in next && s in want ==> next[s] == want[s]
    {
      AdvanceOf(latest, headers, s);
    }
  }
}
