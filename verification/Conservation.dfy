/**
 * Money over all shards: in any interleaving of block executions and root blocks, tokens are only moved
 * between balances, deposits on their way and tax, only rewards add to them, and exactly the deposits of
 * shards that stop being neighbours before they are confirmed are lost.
 */
module Conservation {
  import opened Sums
  import opened BlockTree
  import opened ChainTypes
  import opened Ledger
  import opened Cursor
  import opened Delivery
  import opened Execution
  import opened Effects
  import SK = ShardKeys

  // ---------- sorting deposits by target shard ----------

  /** The configured shard a key belongs to. */
  function Owner(cfg: SK.Config, key: bv32): Option<ShardId> {
    match SK.FullShardIdByFullShardKey(cfg, key)
    case NoSuchChain => None
    case Found(b) => Some(ShardId(b))
  }

  function Target(cfg: SK.Config, d: Deposit): Option<ShardId> {
    Owner(cfg, d.toKey)
  }

  /** The deposits of a block for one shard, in the order they were sent. */
  function SentTo(cfg: SK.Config, s: seq<Deposit>, b: ShardId): seq<Deposit> {
    if s == [] then []
    else (if Target(cfg, s[0]) == Some(b) then [s[0]] else []) + SentTo(cfg, s[1..], b)
  }

  /** Every deposit has its target among the shards. */
  ghost predicate Addressed(cfg: SK.Config, shards: set<ShardId>, s: seq<Deposit>) {
    forall i :: 0 <= i < |s| ==> Target(cfg, s[i]).Some? && Target(cfg, s[i]).value in shards
  }

  ghost function Shares(cfg: SK.Config, shards: set<ShardId>, s: seq<Deposit>, t: Token): map<ShardId, int> {
    map b | b in shards :: Money(SentTo(cfg, s, b), t)
  }

  lemma ShareStep(cfg: SK.Config, s: seq<Deposit>, b: ShardId, t: Token)
    requires s != []
    ensures Money(SentTo(cfg, s, b), t) ==
            (if Target(cfg, s[0]) == Some(b) then Carried(s[0], t) else 0) + Money(SentTo(cfg, s[1..], b), t)
  {
    hide Target, Carried;
    var rest := SentTo(cfg, s[1..], b);
    assert ([s[0]] + rest)[1..] == rest && [] + rest == rest;
  }

  /** The first deposit adds what it carries to the share of its target. */
  lemma FirstShare(cfg: SK.Config, shards: set<ShardId>, s: seq<Deposit>, t: Token, target: ShardId)
    requires s != [] && Target(cfg, s[0]) == Some(target) && target in shards
    ensures Sum(Shares(cfg, shards, s, t)) == Carried(s[0], t) + Sum(Shares(cfg, shards, s[1..], t))
  {
    hide Target, Carried, Sum, SentTo, Money;
    var first: map<ShardId, int> := map b | b in shards :: if b == target then Carried(s[0], t) else 0;
    forall b | b in shards
      ensures Shares(cfg, shards, s, t)[b] == first[b] + Shares(cfg, shards, s[1..], t)[b]
    {
      ShareStep(cfg, s, b, t);
    }
    SumPointwise(first, Shares(cfg, shards, s[1..], t), Shares(cfg, shards, s, t));
    SumSingle(first, target);
  }

  /** The shards' shares of a block's deposits add up to all of them. */
  lemma {:induction false} SharesAddUp(cfg: SK.Config, shards: set<ShardId>, s: seq<Deposit>, t: Token)
    requires Addressed(cfg, shards, s)
    ensures Sum(Shares(cfg, shards, s, t)) == Money(s, t)
  {
    hide Target, Carried, Sum;
    if s == [] {
      SumZero(Shares(cfg, shards, s, t));
    } else {
      hide Shares;
      assert Target(cfg, s[0]).Some? && Target(cfg, s[0]).value in shards;
      FirstShare(cfg, shards, s, t, Target(cfg, s[0]).value);
      assert forall i :: 0 <= i < |s[1..]| ==> s[1..][i] == s[i + 1];
      SharesAddUp(cfg, shards, s[1..], t);
    }
  }

  // ---------- the root chain ----------

  /** The root chain as a shard sees it, from its own genesis root height on. */
  ghost function PathOf(roots: seq<RootBlock>, base: nat): seq<RootBlock> {
    if base <= |roots| then roots[base..] else []
  }

  ghost predicate Joined(roots: seq<RootBlock>, i: nat)
    requires i < |roots|
  {
    i == 0 || roots[i].parent == roots[i - 1].hash
  }

  /** A header was mined on one of these root blocks. */
  ghost predicate MinedOn(roots: seq<RootBlock>, h: MinorHeader) {
    exists k :: 0 <= k < |roots| && roots[k].hash == h.prevRoot
  }

  ghost predicate HeadersBelow(roots: seq<RootBlock>, i: nat)
    requires i < |roots|
  {
    forall j :: 0 <= j < |roots[i].body.headers| ==> MinedOn(roots[..i], roots[i].body.headers[j])
  }

  /** One chain of root blocks with different hashes, whose headers were mined on earlier ones. */
  ghost predicate RootsOk(roots: seq<RootBlock>) {
    && Numbered(roots, 0)
    && (forall i :: 0 <= i < |roots| ==> roots[i].hash != EMPTY_HASH && Joined(roots, i) && HeadersBelow(roots, i))
    && (forall i, j :: 0 <= i < j < |roots| ==> roots[i].hash != roots[j].hash)
  }

  /** The shard knows exactly the root blocks from its genesis root height on. */
  ghost predicate Follows(c: Chain, roots: seq<RootBlock>) {
    && (forall i :: c.genesisRootHeight <= i < |roots| ==> roots[i].hash in c.roots && c.roots[roots[i].hash] == roots[i])
    && (forall h :: h in c.roots ==>
          var n := c.roots[h].number;
          c.genesisRootHeight <= n < |roots| && roots[n] == c.roots[h] && roots[n].hash == h)
  }

  lemma FollowsIsTree(c: Chain, roots: seq<RootBlock>)
    requires RootsOk(roots) && Follows(c, roots)
    ensures Tree(c.roots, c.genesisRootHeight)
  {
    forall h | h in c.roots && c.roots[h].number > c.genesisRootHeight
      ensures Linked(c.roots, c.genesisRootHeight, c.roots[h])
    {
      var n := c.roots[h].number;
      assert Joined(roots, n);
      assert roots[n - 1].hash in c.roots;
    }
  }

  lemma PathGrows(roots: seq<RootBlock>, base: nat, k: nat)
    requires base <= k < |roots|
    ensures PathOf(roots[..k + 1], base) == PathOf(roots[..k], base) + [roots[k]]
  {
    assert roots[..k + 1] == roots[..k] + [roots[k]];
  }

  lemma EmptyPath(roots: seq<RootBlock>, base: nat)
    requires base <= |roots|
    ensures PathOf(roots[..base], base) == []
  {
  }

  lemma FollowsLink(c: Chain, roots: seq<RootBlock>, k: nat)
    requires RootsOk(roots) && Follows(c, roots) && c.genesisRootHeight <= k < |roots|
    ensures roots[k].hash in c.roots && c.roots[roots[k].hash] == roots[k] && roots[k].number == k
    ensures k > c.genesisRootHeight ==> roots[k].parent == roots[k - 1].hash
  {
    assert Joined(roots, k);
  }

  lemma PathStep(store: Store<RootBody>, base: nat, h: Hash)
    requires Tree(store, base) && h in store
    ensures store[h].number == base ==> Path(store, base, h) == [] + [store[h]]
    ensures store[h].number > base ==>
              store[h].parent in store && Path(store, base, h) == Path(store, base, store[h].parent) + [store[h]]
  {
  }

  lemma {:induction false} FollowsPath(c: Chain, roots: seq<RootBlock>, k: nat)
    requires RootsOk(roots) && Follows(c, roots) && c.genesisRootHeight <= k < |roots|
    ensures Tree(c.roots, c.genesisRootHeight) && roots[k].hash in c.roots
    ensures Path(c.roots, c.genesisRootHeight, roots[k].hash) == PathOf(roots[..k + 1], c.genesisRootHeight)
  {
    hide RootsOk, Follows, Tree, PathOf, Path;
    FollowsIsTree(c, roots);
    FollowsLink(c, roots, k);
    PathGrows(roots, c.genesisRootHeight, k);
    PathStep(c.roots, c.genesisRootHeight, roots[k].hash);
    if k > c.genesisRootHeight {
      FollowsPath(c, roots, k - 1);
    } else {
      EmptyPath(roots, k);
    }
  }

  /** A root block of the chain is known exactly from the shard's genesis root height on. */
  lemma KnownFromBase(c: Chain, roots: seq<RootBlock>, k: nat)
    requires RootsOk(roots) && Follows(c, roots) && k < |roots|
    ensures roots[k].hash in c.roots <==> c.genesisRootHeight <= k
    ensures roots[k].hash in c.roots ==> c.roots[roots[k].hash].number == k
  {
    if roots[k].hash in c.roots {
      var n := c.roots[roots[k].hash].number;
      assert roots[n].hash == roots[k].hash;
    }
  }

  // ---------- the whole system ----------

  /** One shard: what it reads, its balances, its saved cursor, how much of the root chain its tip has seen,
      and what its blocks kept back so far. */
  datatype ShardState = ShardState(chain: Chain, balances: Balances, info: CursorInfo, seen: nat, kept: Kept)

  /** An executed block that no root block has confirmed yet: its shard, the root block it was mined on with
      its height, and what it sent. */
  datatype SentBlock = SentBlock(source: ShardId, prevRoot: Hash, height: nat, deposits: seq<Deposit>)

  /** All shards, following one root chain. */
  datatype System = System(
    cfg: SK.Config, genesisToken: Token, feeRate: Rate, geneses: map<ShardId, nat>, shards: map<ShardId, ShardState>,
    roots: seq<RootBlock>, pending: map<Hash, SentBlock>)

  function Base(st: ShardState): nat {
    st.chain.genesisRootHeight
  }

  ghost predicate ValidShard(sys: System, b: ShardId, st: ShardState) {
    && SK.IsShard(sys.cfg, b.branch) && st.chain.branch == b && st.chain.genesisToken == sys.genesisToken
    && st.chain.geneses == sys.geneses && b in sys.geneses && Base(st) == sys.geneses[b]
    && Follows(st.chain, sys.roots) && Solvent(st.balances) && ProtocolChain(st.chain)
    && st.seen <= |sys.roots|
    && ValidInfo(st.chain, PathOf(sys.roots[..st.seen], Base(st)), Base(st), st.info)
    && ValidInfo(st.chain, PathOf(sys.roots, Base(st)), Base(st), st.info)
  }

  /** The shards a block's deposits are broadcast to: the other shards initialized before the root block it
      was mined on that are neighbours there. */
  predicate Receives(geneses: map<ShardId, nat>, source: ShardId, height: nat, b: ShardId) {
    && b != source && b in Initialized(geneses, height)
    && SK.IsNeighbor(source.branch, b.branch, |Initialized(geneses, height)|)
  }

  /** A shard a block was broadcast to holds exactly its share; nothing was sent to the others. */
  ghost predicate ShareStored(sys: System, st: ShardState, h: Hash, p: SentBlock) {
    var share := SentTo(sys.cfg, p.deposits, st.chain.branch);
    if Receives(sys.geneses, p.source, p.height, st.chain.branch)
    then h in st.chain.lists && st.chain.lists[h] == share
    else h !in st.chain.lists && share == []
  }

  predicate Mentions(rb: RootBlock, h: Hash) {
    exists i :: 0 <= i < |rb.body.headers| && rb.body.headers[i].hash == h
  }

  predicate Unconfirmed(roots: seq<RootBlock>, h: Hash) {
    forall i :: 0 <= i < |roots| ==> !Mentions(roots[i], h)
  }

  ghost predicate ValidPending(sys: System, h: Hash, p: SentBlock) {
    && Unconfirmed(sys.roots, h) && Addressed(sys.cfg, sys.shards.Keys, p.deposits)
    && p.height < |sys.roots| && sys.roots[p.height].hash == p.prevRoot
    && forall b :: b in sys.shards ==> ShareStored(sys, sys.shards[b], h, p)
  }

  ghost predicate ValidSystem(sys: System) {
    && SK.ValidConfig(sys.cfg) && RootsOk(sys.roots) && sys.shards.Keys == sys.geneses.Keys
    && (forall b :: b in sys.shards ==> ValidShard(sys, b, sys.shards[b]))
    && (forall h :: h in sys.pending ==> ValidPending(sys, h, sys.pending[h]))
  }

  lemma ShardIsValid(sys: System, b: ShardId)
    requires ValidSystem(sys) && b in sys.shards
    ensures ValidShard(sys, b, sys.shards[b])
  {
  }

  /** Before the first root block: every shard with its allocation, at the start of what it will read. */
  function Genesis(cfg: SK.Config, genesisToken: Token, feeRate: Rate, geneses: map<ShardId, nat>,
                   alloc: map<ShardId, Balances>): System
    requires geneses.Keys <= alloc.Keys
  {
    System(cfg, genesisToken, feeRate, geneses,
           map b | b in geneses ::
             ShardState(Chain(b, genesisToken, geneses[b], map[], map[], geneses), alloc[b], CursorInfo(geneses[b], 0, 0), 0,
                        Kept(0, 0, 0)),
           [], map[])
  }

  lemma GenesisIsValid(cfg: SK.Config, genesisToken: Token, feeRate: Rate, geneses: map<ShardId, nat>,
                       alloc: map<ShardId, Balances>)
    requires geneses.Keys <= alloc.Keys && SK.ValidConfig(cfg)
    requires forall b :: b in geneses ==> SK.IsShard(cfg, b.branch) && Solvent(alloc[b])
    ensures ValidSystem(Genesis(cfg, genesisToken, feeRate, geneses, alloc))
  {
    hide SK.IsShard, SK.ValidConfig, Solvent;
    var sys := Genesis(cfg, genesisToken, feeRate, geneses, alloc);
    assert sys.shards.Keys == geneses.Keys;
    forall b | b in sys.shards
      ensures ValidShard(sys, b, sys.shards[b])
    {
    }
  }

  // ---------- what there is of a token ----------

  /** Balances, retained amounts and confirmed deposits not yet delivered, of one shard. */
  ghost function Holding(roots: seq<RootBlock>, genesisToken: Token, st: ShardState, t: Token): int
    requires ValidInfo(st.chain, PathOf(roots, Base(st)), Base(st), st.info)
  {
    Total(st.balances, t) + KeptOf(st.kept, genesisToken, t)
    + Money(DepositsOf(Rest(st.chain, PathOf(roots, Base(st)), Base(st), st.info)), t)
  }

  ghost function Holdings(sys: System, t: Token): map<ShardId, int>
    requires ValidSystem(sys)
  {
    map b | b in sys.shards :: Holding(sys.roots, sys.genesisToken, sys.shards[b], t)
  }

  ghost function PendingMoney(pending: map<Hash, SentBlock>, t: Token): map<Hash, int> {
    map h | h in pending :: Money(pending[h].deposits, t)
  }

  /** All there is of token t in the whole system. */
  ghost function Supply(sys: System, t: Token): int
    requires ValidSystem(sys)
  {
    Sum(Holdings(sys, t)) + Sum(PendingMoney(sys.pending, t))
  }

  // ---------- a shard executes a block ----------

  /** A block execution: the height of the root block it was mined on, whether it ran after activation, its run of
      the cursor, the balances when its deposits had arrived and at its end, what it sent and what it kept back. */
  datatype Exec = Exec(
    shard: ShardId, hash: Hash, prevRoot: Hash, height: nat, miner: Recipient, evmEnabled: bool, run: BlockRun,
    arrived: Balances, after: Balances, sent: seq<Deposit>, fee: nat, kept: Kept, reward: seq<(Token, nat)>)

  function AddKept(a: Kept, b: Kept): Kept {
    Kept(a.withheld + b.withheld, a.stranded + b.stranded, a.overRefunded + b.overRefunded)
  }

  /** A shard's chain after it was sent its share of a block, if it was. */
  function Broadcast(sys: System, x: Exec, b: ShardId, c: Chain): Chain {
    if Receives(sys.geneses, x.shard, x.height, b)
    then c.(lists := c.lists[x.hash := SentTo(sys.cfg, x.sent, b)]) else c
  }

  function AfterExec(sys: System, x: Exec, b: ShardId, st: ShardState): ShardState {
    if b != x.shard then st.(chain := Broadcast(sys, x, b, st.chain))
    else st.(balances := x.after, info := x.run.info, seen := x.height + 1, kept := AddKept(st.kept, x.kept))
  }

  function ExecStep(sys: System, x: Exec): System {
    sys.(shards := map b | b in sys.shards :: AfterExec(sys, x, b, sys.shards[b]),
         pending := sys.pending[x.hash := SentBlock(x.shard, x.prevRoot, x.height, x.sent)])
  }

  /** What RunBlock ensures of a block mined on the root block at a height. */
  ghost predicate GoodRun(sys: System, st: ShardState, x: Exec) {
    && Base(st) <= x.height < |sys.roots| && sys.roots[x.height].hash == x.prevRoot && st.seen <= x.height + 1
    && x.run.path == PathOf(sys.roots[..x.height + 1], Base(st)) && IsRun(st.chain, Base(st), st.info, x.run)
    && Conserves(sys.genesisToken, st.balances, x.after, DepositsOf(x.run.delivered), x.sent, x.kept, x.reward)
    && (Rest(st.chain, x.run.path, Base(st), st.info) != [] ==> x.run.delivered != [])
    && Solvent(x.after) && AllProtocol(sys.genesisToken, x.sent) && WithinRate(x.fee, x.kept.withheld, sys.feeRate)
    && (!x.evmEnabled ==> sys.feeRate.den > 0
                          && Reached(sys.genesisToken, sys.feeRate, x.miner, DepositsOf(x.run.delivered), st.balances, x.arrived))
  }

  /** Every deposit is for some shard the block is broadcast to. */
  predicate Broadcastable(cfg: SK.Config, geneses: map<ShardId, nat>, shards: set<ShardId>, source: ShardId, height: nat,
                          sent: seq<Deposit>) {
    forall i :: 0 <= i < |sent| ==>
      && Target(cfg, sent[i]).Some? && Target(cfg, sent[i]).value in shards
      && Receives(geneses, source, height, Target(cfg, sent[i]).value)
  }

  /** A block hash that occurs nowhere yet. */
  predicate FreshHash(sys: System, h: Hash) {
    h !in sys.pending && Unconfirmed(sys.roots, h) && forall b :: b in sys.shards ==> h !in sys.shards[b].chain.lists
  }

  ghost predicate CanExec(sys: System, x: Exec)
    requires ValidSystem(sys)
  {
    && x.shard in sys.shards && FreshHash(sys, x.hash) && GoodRun(sys, sys.shards[x.shard], x)
    && Broadcastable(sys.cfg, sys.geneses, sys.shards.Keys, x.shard, x.height, x.sent)
  }

  lemma {:induction false} NothingElsewhere(cfg: SK.Config, geneses: map<ShardId, nat>, shards: set<ShardId>,
                                            source: ShardId, height: nat, sent: seq<Deposit>, b: ShardId)
    requires Broadcastable(cfg, geneses, shards, source, height, sent) && !Receives(geneses, source, height, b)
    ensures SentTo(cfg, sent, b) == []
  {
    hide Receives, Target;
    if sent != [] {
      assert Target(cfg, sent[0]) != Some(b);
      forall i | 0 <= i < |sent[1..]|
        ensures Target(cfg, sent[1..][i]).Some? && Target(cfg, sent[1..][i]).value in shards
                && Receives(geneses, source, height, Target(cfg, sent[1..][i]).value)
      {
        assert sent[1..][i] == sent[i + 1];
      }
      NothingElsewhere(cfg, geneses, shards, source, height, sent[1..], b);
    }
  }

  lemma {:induction false} SharesAreProtocol(cfg: SK.Config, t: Token, s: seq<Deposit>, b: ShardId)
    requires AllProtocol(t, s)
    ensures AllProtocol(t, SentTo(cfg, s, b))
  {
    hide Target, ProtocolDeposit;
    if s != [] {
      SharesAreProtocol(cfg, t, s[1..], b);
    }
  }

  lemma {:induction false} DepositsConcat(a: seq<Event>, b: seq<Event>)
    ensures DepositsOf(a + b) == DepositsOf(a) + DepositsOf(b)
    decreases |b|
  {
    if b == [] {
      assert a + b == a;
    } else {
      var n := |b| - 1;
      assert (a + b)[..|a + b| - 1] == a + b[..n];
      DepositsConcat(a, b[..n]);
    }
  }

  /** Storing the list of a block no root block mentions changes nothing on any path of the root chain. */
  lemma NewListUnseen(roots: seq<RootBlock>, c: Chain, h: Hash, list: seq<Deposit>, path: seq<RootBlock>)
    requires Unconfirmed(roots, h) && h !in c.lists && forall i :: 0 <= i < |path| ==> path[i] in roots
    ensures SameReadsAll(c, c.(lists := c.lists[h := list]), path)
  {
    var c' := c.(lists := c.lists[h := list]);
    forall i | 0 <= i < |path|
      ensures SameReads(c, c', path[i])
    {
      var k :| 0 <= k < |roots| && roots[k] == path[i];
      assert !Mentions(roots[k], h);
    }
  }

  lemma PathsAreRoots(roots: seq<RootBlock>, base: nat, seen: nat)
    requires seen <= |roots|
    ensures forall i :: 0 <= i < |PathOf(roots, base)| ==> PathOf(roots, base)[i] in roots
    ensures forall i :: 0 <= i < |PathOf(roots[..seen], base)| ==> PathOf(roots[..seen], base)[i] in roots
    ensures PathOf(roots[..seen], base) <= PathOf(roots, base)
  {
  }

  lemma ListStillProtocol(c: Chain, h: Hash, list: seq<Deposit>)
    requires ProtocolChain(c) && AllProtocol(c.genesisToken, list)
    ensures ProtocolChain(c.(lists := c.lists[h := list]))
  {
    hide ProtocolDeposit;
  }

  /** A shard that stores a new list stays valid and has the same ahead of it. */
  lemma ListStored(sys: System, b: ShardId, st: ShardState, h: Hash, list: seq<Deposit>)
    requires ValidShard(sys, b, st) && Unconfirmed(sys.roots, h) && h !in st.chain.lists
    requires AllProtocol(sys.genesisToken, list)
    ensures var c', path := st.chain.(lists := st.chain.lists[h := list]), PathOf(sys.roots, Base(st));
            && ValidShard(sys, b, st.(chain := c'))
            && Rest(c', path, Base(st), st.info) == Rest(st.chain, path, Base(st), st.info)
  {
    hide SK.IsShard, ValidInfo, Rest, Solvent, Unconfirmed, ProtocolChain, AllProtocol, PathOf, SameReadsAll;
    var c' := st.chain.(lists := st.chain.lists[h := list]);
    ListStillProtocol(st.chain, h, list);
    PathsAreRoots(sys.roots, Base(st), st.seen);
    NewListUnseen(sys.roots, st.chain, h, list, PathOf(sys.roots, Base(st)));
    NewListUnseen(sys.roots, st.chain, h, list, PathOf(sys.roots[..st.seen], Base(st)));
    RestAgrees(st.chain, c', PathOf(sys.roots, Base(st)), Base(st), st.info);
    RestAgrees(st.chain, c', PathOf(sys.roots[..st.seen], Base(st)), Base(st), st.info);
  }

  /** The effect of a broadcast on a shard that receives it. */
  lemma ReceivedShard(sys: System, x: Exec, b: ShardId)
    requires ValidSystem(sys) && CanExec(sys, x) && b in sys.shards && b != x.shard
    ensures var st, st' := sys.shards[b], AfterExec(sys, x, b, sys.shards[b]);
            && ValidShard(sys, b, st')
            && Rest(st'.chain, PathOf(sys.roots, Base(st)), Base(st), st.info)
               == Rest(st.chain, PathOf(sys.roots, Base(st)), Base(st), st.info)
  {
    ShardIsValid(sys, b);
    ShardFollows(sys, b);
    hide ValidSystem, ValidShard, ValidInfo, Rest, SentTo, Unconfirmed, Receives, AllProtocol, Broadcastable, PathOf, Conserves,
      IsRun, Follows, SK.IsShard, Solvent;
    if Receives(sys.geneses, x.shard, x.height, b) {
      SharesAreProtocol(sys.cfg, sys.genesisToken, x.sent, b);
      ListStored(sys, b, sys.shards[b], x.hash, SentTo(sys.cfg, x.sent, b));
    }
  }

  lemma SameReadsSelf(c: Chain, path: seq<RootBlock>)
    ensures SameReadsAll(c, c, path)
  {
  }

  /** The effect of an execution on its own shard. */
  lemma ExecutedShard(sys: System, x: Exec)
    requires ValidSystem(sys) && CanExec(sys, x)
    ensures var st, path := sys.shards[x.shard], PathOf(sys.roots, Base(sys.shards[x.shard]));
            && ValidShard(sys, x.shard, AfterExec(sys, x, x.shard, st))
            && ValidInfo(st.chain, path, Base(st), x.run.info)
            && Rest(st.chain, path, Base(st), st.info) == x.run.delivered + Rest(st.chain, path, Base(st), x.run.info)
  {
    hide SK.IsShard, SK.ValidConfig, ValidInfo, Rest, Solvent, Unconfirmed, RootsOk, ProtocolChain, AllProtocol,
      Broadcastable, Conserves, PathOf, Follows;
    ShardIsValid(sys, x.shard);
    var st := sys.shards[x.shard];
    PathsAreRoots(sys.roots, Base(st), x.height + 1);
    SameReadsSelf(st.chain, x.run.path);
    RunSeenLater(st.chain, st.chain, Base(st), st.info, x.run, PathOf(sys.roots, Base(st)));
  }

  /** The effect of an execution on one shard: valid again, and its holding moves by what the block moved. */
  lemma ExecShard(sys: System, x: Exec, b: ShardId, t: Token)
    requires ValidSystem(sys) && CanExec(sys, x) && b in sys.shards
    ensures var st' := AfterExec(sys, x, b, sys.shards[b]);
            && ValidShard(sys, b, st')
            && Holding(sys.roots, sys.genesisToken, st', t) == Holding(sys.roots, sys.genesisToken, sys.shards[b], t)
               + if b == x.shard then Subsidy(x.reward, t) - Money(x.sent, t) else 0
  {
    hide SK.IsShard, SK.ValidConfig, ValidInfo, Rest, Total, DepositsOf, SentTo, Unconfirmed, RootsOk, Receives, Solvent,
      ProtocolChain, AllProtocol, Broadcastable, PathOf, IsRun, Follows;
    ShardIsValid(sys, b);
    var st := sys.shards[b];
    if b != x.shard {
      ReceivedShard(sys, x, b);
    } else {
      ExecutedShard(sys, x);
      var rest := Rest(st.chain, PathOf(sys.roots, Base(st)), Base(st), x.run.info);
      DepositsConcat(x.run.delivered, rest);
      MoneyConcat(DepositsOf(x.run.delivered), DepositsOf(rest), t);
    }
  }

  lemma SharesHeld(sys: System, h: Hash, b: ShardId)
    requires ValidSystem(sys) && h in sys.pending && b in sys.shards
    ensures ShareStored(sys, sys.shards[b], h, sys.pending[h])
  {
    hide ValidShard, ShareStored, Addressed, Unconfirmed, RootsOk;
    assert ValidPending(sys, h, sys.pending[h]);
  }

  lemma ExecShares(sys: System, x: Exec, h: Hash, b: ShardId)
    requires ValidSystem(sys) && CanExec(sys, x) && h in ExecStep(sys, x).pending && b in sys.shards
    ensures ShareStored(sys, AfterExec(sys, x, b, sys.shards[b]), h, ExecStep(sys, x).pending[h])
  {
    hide SK.ValidConfig, SK.IsShard, SentTo, Addressed, Unconfirmed, RootsOk, Initialized, SK.IsNeighbor, Broadcastable,
      Follows, Solvent, ProtocolChain, ValidInfo, PathOf, GoodRun;
    ShardIsValid(sys, b);
    if h != x.hash {
      SharesHeld(sys, h, b);
    } else if !Receives(sys.geneses, x.shard, x.height, b) {
      NothingElsewhere(sys.cfg, sys.geneses, sys.shards.Keys, x.shard, x.height, x.sent, b);
    }
  }

  lemma ExecKeepsValid(sys: System, x: Exec)
    requires ValidSystem(sys) && CanExec(sys, x)
    ensures ValidSystem(ExecStep(sys, x))
  {
    hide ValidShard, SK.ValidConfig, SentTo, Addressed, Unconfirmed, AfterExec, ShareStored, RootsOk, Broadcastable,
      IsRun, Conserves;
    var sys' := ExecStep(sys, x);
    assert sys'.shards.Keys == sys.shards.Keys;
    forall b | b in sys'.shards
      ensures ValidShard(sys', b, sys'.shards[b])
    {
      ExecShard(sys, x, b, 0);
      SameShard(sys, sys', b, sys'.shards[b]);
    }
    forall h | h in sys'.pending
      ensures ValidPending(sys', h, sys'.pending[h])
    {
      if h != x.hash {
        assert ValidPending(sys, h, sys.pending[h]);
      } else {
        BroadcastIsAddressed(sys, x);
      }
      forall b | b in sys'.shards
        ensures ShareStored(sys', sys'.shards[b], h, sys'.pending[h])
      {
        ExecShares(sys, x, h, b);
        SameShare(sys, sys', sys'.shards[b], h, sys'.pending[h]);
      }
    }
  }

  lemma SameShard(sys: System, sys': System, b: ShardId, st: ShardState)
    requires sys'.cfg == sys.cfg && sys'.genesisToken == sys.genesisToken && sys'.geneses == sys.geneses
    requires sys'.roots == sys.roots && ValidShard(sys, b, st)
    ensures ValidShard(sys', b, st)
  {
  }

  lemma SameShare(sys: System, sys': System, st: ShardState, h: Hash, p: SentBlock)
    requires sys'.cfg == sys.cfg && sys'.geneses == sys.geneses && ShareStored(sys, st, h, p)
    ensures ShareStored(sys', st, h, p)
  {
  }

  lemma BroadcastIsAddressed(sys: System, x: Exec)
    requires Broadcastable(sys.cfg, sys.geneses, sys.shards.Keys, x.shard, x.height, x.sent)
    ensures Addressed(sys.cfg, sys.shards.Keys, x.sent)
  {
    hide Receives, Target;
  }

  lemma PendingAdded(pending: map<Hash, SentBlock>, h: Hash, p: SentBlock, t: Token)
    ensures Sum(PendingMoney(pending[h := p], t)) == Sum(PendingMoney(pending, t)) + Money(p.deposits, t)
                                                     - if h in pending then Money(pending[h].deposits, t) else 0
  {
    hide Money, Sum;
    var before := PendingMoney(pending, t);
    assert PendingMoney(pending[h := p], t) == before[h := Money(p.deposits, t)];
    SumUpdate(before, h, Money(p.deposits, t));
  }

  lemma ExecHoldings(sys: System, x: Exec, t: Token)
    requires ValidSystem(sys) && CanExec(sys, x) && ValidSystem(ExecStep(sys, x))
    ensures Sum(Holdings(ExecStep(sys, x), t)) == Sum(Holdings(sys, t)) + Subsidy(x.reward, t) - Money(x.sent, t)
  {
    hide ValidSystem, Holding, Money, Sum, Subsidy, AfterExec, ValidShard, SentTo, Broadcastable, IsRun, Conserves,
      Unconfirmed;
    var sys' := ExecStep(sys, x);
    var change: map<ShardId, int> :=
      map b | b in sys.shards :: if b == x.shard then Subsidy(x.reward, t) - Money(x.sent, t) else 0;
    forall b | b in sys.shards
      ensures Holdings(sys', t)[b] == Holdings(sys, t)[b] + change[b]
    {
      ExecShard(sys, x, b, t);
    }
    SumPointwise(Holdings(sys, t), change, Holdings(sys', t));
    SumSingle(change, x.shard);
  }

  /** Executing a block adds just its reward to what there is. */
  lemma ExecConserves(sys: System, x: Exec, t: Token)
    requires ValidSystem(sys) && CanExec(sys, x)
    ensures ValidSystem(ExecStep(sys, x))
    ensures Supply(ExecStep(sys, x), t) == Supply(sys, t) + Subsidy(x.reward, t)
  {
    ExecKeepsValid(sys, x);
    ExecHoldings(sys, x, t);
    hide ValidSystem, Holdings, PendingMoney, Money, Sum, Subsidy, AfterExec, IsRun, Conserves, Broadcastable;
    PendingAdded(sys.pending, x.hash, SentBlock(x.shard, x.prevRoot, x.height, x.sent), t);
  }

  // ---------- a root block is added ----------

  function WithRoot(c: Chain, rb: RootBlock): Chain {
    c.(roots := c.roots[rb.hash := rb])
  }

  /** A shard takes part from the root block at its genesis height on. */
  function AfterRoot(rb: RootBlock, st: ShardState): ShardState {
    if Base(st) <= rb.number then st.(chain := WithRoot(st.chain, rb)) else st
  }

  function ConfirmedHashes(headers: seq<MinorHeader>): set<Hash> {
    set i | 0 <= i < |headers| :: headers[i].hash
  }

  function RootStep(sys: System, rb: RootBlock): System {
    sys.(shards := map b | b in sys.shards :: AfterRoot(rb, sys.shards[b]),
         roots := sys.roots + [rb],
         pending := sys.pending - ConfirmedHashes(rb.body.headers))
  }

  predicate Distinct(headers: seq<MinorHeader>) {
    forall i, j :: 0 <= i < j < |headers| ==> headers[i].hash != headers[j].hash
  }

  /** The headers are those of executed blocks that no root block has confirmed. */
  predicate AllPending(pending: map<Hash, SentBlock>, headers: seq<MinorHeader>) {
    forall i :: 0 <= i < |headers| ==>
      && headers[i].hash in pending && pending[headers[i].hash].source == headers[i].branch
      && pending[headers[i].hash].prevRoot == headers[i].prevRoot
  }

  predicate NewRootHash(roots: seq<RootBlock>, h: Hash) {
    h != EMPTY_HASH && forall i :: 0 <= i < |roots| ==> roots[i].hash != h
  }

  /** A root block on top of the root chain that confirms executed blocks, each once. */
  predicate RootFits(roots: seq<RootBlock>, pending: map<Hash, SentBlock>, rb: RootBlock) {
    && rb.number == |roots| && (rb.number > 0 ==> rb.parent == roots[rb.number - 1].hash)
    && NewRootHash(roots, rb.hash) && Distinct(rb.body.headers) && AllPending(pending, rb.body.headers)
  }

  predicate CanAddRoot(sys: System, rb: RootBlock) {
    RootFits(sys.roots, sys.pending, rb)
  }

  lemma PendingOn(sys: System, rb: RootBlock, i: nat)
    requires ValidSystem(sys) && AllPending(sys.pending, rb.body.headers) && i < |rb.body.headers|
    ensures var h := rb.body.headers[i];
            && ValidPending(sys, h.hash, sys.pending[h.hash])
            && MinedOn(sys.roots, h)
  {
    hide RootsOk, ValidShard, Addressed, Unconfirmed, ShareStored;
    var h := rb.body.headers[i];
    assert ValidPending(sys, h.hash, sys.pending[h.hash]);
  }

  lemma RootsGrow(sys: System, rb: RootBlock)
    requires ValidSystem(sys) && CanAddRoot(sys, rb)
    ensures RootsOk(sys.roots + [rb])
  {
    hide ValidSystem, RootsOk, MinedOn, AllPending, Distinct, NewRootHash, Joined;
    SystemRoots(sys);
    forall j | 0 <= j < |rb.body.headers|
      ensures MinedOn(sys.roots, rb.body.headers[j])
    {
      PendingOn(sys, rb, j);
    }
    RootAppended(sys.roots, rb);
  }

  lemma RootAppended(roots: seq<RootBlock>, rb: RootBlock)
    requires RootsOk(roots) && rb.number == |roots| && (rb.number > 0 ==> rb.parent == roots[rb.number - 1].hash)
    requires NewRootHash(roots, rb.hash) && forall j :: 0 <= j < |rb.body.headers| ==> MinedOn(roots, rb.body.headers[j])
    ensures RootsOk(roots + [rb])
  {
    hide MinedOn, HeadersBelow, Joined;
    var roots' := roots + [rb];
    forall i | 0 <= i < |roots'|
      ensures roots'[i].hash != EMPTY_HASH && Joined(roots', i) && HeadersBelow(roots', i)
    {
      if i < |roots| {
        assert Joined(roots, i) && HeadersBelow(roots, i);
      }
      StaysJoined(roots, rb, i);
      HeadersStayBelow(roots, rb, i);
    }
  }

  lemma StaysJoined(roots: seq<RootBlock>, rb: RootBlock, i: nat)
    requires i <= |roots|
    ensures i < |roots| && Joined(roots, i) ==> Joined(roots + [rb], i)
    ensures i == |roots| && (i > 0 ==> rb.parent == roots[i - 1].hash) ==> Joined(roots + [rb], i)
  {
  }

  lemma HeadersStayBelow(roots: seq<RootBlock>, rb: RootBlock, i: nat)
    requires i <= |roots|
    ensures i < |roots| && HeadersBelow(roots, i) ==> HeadersBelow(roots + [rb], i)
    ensures i == |roots| && (forall j :: 0 <= j < |rb.body.headers| ==> MinedOn(roots, rb.body.headers[j])) ==>
              HeadersBelow(roots + [rb], i)
  {
    hide MinedOn;
    assert (roots + [rb])[..i] == roots[..i];
    assert roots[..|roots|] == roots;
  }

  lemma SystemRoots(sys: System)
    requires ValidSystem(sys)
    ensures SK.ValidConfig(sys.cfg) && RootsOk(sys.roots)
  {
  }

  lemma FollowsGrows(c: Chain, roots: seq<RootBlock>, rb: RootBlock)
    requires RootsOk(roots) && Follows(c, roots) && rb.number == |roots| && NewRootHash(roots, rb.hash)
    ensures Follows(if c.genesisRootHeight <= rb.number then WithRoot(c, rb) else c, roots + [rb])
  {
    var c', roots' := if c.genesisRootHeight <= rb.number then WithRoot(c, rb) else c, roots + [rb];
    forall h | h in c'.roots
      ensures var n := c'.roots[h].number;
              c'.genesisRootHeight <= n < |roots'| && roots'[n] == c'.roots[h] && roots'[n].hash == h
    {
      if h != rb.hash {
        assert h in c.roots;
      }
    }
  }

  /** Learning a new root block changes nothing ahead on a chain known before. */
  lemma NewRootUnseen(c: Chain, roots: seq<RootBlock>, rb: RootBlock, path: seq<RootBlock>)
    requires RootsOk(roots) && NewRootHash(roots, rb.hash) && forall i :: 0 <= i < |path| ==> path[i] in roots
    ensures SameReadsAll(c, WithRoot(c, rb), path)
  {
    forall i | 0 <= i < |path|
      ensures SameReads(c, WithRoot(c, rb), path[i])
    {
      var k :| 0 <= k < |roots| && roots[k] == path[i];
      assert HeadersBelow(roots, k);
      forall j | 0 <= j < |path[i].body.headers|
        ensures SameHeader(c, WithRoot(c, rb), path[i].body.headers[j])
      {
        assert MinedOn(roots[..k], roots[k].body.headers[j]);
      }
    }
  }

  // ---------- what a root block brings to one shard ----------

  /** What the confirmed blocks carry, to everyone and to one shard. */
  ghost function HeaderMoney(pending: map<Hash, SentBlock>, headers: seq<MinorHeader>, t: Token): int
    requires AllPending(pending, headers)
  {
    if headers == [] then 0
    else Money(pending[headers[0].hash].deposits, t) + HeaderMoney(pending, headers[1..], t)
  }

  ghost function HeaderShare(cfg: SK.Config, pending: map<Hash, SentBlock>, headers: seq<MinorHeader>, b: ShardId, t: Token): int
    requires AllPending(pending, headers)
  {
    if headers == [] then 0
    else Money(SentTo(cfg, pending[headers[0].hash].deposits, b), t) + HeaderShare(cfg, pending, headers[1..], b, t)
  }

  /** The part of a shard's share that is in lists its cursor passes over in rb. */
  ghost function HeaderLoss(sys: System, rb: RootBlock, headers: seq<MinorHeader>, b: ShardId, t: Token): nat
    requires b in sys.shards && AllPending(sys.pending, headers)
  {
    if headers == [] then 0
    else (if Skipped(sys.shards[b].chain, rb, headers[0])
          then Money(SentTo(sys.cfg, sys.pending[headers[0].hash].deposits, b), t) else 0)
         + HeaderLoss(sys, rb, headers[1..], b, t)
  }

  /** What of a block's deposits the cursor of a shard will meet in rb. */
  ghost function Arriving(sys: System, rb: RootBlock, h: MinorHeader, b: ShardId): seq<Deposit>
    requires b in sys.shards && h.hash in sys.pending
  {
    if Skipped(sys.shards[b].chain, rb, h) then [] else SentTo(sys.cfg, sys.pending[h.hash].deposits, b)
  }

  lemma {:induction false} ListDeposits(height: nat, m: nat, list: seq<Deposit>, d: nat, after: seq<Event>)
    requires d <= |list|
    ensures DepositsOf(ListThen(height, m, list, d, after)) == list[d..] + DepositsOf(after)
    decreases |list| - d
  {
    if d < |list| {
      ListDeposits(height, m, list, d + 1, after);
      var e := Yield(CursorInfo(height, m, d), list[d]);
      DepositsConcat([e], ListThen(height, m, list, d + 1, after));
      assert DepositsOf([e]) == [list[d]] by { assert [e][..0] == []; }
      assert list[d..] == [list[d]] + list[d + 1..];
    }
  }

  lemma FaultCarriesNothing(after: seq<Event>)
    ensures DepositsOf([Fault] + after) == DepositsOf(after)
  {
    DepositsConcat([Fault], after);
    assert [Fault][..0] == [];
    assert DepositsOf([Fault]) == [];
    assert [] + DepositsOf(after) == DepositsOf(after);
  }

  /** What a shard knows of a pending block when its header comes up. */
  lemma HeaderKnown(sys: System, rb: RootBlock, b: ShardId, i: nat)
    requires ValidSystem(sys) && CanAddRoot(sys, rb) && b in sys.shards && i < |rb.body.headers|
    ensures var h, c := rb.body.headers[i], WithRoot(sys.shards[b].chain, rb);
            var p := sys.pending[h.hash];
            && (h.prevRoot in c.roots <==> Base(sys.shards[b]) <= p.height)
            && (h.prevRoot in c.roots ==> c.roots[h.prevRoot].number == p.height)
            && p.height < rb.number
  {
    hide RootsOk, ValidShard, Addressed, Unconfirmed, ShareStored, MinedOn, Distinct, SK.ValidConfig;
    PendingOn(sys, rb, i);
    SystemRoots(sys);
    var p := sys.pending[rb.body.headers[i].hash];
    assert Follows(sys.shards[b].chain, sys.roots) by { ShardIsValid(sys, b); ShardFollows(sys, b); }
    KnownFromBase(sys.shards[b].chain, sys.roots, p.height);
  }

  lemma ShardFollows(sys: System, b: ShardId)
    requires b in sys.shards && ValidShard(sys, b, sys.shards[b])
    ensures var st := sys.shards[b];
            && Follows(st.chain, sys.roots) && st.chain.branch == b && st.chain.geneses == sys.geneses
            && b in sys.geneses && Base(st) == sys.geneses[b] && SK.IsShard(sys.cfg, b.branch)
            && st.chain.genesisToken == sys.genesisToken
            && ValidInfo(st.chain, PathOf(sys.roots, Base(st)), Base(st), st.info)
  {
  }

  /** A neighbour's block a shard reads was broadcast to it exactly if it was mined after the shard's genesis. */
  lemma BroadcastReached(sys: System, b: ShardId, source: ShardId, height: nat, later: nat)
    requires ValidSystem(sys) && b in sys.shards && b != source
    requires height <= later && Neighbor(sys.shards[b].chain, source, later)
    ensures Receives(sys.geneses, source, height, b) <==> Base(sys.shards[b]) < height
  {
    hide ValidSystem, SK.IsNeighbor;
    ShardIsValid(sys, b);
    ShardFollows(sys, b);
    hide ValidShard;
    NeighborsAreOnlyLost(sys.shards[b].chain, source, height, later);
    SK.NeighborSymmetric(source.branch, b.branch, |Initialized(sys.geneses, height)|);
  }

  /** The deposits a shard reads from one header. */
  lemma HeaderInflow(sys: System, rb: RootBlock, b: ShardId, m: nat, after: seq<Event>)
    requires ValidSystem(sys) && CanAddRoot(sys, rb) && b in sys.shards && 1 <= m <= |rb.body.headers|
    ensures DepositsOf(HeaderThen(WithRoot(sys.shards[b].chain, rb), rb, m, after))
            == Arriving(sys, rb, rb.body.headers[m - 1], b) + DepositsOf(after)
  {
    hide ValidSystem, CanAddRoot, SentTo, DepositsOf, ListThen, Neighbor, Receives;
    var h, st := rb.body.headers[m - 1], sys.shards[b];
    var c := WithRoot(st.chain, rb);
    SameNeighbors(st.chain, c, h.branch, rb.number);
    ShardIsValid(sys, b);
    ShardFollows(sys, b);
    hide ValidShard;
    HeaderKnown(sys, rb, b, m - 1);
    assert [] + DepositsOf(after) == DepositsOf(after);
    if !Skipped(c, rb, h) {
      HeaderPending(sys, rb, m - 1);
      var p := sys.pending[h.hash];
      SharesHeld(sys, h.hash, b);
      BroadcastReached(sys, b, h.branch, p.height, rb.number);
      FaultCarriesNothing(after);
      if h.hash in c.lists {
        ListDeposits(rb.number, m, c.lists[h.hash], 0, after);
        assert c.lists[h.hash][0..] == c.lists[h.hash];
      }
    }
  }

  lemma HeaderPending(sys: System, rb: RootBlock, i: nat)
    requires CanAddRoot(sys, rb) && i < |rb.body.headers|
    ensures var h := rb.body.headers[i]; h.hash in sys.pending && sys.pending[h.hash].source == h.branch
  {
  }

  lemma NoMoney(t: Token)
    ensures DepositsOf([]) == [] && Money([], t) == 0
  {
  }

  /** The deposits a shard reads from the headers of a root block are its shares of the confirmed blocks,
      less what it passes over. */
  lemma {:induction false} HeadersInflow(sys: System, rb: RootBlock, b: ShardId, m: nat, t: Token)
    requires ValidSystem(sys) && CanAddRoot(sys, rb) && b in sys.shards && 1 <= m <= |rb.body.headers| + 1
    ensures AllPending(sys.pending, rb.body.headers[m - 1..])
    ensures Money(DepositsOf(HeadersThen(WithRoot(sys.shards[b].chain, rb), rb, m, [])), t)
            == HeaderShare(sys.cfg, sys.pending, rb.body.headers[m - 1..], b, t)
               - HeaderLoss(sys, rb, rb.body.headers[m - 1..], b, t)
    decreases |rb.body.headers| - m
  {
    hide ValidSystem, WithRoot, HeaderThen, SentTo, DepositsOf, Money, Skipped;
    var c := WithRoot(sys.shards[b].chain, rb);
    var headers := rb.body.headers[m - 1..];
    NoMoney(t);
    if m <= |rb.body.headers| {
      HeadersInflow(sys, rb, b, m + 1, t);
      assert headers[1..] == rb.body.headers[m..];
      var h := rb.body.headers[m - 1];
      assert headers[0] == h;
      HeaderInflow(sys, rb, b, m, HeadersThen(c, rb, m + 1, []));
      MoneyConcat(Arriving(sys, rb, h, b), DepositsOf(HeadersThen(c, rb, m + 1, [])), t);
    }
  }

  /** The root reward as one shard sees it: all of it if the shard owns the coinbase's key, else none. */
  ghost function RewardShare(sys: System, rb: RootBlock, b: ShardId, t: Token): int
    requires b in sys.shards
  {
    if t == sys.genesisToken && Owner(sys.cfg, rb.body.coinbaseKey) == Some(b) && Base(sys.shards[b]) <= rb.number
    then rb.body.coinbaseAmount else 0
  }

  lemma CoinbaseInflow(sys: System, rb: RootBlock, b: ShardId, c: Chain, t: Token)
    requires SK.ValidConfig(sys.cfg) && SK.IsShard(sys.cfg, b.branch) && b in sys.shards
    requires c.branch == b && c.genesisToken == sys.genesisToken && Base(sys.shards[b]) <= rb.number
    ensures Carried(CoinbaseDeposit(c, rb), t) == RewardShare(sys, rb, b, t)
  {
    SK.LookupIsPartition(sys.cfg, rb.body.coinbaseKey, b.branch);
    hide SK.IsInBranch, SK.FullShardIdByFullShardKey, SK.IsShard, SK.ValidConfig;
  }

  lemma RootInflow(sys: System, rb: RootBlock, b: ShardId, t: Token)
    requires ValidSystem(sys) && CanAddRoot(sys, rb) && b in sys.shards && Base(sys.shards[b]) <= rb.number
    ensures Money(DepositsOf(Stream(WithRoot(sys.shards[b].chain, rb), [rb])), t)
            == RewardShare(sys, rb, b, t) + HeaderShare(sys.cfg, sys.pending, rb.body.headers, b, t)
               - HeaderLoss(sys, rb, rb.body.headers, b, t)
  {
    hide ValidSystem, CanAddRoot, HeadersThen, Carried, RewardShare, HeaderShare, HeaderLoss, CoinbaseDeposit, SK.IsShard,
      SK.ValidConfig, ValidInfo, PathOf, Follows, AllPending, Money, DepositsOf;
    var c := WithRoot(sys.shards[b].chain, rb);
    ShardIsValid(sys, b);
    ShardFollows(sys, b);
    SystemRoots(sys);
    CoinbaseInflow(sys, rb, b, c, t);
    HeadersInflow(sys, rb, b, 1, t);
    assert rb.body.headers[0..] == rb.body.headers;
    CoinbaseFirst(c, rb, t);
  }

  lemma CoinbaseFirst(c: Chain, rb: RootBlock, t: Token)
    ensures Money(DepositsOf(Stream(c, [rb])), t)
            == Carried(CoinbaseDeposit(c, rb), t) + Money(DepositsOf(HeadersThen(c, rb, 1, [])), t)
  {
    hide HeadersThen, Carried, CoinbaseDeposit;
    var e, tail := CoinbaseEvent(c, rb), HeadersThen(c, rb, 1, []);
    assert Stream(c, [rb]) == [e] + tail;
    DepositsConcat([e], tail);
    assert DepositsOf([e]) == [e.deposit] by { assert [e][..0] == []; }
    MoneyConcat([e.deposit], DepositsOf(tail), t);
    assert [e.deposit][1..] == [];
  }

  // ---------- the effect of a root block ----------

  /** The effect of a root block on a shard that takes part: its holding grows by its shares, less the loss. */
  lemma LearningShard(sys: System, rb: RootBlock, b: ShardId, t: Token)
    requires ValidSystem(sys) && CanAddRoot(sys, rb) && b in sys.shards && Base(sys.shards[b]) <= rb.number
    ensures var st, c' := sys.shards[b], WithRoot(sys.shards[b].chain, rb);
            var path, path' := PathOf(sys.roots, Base(st)), PathOf(sys.roots + [rb], Base(st));
            && ValidInfo(c', PathOf(sys.roots[..st.seen], Base(st)), Base(st), st.info)
            && ValidInfo(c', path', Base(st), st.info)
            && Money(DepositsOf(Rest(c', path', Base(st), st.info)), t)
               == Money(DepositsOf(Rest(st.chain, path, Base(st), st.info)), t)
                  + Money(DepositsOf(Stream(c', [rb])), t)
  {
    hide ValidSystem, SK.IsShard, ValidInfo, Rest, DepositsOf, Stream, Money, RootsOk, Follows, Solvent, ProtocolChain,
      SameReadsAll, AllPending, Distinct, NewRootHash;
    ShardIsValid(sys, b);
    SystemRoots(sys);
    var st := sys.shards[b];
    var c', path, seen := WithRoot(st.chain, rb), PathOf(sys.roots, Base(st)), PathOf(sys.roots[..st.seen], Base(st));
    PathsAreRoots(sys.roots, Base(st), st.seen);
    NewRootUnseen(st.chain, sys.roots, rb, path);
    NewRootUnseen(st.chain, sys.roots, rb, seen);
    RestAgrees(st.chain, c', path, Base(st), st.info);
    RestAgrees(st.chain, c', seen, Base(st), st.info);
    PathOfAppended(sys.roots, rb, Base(st));
    Resume(c', path, [rb], Base(st), st.info);
    DepositsConcat(Rest(c', path, Base(st), st.info), Stream(c', [rb]));
    MoneyConcat(DepositsOf(Rest(c', path, Base(st), st.info)), DepositsOf(Stream(c', [rb])), t);
  }

  lemma PathOfAppended(roots: seq<RootBlock>, rb: RootBlock, base: nat)
    ensures PathOf(roots + [rb], base) == if base <= |roots| then PathOf(roots, base) + [rb] else PathOf(roots, base)
  {
  }

  /** A shard that does not take part yet has no share in a root block. */
  lemma {:induction false} NothingForLater(sys: System, rb: RootBlock, b: ShardId, m: nat, t: Token)
    requires ValidSystem(sys) && CanAddRoot(sys, rb) && b in sys.shards && Base(sys.shards[b]) > rb.number
    requires m <= |rb.body.headers|
    ensures AllPending(sys.pending, rb.body.headers[m..])
    ensures HeaderShare(sys.cfg, sys.pending, rb.body.headers[m..], b, t) == 0
    ensures HeaderLoss(sys, rb, rb.body.headers[m..], b, t) == 0
    decreases |rb.body.headers| - m
  {
    hide ValidSystem, SentTo, Money, Skipped;
    var headers := rb.body.headers[m..];
    NoMoney(t);
    if m < |rb.body.headers| {
      var h := rb.body.headers[m];
      NothingForLater(sys, rb, b, m + 1, t);
      assert headers[0] == h && headers[1..] == rb.body.headers[m + 1..];
      NoShareYet(sys, rb, b, m);
    }
  }

  lemma NoShareYet(sys: System, rb: RootBlock, b: ShardId, i: nat)
    requires ValidSystem(sys) && CanAddRoot(sys, rb) && b in sys.shards && Base(sys.shards[b]) > rb.number
    requires i < |rb.body.headers|
    ensures SentTo(sys.cfg, sys.pending[rb.body.headers[i].hash].deposits, b) == []
  {
    hide ValidSystem, SentTo, SK.IsNeighbor, ValidShard, RootsOk, Addressed, Unconfirmed, Distinct, MinedOn, ValidInfo, Follows;
    ShardIsValid(sys, b);
    ShardFollows(sys, b);
    PendingOn(sys, rb, i);
    SharesHeld(sys, rb.body.headers[i].hash, b);
  }

  /** The effect of a root block on one shard. */
  lemma RootShard(sys: System, rb: RootBlock, b: ShardId, t: Token)
    requires ValidSystem(sys) && CanAddRoot(sys, rb) && b in sys.shards
    ensures var st' := AfterRoot(rb, sys.shards[b]);
            && ValidShard(RootStep(sys, rb), b, st')
            && Holding(sys.roots + [rb], sys.genesisToken, st', t)
               == Holding(sys.roots, sys.genesisToken, sys.shards[b], t)
                  + RewardShare(sys, rb, b, t) + HeaderShare(sys.cfg, sys.pending, rb.body.headers, b, t)
                  - HeaderLoss(sys, rb, rb.body.headers, b, t)
  {
    hide ValidSystem, SK.IsShard, ValidInfo, Rest, Total, DepositsOf, Stream, Money, RewardShare, HeaderShare, HeaderLoss,
      Follows, RootsOk, Solvent, PathOf, AllPending, Distinct, NewRootHash, ConfirmedHashes;
    var st := sys.shards[b];
    ShardIsValid(sys, b);
    SystemRoots(sys);
    FollowsGrows(st.chain, sys.roots, rb);
    assert (sys.roots + [rb])[..st.seen] == sys.roots[..st.seen];
    if Base(st) <= rb.number {
      RootInflow(sys, rb, b, t);
      LearningShard(sys, rb, b, t);
    } else {
      PathOfAppended(sys.roots, rb, Base(st));
      NothingForLater(sys, rb, b, 0, t);
      assert rb.body.headers[0..] == rb.body.headers;
      NoRewardYet(sys, rb, b, t);
    }
  }

  lemma NoRewardYet(sys: System, rb: RootBlock, b: ShardId, t: Token)
    requires b in sys.shards && Base(sys.shards[b]) > rb.number
    ensures RewardShare(sys, rb, b, t) == 0
  {
  }

  ghost function HeaderShares(sys: System, headers: seq<MinorHeader>, t: Token): map<ShardId, int>
    requires AllPending(sys.pending, headers)
  {
    map b | b in sys.shards.Keys :: HeaderShare(sys.cfg, sys.pending, headers, b, t)
  }

  lemma {:induction false} HeaderSharesAddUp(sys: System, headers: seq<MinorHeader>, t: Token)
    requires ValidSystem(sys) && AllPending(sys.pending, headers)
    ensures Sum(HeaderShares(sys, headers, t)) == HeaderMoney(sys.pending, headers, t)
  {
    hide ValidShard, RootsOk, ShareStored, Unconfirmed, SK.ValidConfig;
    if headers == [] {
      SumZero(HeaderShares(sys, headers, t));
    } else {
      var first := sys.pending[headers[0].hash].deposits;
      assert ValidPending(sys, headers[0].hash, sys.pending[headers[0].hash]);
      hide ValidSystem, Sum, Addressed, SentTo, Money;
      HeaderSharesAddUp(sys, headers[1..], t);
      SharesAddUp(sys.cfg, sys.shards.Keys, first, t);
      SumPointwise(Shares(sys.cfg, sys.shards.Keys, first, t), HeaderShares(sys, headers[1..], t), HeaderShares(sys, headers, t));
    }
  }

  lemma {:induction false} HeaderMoneyAgrees(p: map<Hash, SentBlock>, q: map<Hash, SentBlock>, headers: seq<MinorHeader>, t: Token)
    requires AllPending(p, headers) && AllPending(q, headers)
    requires forall i :: 0 <= i < |headers| ==> p[headers[i].hash] == q[headers[i].hash]
    ensures HeaderMoney(p, headers, t) == HeaderMoney(q, headers, t)
  {
    hide Money;
    if headers != [] {
      HeaderMoneyAgrees(p, q, headers[1..], t);
    }
  }

  lemma PendingDropped(p: map<Hash, SentBlock>, h: Hash, t: Token)
    requires h in p
    ensures Sum(PendingMoney(p - {h}, t)) == Sum(PendingMoney(p, t)) - Money(p[h].deposits, t)
  {
    hide Money, Sum;
    SumRemove(PendingMoney(p, t), h);
    assert PendingMoney(p - {h}, t) == PendingMoney(p, t) - {h};
  }

  /** Confirming distinct pending blocks takes exactly their money off the pending total. */
  lemma {:induction false} PendingRemoved(p: map<Hash, SentBlock>, headers: seq<MinorHeader>, t: Token)
    requires AllPending(p, headers) && Distinct(headers)
    ensures Sum(PendingMoney(p - ConfirmedHashes(headers), t)) == Sum(PendingMoney(p, t)) - HeaderMoney(p, headers, t)
    decreases |headers|
  {
    if headers == [] {
      assert p - ConfirmedHashes(headers) == p;
    } else {
      var h, rest := headers[0].hash, headers[1..];
      var q := p - {h};
      assert forall i :: 0 <= i < |rest| ==> rest[i] == headers[i + 1] && rest[i].hash != h;
      ConfirmedSplit(headers);
      assert q - ConfirmedHashes(rest) == p - ConfirmedHashes(headers);
      hide Sum, Money, ConfirmedHashes, PendingMoney;
      PendingRemoved(q, rest, t);
      HeaderMoneyAgrees(p, q, rest, t);
      PendingDropped(p, h, t);
    }
  }

  lemma ConfirmedSplit(headers: seq<MinorHeader>)
    requires headers != []
    ensures ConfirmedHashes(headers) == {headers[0].hash} + ConfirmedHashes(headers[1..])
  {
    forall h | h in ConfirmedHashes(headers) ensures h in {headers[0].hash} + ConfirmedHashes(headers[1..]) {
      var i :| 0 <= i < |headers| && headers[i].hash == h;
      if i > 0 {
        assert headers[1..][i - 1].hash == h;
      }
    }
    forall h | h in ConfirmedHashes(headers[1..]) ensures h in ConfirmedHashes(headers) {
      var i :| 0 <= i < |headers[1..]| && headers[1..][i].hash == h;
      assert headers[i + 1].hash == h;
    }
  }

  lemma NotMentioned(roots: seq<RootBlock>, rb: RootBlock, h: Hash)
    requires Unconfirmed(roots, h) && h !in ConfirmedHashes(rb.body.headers)
    ensures Unconfirmed(roots + [rb], h)
  {
  }

  lemma RootKeepsPending(sys: System, rb: RootBlock, h: Hash)
    requires ValidSystem(sys) && h in RootStep(sys, rb).pending
    ensures ValidPending(RootStep(sys, rb), h, RootStep(sys, rb).pending[h])
  {
    hide SK.ValidConfig, SentTo, Addressed, ValidShard, RootsOk, Receives, Unconfirmed, ConfirmedHashes;
    var sys', p := RootStep(sys, rb), sys.pending[h];
    assert sys'.shards.Keys == sys.shards.Keys;
    assert ValidPending(sys, h, p);
    NotMentioned(sys.roots, rb, h);
    forall b | b in sys'.shards
      ensures ShareStored(sys', sys'.shards[b], h, p)
    {
      assert ShareStored(sys, sys.shards[b], h, p);
    }
  }

  lemma RootKeepsValid(sys: System, rb: RootBlock)
    requires ValidSystem(sys) && CanAddRoot(sys, rb)
    ensures ValidSystem(RootStep(sys, rb))
  {
    hide SK.ValidConfig, ValidShard, ValidPending, RootsOk, AllPending, Distinct, NewRootHash, AfterRoot;
    var sys' := RootStep(sys, rb);
    RootsGrow(sys, rb);
    forall b | b in sys'.shards
      ensures ValidShard(sys', b, sys'.shards[b])
    {
      RootShard(sys, rb, b, 0);
    }
    forall h | h in sys'.pending
      ensures ValidPending(sys', h, sys'.pending[h])
    {
      RootKeepsPending(sys, rb, h);
    }
  }

  /** A root block adds just its reward, and only if a shard that takes part owns its coinbase key. */
  ghost function RootReward(sys: System, rb: RootBlock, t: Token): int {
    var owner := Owner(sys.cfg, rb.body.coinbaseKey);
    if t == sys.genesisToken && owner.Some? && owner.value in sys.shards && Base(sys.shards[owner.value]) <= rb.number
    then rb.body.coinbaseAmount else 0
  }

  ghost function Losses(sys: System, rb: RootBlock, t: Token): map<ShardId, int>
    requires AllPending(sys.pending, rb.body.headers)
  {
    map b | b in sys.shards.Keys :: HeaderLoss(sys, rb, rb.body.headers, b, t)
  }

  /** What a root block loses: the deposits in lists that their shards' cursors pass over in it. */
  ghost function Lost(sys: System, rb: RootBlock, t: Token): int
    requires AllPending(sys.pending, rb.body.headers)
  {
    Sum(Losses(sys, rb, t))
  }

  lemma RootHoldings(sys: System, rb: RootBlock, t: Token)
    requires ValidSystem(sys) && CanAddRoot(sys, rb) && ValidSystem(RootStep(sys, rb))
    ensures Sum(Holdings(RootStep(sys, rb), t))
            == Sum(Holdings(sys, t)) + RootReward(sys, rb, t) + HeaderMoney(sys.pending, rb.body.headers, t) - Lost(sys, rb, t)
  {
    hide ValidSystem, Holding, Sum, HeaderShare, HeaderLoss, HeaderMoney, Distinct, ConfirmedHashes, AfterRoot, NewRootHash,
      RewardShare, RootReward, ValidShard;
    var sys' := RootStep(sys, rb);
    var rewards: map<ShardId, int> := map b | b in sys.shards.Keys :: RewardShare(sys, rb, b, t);
    var shares, losses := HeaderShares(sys, rb.body.headers, t), Losses(sys, rb, t);
    forall b | b in sys.shards
      ensures Holdings(sys', t)[b] == Holdings(sys, t)[b] + rewards[b] + shares[b] - losses[b]
    {
      RootShard(sys, rb, b, t);
    }
    SumChanges(Holdings(sys, t), rewards, shares, losses, Holdings(sys', t));
    HeaderSharesAddUp(sys, rb.body.headers, t);
    RewardsAddUp(sys, rb, t, rewards);
  }

  lemma RewardsAddUp(sys: System, rb: RootBlock, t: Token, rewards: map<ShardId, int>)
    requires rewards.Keys == sys.shards.Keys && forall b :: b in sys.shards ==> rewards[b] == RewardShare(sys, rb, b, t)
    ensures Sum(rewards) == RootReward(sys, rb, t)
  {
    hide Sum, Owner;
    var owner := Owner(sys.cfg, rb.body.coinbaseKey);
    if owner.Some? && owner.value in sys.shards {
      SumSingle(rewards, owner.value);
    } else {
      SumZero(rewards);
    }
  }

  /**
   * Adding a root block moves confirmed deposits on and adds the root reward to what there is, less what
   * shards pass over; so nothing but the reward is added or lost exactly if no passed over list holds money.
   */
  lemma RootConserves(sys: System, rb: RootBlock, t: Token)
    requires ValidSystem(sys) && CanAddRoot(sys, rb)
    ensures ValidSystem(RootStep(sys, rb))
    ensures Supply(RootStep(sys, rb), t) == Supply(sys, t) + RootReward(sys, rb, t) - Lost(sys, rb, t)
    ensures Lost(sys, rb, t) >= 0
    ensures Supply(RootStep(sys, rb), t) == Supply(sys, t) + RootReward(sys, rb, t) <==> NothingPassedOver(sys, rb, t)
  {
    hide ValidSystem, Holdings, PendingMoney, Sum, HeaderMoney, RootReward, Losses, NothingPassedOver, NewRootHash;
    RootKeepsValid(sys, rb);
    RootHoldings(sys, rb, t);
    PendingRemoved(sys.pending, rb.body.headers, t);
    LostIffPassedOver(sys, rb, t);
  }

  // ---------- when something is lost ----------

  /** No shard is sent money in a list that its cursor passes over in rb. */
  ghost predicate NothingPassedOver(sys: System, rb: RootBlock, t: Token)
    requires AllPending(sys.pending, rb.body.headers)
  {
    forall b, i :: b in sys.shards && 0 <= i < |rb.body.headers| ==> LosesNothing(sys, rb, b, rb.body.headers[i], t)
  }

  ghost predicate LosesNothing(sys: System, rb: RootBlock, b: ShardId, h: MinorHeader, t: Token)
    requires b in sys.shards && h.hash in sys.pending
  {
    Skipped(sys.shards[b].chain, rb, h) ==> Money(SentTo(sys.cfg, sys.pending[h.hash].deposits, b), t) == 0
  }

  lemma {:induction false} LossIffPassedOver(sys: System, rb: RootBlock, headers: seq<MinorHeader>, b: ShardId, t: Token)
    requires b in sys.shards && AllPending(sys.pending, headers)
    ensures HeaderLoss(sys, rb, headers, b, t) == 0 <==>
            forall i :: 0 <= i < |headers| ==> LosesNothing(sys, rb, b, headers[i], t)
  {
    hide Skipped, Money, SentTo;
    if headers != [] {
      var rest := headers[1..];
      LossIffPassedOver(sys, rb, rest, b, t);
      assert forall i :: 0 <= i < |rest| ==> rest[i] == headers[i + 1];
      assert forall i :: 0 < i < |headers| ==> headers[i] == rest[i - 1];
    }
  }

  lemma SumPositive(m: map<ShardId, int>, b: ShardId)
    requires b in m && m[b] > 0 && forall k :: k in m ==> m[k] >= 0
    ensures Sum(m) > 0
  {
    SumRemove(m, b);
    SumNotNegative(m - {b});
  }

  lemma LostIffPassedOver(sys: System, rb: RootBlock, t: Token)
    requires AllPending(sys.pending, rb.body.headers)
    ensures Lost(sys, rb, t) >= 0
    ensures Lost(sys, rb, t) == 0 <==> NothingPassedOver(sys, rb, t)
  {
    hide HeaderLoss, LosesNothing, Sum;
    var losses := Losses(sys, rb, t);
    SumNotNegative(losses);
    forall b | b in sys.shards
      ensures losses[b] == 0 <==> forall i :: 0 <= i < |rb.body.headers| ==> LosesNothing(sys, rb, b, rb.body.headers[i], t)
    {
      LossIffPassedOver(sys, rb, rb.body.headers, b, t);
    }
    if b :| b in sys.shards && losses[b] != 0 {
      SumPositive(losses, b);
    } else {
      SumZero(losses);
    }
  }

  /** Every shard a confirmed block was broadcast to is still a neighbour at the confirming root block. */
  ghost predicate NoNeighborLost(sys: System, rb: RootBlock)
    requires AllPending(sys.pending, rb.body.headers)
  {
    forall b, i :: b in sys.shards && 0 <= i < |rb.body.headers| ==> StillReads(sys, rb, b, rb.body.headers[i])
  }

  ghost predicate StillReads(sys: System, rb: RootBlock, b: ShardId, h: MinorHeader)
    requires b in sys.shards && h.hash in sys.pending
  {
    Receives(sys.geneses, h.branch, sys.pending[h.hash].height, b) ==> Neighbor(sys.shards[b].chain, h.branch, rb.number)
  }

  lemma ReadsItsShare(sys: System, rb: RootBlock, b: ShardId, i: nat, t: Token)
    requires ValidSystem(sys) && CanAddRoot(sys, rb) && b in sys.shards && i < |rb.body.headers|
    requires StillReads(sys, rb, b, rb.body.headers[i])
    ensures LosesNothing(sys, rb, b, rb.body.headers[i], t)
  {
    hide ValidSystem, SentTo, Initialized, SK.IsNeighbor, NewRootHash, Distinct, ValidInfo, Follows, SK.IsShard;
    ShardIsValid(sys, b);
    ShardFollows(sys, b);
    hide ValidShard;
    SharesHeld(sys, rb.body.headers[i].hash, b);
    NoMoney(t);
  }

  /** A root block loses nothing if no neighbour is lost between the root blocks its blocks were mined on and it. */
  lemma NothingLost(sys: System, rb: RootBlock, t: Token)
    requires ValidSystem(sys) && CanAddRoot(sys, rb) && NoNeighborLost(sys, rb)
    ensures Lost(sys, rb, t) == 0
  {
    hide ValidSystem, StillReads, LosesNothing, Losses, Sum, NewRootHash, Distinct;
    forall b, i | b in sys.shards && 0 <= i < |rb.body.headers|
      ensures LosesNothing(sys, rb, b, rb.body.headers[i], t)
    {
      assert StillReads(sys, rb, b, rb.body.headers[i]);
      ReadsItsShare(sys, rb, b, i, t);
    }
    LostIffPassedOver(sys, rb, t);
  }

  /** The 33rd shard is not initialized between the root block a confirmed block was mined on and this one. */
  predicate NoThirtyThird(sys: System, rb: RootBlock)
    requires AllPending(sys.pending, rb.body.headers)
  {
    || |Initialized(sys.geneses, rb.number)| <= 32
    || forall i :: 0 <= i < |rb.body.headers| ==> |Initialized(sys.geneses, sys.pending[rb.body.headers[i].hash].height)| > 32
  }

  /** Neighbours are lost only where the 33rd shard is initialized. */
  lemma NothingLostBySize(sys: System, rb: RootBlock, t: Token)
    requires ValidSystem(sys) && CanAddRoot(sys, rb) && NoThirtyThird(sys, rb)
    ensures Lost(sys, rb, t) == 0
  {
    hide ValidSystem, Lost, NewRootHash, Distinct, Initialized;
    forall b, i | b in sys.shards && 0 <= i < |rb.body.headers|
      ensures StillReads(sys, rb, b, rb.body.headers[i])
    {
      ShardIsValid(sys, b);
      ShardFollows(sys, b);
      hide ValidShard, SK.High, SK.ShardID, SK.IsP2, SK.Distance;
      SK.NeighborSymmetric(rb.body.headers[i].branch.branch, b.branch, |Initialized(sys.geneses, rb.number)|);
    }
    NothingLost(sys, rb, t);
  }

  /** Every shard that takes part accepts the root block: it holds just the lists AddRootBlock asks for. */
  lemma RootAccepted(sys: System, rb: RootBlock, b: ShardId, i: nat)
    requires ValidSystem(sys) && CanAddRoot(sys, rb) && b in sys.shards && i < |rb.body.headers|
    requires rb.body.headers[i].branch != b
    ensures AcceptedOnAdd(sys.shards[b].chain, rb.body.headers[i])
  {
    hide ValidSystem, NewRootHash, Distinct, SentTo, SK.IsNeighbor, ValidInfo, SK.IsShard, Addressed, Unconfirmed,
      SK.ValidConfig, RootsOk, Follows, MinedOn;
    ShardIsValid(sys, b);
    ShardFollows(sys, b);
    SystemRoots(sys);
    PendingOn(sys, rb, i);
    hide ValidShard;
    var h := rb.body.headers[i];
    SharesHeld(sys, h.hash, b);
    KnownFromBase(sys.shards[b].chain, sys.roots, sys.pending[h.hash].height);
    SK.NeighborSymmetric(h.branch.branch, b.branch, |Initialized(sys.geneses, sys.pending[h.hash].height)|);
  }

  // ---------- any interleaving ----------

  datatype SystemStep = RunBlockStep(x: Exec) | AddRootStep(rb: RootBlock)

  ghost predicate Can(sys: System, step: SystemStep)
    requires ValidSystem(sys)
  {
    match step
    case RunBlockStep(x) => CanExec(sys, x)
    case AddRootStep(rb) => CanAddRoot(sys, rb)
  }

  function After(sys: System, step: SystemStep): System {
    match step
    case RunBlockStep(x) => ExecStep(sys, x)
    case AddRootStep(rb) => RootStep(sys, rb)
  }

  ghost function Minted(sys: System, step: SystemStep, t: Token): int {
    match step
    case RunBlockStep(x) => Subsidy(x.reward, t)
    case AddRootStep(rb) => RootReward(sys, rb, t)
  }

  ghost function LostIn(sys: System, step: SystemStep, t: Token): int
    requires ValidSystem(sys) && Can(sys, step)
  {
    match step
    case RunBlockStep(x) => 0
    case AddRootStep(rb) => Lost(sys, rb, t)
  }

  lemma StepConserves(sys: System, step: SystemStep, t: Token)
    requires ValidSystem(sys) && Can(sys, step)
    ensures ValidSystem(After(sys, step)) && LostIn(sys, step, t) >= 0
    ensures Supply(After(sys, step), t) == Supply(sys, t) + Minted(sys, step, t) - LostIn(sys, step, t)
  {
    hide ValidSystem, Supply, CanExec, ExecStep, RootStep, RootReward, Subsidy, Lost, NothingPassedOver, NewRootHash, Distinct;
    match step
    case RunBlockStep(x) => ExecConserves(sys, x, t);
    case AddRootStep(rb) => RootConserves(sys, rb, t);
  }

  /** Every step of the run can be taken where it is taken. */
  ghost predicate IsTrace(sys: System, steps: seq<SystemStep>)
    decreases |steps|
  {
    ValidSystem(sys) && (steps == [] || (Can(sys, steps[0]) && IsTrace(After(sys, steps[0]), steps[1..])))
  }

  function Final(sys: System, steps: seq<SystemStep>): System
    decreases |steps|
  {
    if steps == [] then sys else Final(After(sys, steps[0]), steps[1..])
  }

  ghost function MintedOver(sys: System, steps: seq<SystemStep>, t: Token): int
    decreases |steps|
  {
    if steps == [] then 0 else Minted(sys, steps[0], t) + MintedOver(After(sys, steps[0]), steps[1..], t)
  }

  ghost function LostOver(sys: System, steps: seq<SystemStep>, t: Token): int
    requires IsTrace(sys, steps)
    decreases |steps|
  {
    if steps == [] then 0 else LostIn(sys, steps[0], t) + LostOver(After(sys, steps[0]), steps[1..], t)
  }

  /**
   * Over every interleaving of block executions on all shards and root blocks, for every token the
   * sum of balances, deposits on their way, withheld tax and stranded gas, less over-refunds, changes
   * exactly by the block rewards and root rewards of the run, less what root blocks lost; so it is
   * conserved exactly if nothing was lost.
   */
  lemma {:induction false} ConservationOverRuns(sys: System, steps: seq<SystemStep>, t: Token)
    requires IsTrace(sys, steps)
    ensures ValidSystem(Final(sys, steps)) && LostOver(sys, steps, t) >= 0
    ensures Supply(Final(sys, steps), t) == Supply(sys, t) + MintedOver(sys, steps, t) - LostOver(sys, steps, t)
    ensures Supply(Final(sys, steps), t) == Supply(sys, t) + MintedOver(sys, steps, t) <==> LostOver(sys, steps, t) == 0
    decreases |steps|
  {
    hide ValidSystem, Supply, Can, After, Minted, LostIn;
    if steps != [] {
      StepConserves(sys, steps[0], t);
      ConservationOverRuns(After(sys, steps[0]), steps[1..], t);
    }
  }

  /** With at most 32 shards configured no run loses anything. */
  lemma {:induction false} FewShardsConserve(sys: System, steps: seq<SystemStep>, t: Token)
    requires IsTrace(sys, steps) && |sys.geneses| <= 32
    ensures LostOver(sys, steps, t) == 0
    decreases |steps|
  {
    hide ValidSystem, LostIn, Can;
    if steps != [] {
      StepFewShards(sys, steps[0], t);
      FewShardsConserve(After(sys, steps[0]), steps[1..], t);
    }
  }

  lemma StepFewShards(sys: System, step: SystemStep, t: Token)
    requires ValidSystem(sys) && Can(sys, step) && |sys.geneses| <= 32
    ensures LostIn(sys, step, t) == 0
  {
    hide ValidSystem, Lost, CanExec, RootFits;
    match step
    case RunBlockStep(_) =>
    case AddRootStep(rb) =>
      FewShards(sys.geneses, rb.number);
      NothingLostBySize(sys, rb, t);
  }
}
