/**
 * The cluster as a running program: blocks arrive for its shards and for the root chain in any order, each
 * shard executes its blocks and broadcasts the deposits, and what there is of every token is accounted for.
 */
module Cluster {
  import opened BlockTree
  import opened ChainTypes
  import opened Ledger
  import opened Transition
  import opened Cursor
  import opened Delivery
  import opened Execution
  import opened Effects
  import opened Conservation
  import SK = ShardKeys

  /** A shard's node: what it has stored, the state at its tip, and the tip's saved position and root height. */
  datatype Node = Node(chain: Chain, balances: Balances, nonces: Nonces, world: World, info: CursorInfo, seen: nat)

  /** What a shard starts with. */
  datatype Allocation = Allocation(balances: Balances, nonces: Nonces, world: World)

  /** A minor block for a shard, with the senders its proof-of-staked-work check locks, or a root block. */
  datatype Arrival =
    | NewMinorBlock(shard: ShardId, hash: Hash, block: MinorBlock, senderDisallow: map<Recipient, int>)
    | NewRootBlock(rb: RootBlock, validated: bool)

  predicate SmallBlock(block: MinorBlock) {
    forall tx :: tx in block.txs ==> SmallTx(tx)
  }

  ghost function StateOf(n: Node, kept: Kept): ShardState {
    ShardState(n.chain, n.balances, n.info, n.seen, kept)
  }

  ghost function StatesOf(nodes: map<ShardId, Node>, kept: map<ShardId, Kept>): map<ShardId, ShardState>
    requires kept.Keys == nodes.Keys
  {
    map b | b in nodes :: StateOf(nodes[b], kept[b])
  }

  /** The nodes after one of them executed a block mined at a root height: it has the new state, and those the
      block is broadcast to store their share of the deposits. */
  function AfterBlock(cfg: SK.Config, geneses: map<ShardId, nat>, nodes: map<ShardId, Node>, shard: ShardId, hash: Hash,
                      height: nat, r: Executed): map<ShardId, Node> {
    map b | b in nodes ::
      var n := nodes[b];
      if b == shard then Node(n.chain, r.balances, r.nonces, r.world, r.saved, height + 1)
      else if Receives(geneses, shard, height, b)
      then n.(chain := n.chain.(lists := n.chain.lists[hash := SentTo(cfg, r.sent, b)]))
      else n
  }

  /** The nodes after a root block: those that take part by then know it. */
  function AfterRootBlock(nodes: map<ShardId, Node>, rb: RootBlock): map<ShardId, Node> {
    map b | b in nodes ::
      if nodes[b].chain.genesisRootHeight <= rb.number
      then nodes[b].(chain := WithRoot(nodes[b].chain, rb)) else nodes[b]
  }

  ghost function KeptAfter(kept: map<ShardId, Kept>, shard: ShardId, k: Kept): map<ShardId, Kept> {
    map b | b in kept :: if b == shard then AddKept(kept[b], k) else kept[b]
  }

  lemma BlockIsStep(sys: System, nodes: map<ShardId, Node>, kept: map<ShardId, Kept>, x: Exec, r: Executed)
    requires kept.Keys == nodes.Keys && sys.shards == StatesOf(nodes, kept)
    requires x.run.info == r.saved && x.after == r.balances && x.sent == r.sent
    ensures var nodes' := AfterBlock(sys.cfg, sys.geneses, nodes, x.shard, x.hash, x.height, r);
            KeptAfter(kept, x.shard, x.kept).Keys == nodes'.Keys
            && StatesOf(nodes', KeptAfter(kept, x.shard, x.kept)) == ExecStep(sys, x).shards
  {
    hide Receives, SentTo;
    var nodes', kept' := AfterBlock(sys.cfg, sys.geneses, nodes, x.shard, x.hash, x.height, r), KeptAfter(kept, x.shard, x.kept);
    forall b | b in nodes
      ensures StateOf(nodes'[b], kept'[b]) == AfterExec(sys, x, b, sys.shards[b])
    {
    }
  }

  lemma RootBlockIsStep(sys: System, nodes: map<ShardId, Node>, kept: map<ShardId, Kept>, rb: RootBlock)
    requires kept.Keys == nodes.Keys && sys.shards == StatesOf(nodes, kept)
    ensures AfterRootBlock(nodes, rb).Keys == nodes.Keys
    ensures StatesOf(AfterRootBlock(nodes, rb), kept) == RootStep(sys, rb).shards
  {
    forall b | b in nodes
      ensures StateOf(AfterRootBlock(nodes, rb)[b], kept[b]) == AfterRoot(rb, sys.shards[b])
    {
    }
  }

  /** The root chain a shard's tip has seen, continued to a root block, is that root block's path. */
  lemma TipResumes(sys: System, b: ShardId, height: nat)
    requires ValidSystem(sys) && b in sys.shards
    requires Base(sys.shards[b]) <= height < |sys.roots| && sys.shards[b].seen <= height + 1
    ensures var st := sys.shards[b];
            && Tree(st.chain.roots, Base(st)) && sys.roots[height].hash in st.chain.roots
            && Path(st.chain.roots, Base(st), sys.roots[height].hash) == PathOf(sys.roots[..height + 1], Base(st))
            && ValidInfo(st.chain, PathOf(sys.roots[..height + 1], Base(st)), Base(st), st.info)
  {
    hide ValidSystem, RootsOk, Follows, Path, Tree, ValidInfo, Solvent, ProtocolChain, SK.IsShard, SK.ValidConfig;
    var st := sys.shards[b];
    ShardIsValid(sys, b);
    SystemRoots(sys);
    FollowsPath(st.chain, sys.roots, height);
    var p, q := PathOf(sys.roots[..st.seen], Base(st)), PathOf(sys.roots[..height + 1], Base(st));
    assert p <= q;
    assert q == p + q[|p|..];
    Resume(st.chain, p, q[|p|..], Base(st), st.info);
  }

  /** A shard's tip and a root block it knows, not below what the tip has seen, meet what RunBlock asks. */
  lemma ReadyToRun(sys: System, b: ShardId, prevRoot: Hash)
    requires ValidSystem(sys) && b in sys.shards && prevRoot in sys.shards[b].chain.roots
    requires sys.shards[b].seen <= sys.shards[b].chain.roots[prevRoot].number + 1
    ensures var st := sys.shards[b];
            var height := st.chain.roots[prevRoot].number;
            && Base(st) <= height < |sys.roots| && sys.roots[height].hash == prevRoot
            && st.chain.genesisToken == sys.genesisToken && Solvent(st.balances) && ProtocolChain(st.chain)
            && Tree(st.chain.roots, Base(st))
            && Path(st.chain.roots, Base(st), prevRoot) == PathOf(sys.roots[..height + 1], Base(st))
            && ValidInfo(st.chain, PathOf(sys.roots[..height + 1], Base(st)), Base(st), st.info)
  {
    hide ValidSystem, RootsOk, Path, Tree, ValidInfo, Solvent, ProtocolChain, SK.IsShard, SK.ValidConfig, PathOf;
    ShardIsValid(sys, b);
    TipResumes(sys, b, sys.shards[b].chain.roots[prevRoot].number);
  }

  /** Before activation the deposits of a block that went through have reached their recipients. */
  lemma ArrivedBefore(cfg: Settings, vm: Vm, c: Chain, block: MinorBlock, info: CursorInfo, start: Moment,
                      validate: (Moment, Tx) -> bool, ddosFixRootHeight: nat, ahead: seq<Event>, run: BlockRun, trail: Trail,
                      r: Executed)
    requires cfg.localFeeRate.den > 0 && c.genesisToken == cfg.genesisToken && ProtocolChain(c)
    requires IsRun(c, c.genesisRootHeight, info, run) && trail.delivered == run.delivered
    requires Completed(vm, BlockEnv(cfg, block), validate, ddosFixRootHeight, start, block, ahead, trail, r)
    ensures trail.arrived != []
    ensures block.time < cfg.enableEvmTimestamp ==>
              Reached(cfg.genesisToken, cfg.localFeeRate, block.coinbase, DepositsOf(run.delivered), start.scene.balances,
                      Last(trail.arrived).scene.balances)
  {
    hide Rest, ValidInfo, ProtocolChain, Chained, Reached, DepositsOf, Arrives, ProtocolDeposit;
    if block.time < cfg.enableEvmTimestamp {
      RestProtocol(c, run.path, c.genesisRootHeight, info);
      var ahead := Rest(c, run.path, c.genesisRootHeight, info);
      assert forall i :: 0 <= i < |run.delivered| ==> run.delivered[i] == ahead[i];
      EarlyArrivals(vm, BlockEnv(cfg, block), ddosFixRootHeight, run.delivered, trail.arrived);
    }
  }

  lemma {:induction false} TraceAppend(sys: System, trace: seq<SystemStep>, step: SystemStep)
    requires IsTrace(sys, trace) && ValidSystem(Final(sys, trace)) && Can(Final(sys, trace), step)
    ensures IsTrace(sys, trace + [step]) && Final(sys, trace + [step]) == After(Final(sys, trace), step)
    decreases |trace|
  {
    hide ValidSystem, Can, After;
    if trace == [] {
      assert trace + [step] == [step];
      StepConserves(sys, step, 0);
      assert [step][1..] == [];
      assert IsTrace(After(sys, step), []);
    } else {
      assert (trace + [step])[1..] == trace[1..] + [step];
      TraceAppend(After(sys, trace[0]), trace[1..], step);
    }
  }

  lemma EmptyTrace(sys: System)
    requires ValidSystem(sys)
    ensures IsTrace(sys, []) && Final(sys, []) == sys
  {
  }

  // ---------- what becomes of a block that arrives ----------

  /** The step is the one the block stands for. */
  ghost predicate MadeBy(step: SystemStep, a: Arrival) {
    match a
    case NewMinorBlock(shard, hash, block, _) =>
      && step.RunBlockStep? && step.x.shard == shard && step.x.hash == hash && step.x.prevRoot == block.prevRoot
      && step.x.reward == block.reward && step.x.miner == block.coinbase
    case NewRootBlock(rb, _) => step == AddRootStep(rb)
  }

  /** The block is new, and mined on a root block its shard knows that is not below what the shard's tip has seen. */
  ghost predicate ReadyIn(sys: System, shard: ShardId, hash: Hash, block: MinorBlock) {
    && shard in sys.shards && FreshHash(sys, hash) && block.prevRoot in sys.shards[shard].chain.roots
    && sys.shards[shard].seen <= sys.shards[shard].chain.roots[block.prevRoot].number + 1
  }

  /** What the cursor of a block mined on a root block has ahead of a saved position. */
  ghost function AheadFrom(c: Chain, info: CursorInfo, prevRoot: Hash): seq<Event> {
    if Tree(c.roots, c.genesisRootHeight) && prevRoot in c.roots
       && ValidInfo(c, Path(c.roots, c.genesisRootHeight, prevRoot), c.genesisRootHeight, info)
    then Rest(c, Path(c.roots, c.genesisRootHeight, prevRoot), c.genesisRootHeight, info) else []
  }

  /** Execution from the shard's balances gets stuck at the end of a trail. */
  ghost predicate RefusedFrom(cfg: Settings, vm: Vm, validate: (Moment, Tx) -> bool, ddosFixRootHeight: nat, sys: System, a: Arrival,
                              start: Moment, trail: Trail)
    requires cfg.localFeeRate.den > 0 && a.NewMinorBlock? && a.shard in sys.shards
  {
    && start.scene.balances == sys.shards[a.shard].balances && start.scene.senderDisallow == a.senderDisallow
    && Refused(vm, BlockEnv(cfg, a.block), validate, ddosFixRootHeight, start, a.block,
               AheadFrom(sys.shards[a.shard].chain, sys.shards[a.shard].info, a.block.prevRoot), trail)
  }

  /** Execution went through, but some deposit is for a shard the block is not broadcast to. */
  ghost predicate Unsendable(shardCfg: SK.Config, sys: System, shard: ShardId, x: Exec) {
    && shard in sys.shards && x.shard == shard && GoodRun(sys, sys.shards[shard], x)
    && !Broadcastable(shardCfg, sys.geneses, sys.shards.Keys, shard, x.height, x.sent)
  }

  /** Why a block was not taken. */
  ghost predicate TurnedDown(cfg: Settings, vm: Vm, validate: (Moment, Tx) -> bool, ddosFixRootHeight: nat, shardCfg: SK.Config,
                             sys: System, a: Arrival)
    requires cfg.localFeeRate.den > 0
  {
    match a
    case NewMinorBlock(shard, hash, block, _) =>
      || !ReadyIn(sys, shard, hash, block)
      || (exists start, trail :: RefusedFrom(cfg, vm, validate, ddosFixRootHeight, sys, a, start, trail))
      || (exists x :: Unsendable(shardCfg, sys, shard, x))
    case NewRootBlock(rb, validated) => !(validated && RootFits(sys.roots, sys.pending, rb))
  }

  lemma RootTurnedDown(cfg: Settings, vm: Vm, validate: (Moment, Tx) -> bool, ddosFixRootHeight: nat, shardCfg: SK.Config,
                       sys: System, a: Arrival)
    requires cfg.localFeeRate.den > 0 && ValidSystem(sys) && a.NewRootBlock?
    ensures TurnedDown(cfg, vm, validate, ddosFixRootHeight, shardCfg, sys, a) <==> !(a.validated && CanAddRoot(sys, a.rb))
  {
    hide ValidSystem;
  }

  /** A block that arrives is taken as its step, or turned down for a reason. */
  ghost predicate Handled(cfg: Settings, vm: Vm, validate: (Moment, Tx) -> bool, ddosFixRootHeight: nat, shardCfg: SK.Config,
                          before: System, a: Arrival, taken: bool, after: System)
    requires cfg.localFeeRate.den > 0
  {
    if taken then ValidSystem(before) && exists step :: Can(before, step) && MadeBy(step, a) && after == After(before, step)
    else after == before && TurnedDown(cfg, vm, validate, ddosFixRootHeight, shardCfg, before, a)
  }

  lemma HandledNow(cfg: Settings, vm: Vm, validate: (Moment, Tx) -> bool, ddosFixRootHeight: nat, shardCfg: SK.Config,
                   before: System, a: Arrival, taken: bool, step: SystemStep, after: System)
    requires cfg.localFeeRate.den > 0 && ValidSystem(before)
    requires if taken then Can(before, step) && MadeBy(step, a) && after == After(before, step)
             else after == before && TurnedDown(cfg, vm, validate, ddosFixRootHeight, shardCfg, before, a)
    ensures Handled(cfg, vm, validate, ddosFixRootHeight, shardCfg, before, a, taken, after)
  {
    hide ValidSystem, Can, MadeBy, After, TurnedDown;
  }

  class Cluster {
    const shardCfg: SK.Config
    const cfg: Settings
    const vm: Vm
    const geneses: map<ShardId, nat>
    const validate: (Moment, Tx) -> bool
    const ddosFixRootHeight: nat
    var nodes: map<ShardId, Node>
    var roots: seq<RootBlock>
    /** Executed blocks that no root block has confirmed. */
    var pending: map<Hash, SentBlock>
    /** What the blocks of each shard kept back so far. */
    ghost var kept: map<ShardId, Kept>

    /** The cluster as a system of shards. */
    ghost function View(): System
      requires kept.Keys == nodes.Keys
      reads this
    {
      System(shardCfg, cfg.genesisToken, cfg.localFeeRate, geneses, StatesOf(nodes, kept), roots, pending)
    }

    ghost predicate Valid()
      reads this
    {
      ProperRate(cfg.localFeeRate) && VmOk(vm) && kept.Keys == nodes.Keys && ValidSystem(View())
    }

    constructor (shardCfg: SK.Config, cfg: Settings, vm: Vm, geneses: map<ShardId, nat>, alloc: map<ShardId, Allocation>,
                 validate: (Moment, Tx) -> bool, ddosFixRootHeight: nat)
      requires SK.ValidConfig(shardCfg) && ProperRate(cfg.localFeeRate) && VmOk(vm) && geneses.Keys <= alloc.Keys
      requires forall b :: b in geneses ==> SK.IsShard(shardCfg, b.branch) && Solvent(alloc[b].balances)
      ensures Valid()
      ensures View() == Genesis(shardCfg, cfg.genesisToken, cfg.localFeeRate, geneses, map b | b in alloc :: alloc[b].balances)
      ensures this.cfg == cfg && this.vm == vm && this.validate == validate && this.ddosFixRootHeight == ddosFixRootHeight
      ensures forall b :: b in nodes ==> nodes[b].nonces == alloc[b].nonces && nodes[b].world == alloc[b].world
    {
      hide SK.ValidConfig, SK.IsShard, Solvent, VmOk, ValidSystem;
      this.shardCfg, this.cfg, this.vm, this.geneses := shardCfg, cfg, vm, geneses;
      this.validate, this.ddosFixRootHeight := validate, ddosFixRootHeight;
      nodes := map b | b in geneses ::
        Node(Chain(b, cfg.genesisToken, geneses[b], map[], map[], geneses), alloc[b].balances, alloc[b].nonces,
             alloc[b].world, CursorInfo(geneses[b], 0, 0), 0);
      roots, pending := [], map[];
      kept := map b | b in geneses :: Kept(0, 0, 0);
      new;
      ghost var balances := map b | b in alloc :: alloc[b].balances;
      GenesisIsValid(shardCfg, cfg.genesisToken, cfg.localFeeRate, geneses, balances);
      assert View().shards == Genesis(shardCfg, cfg.genesisToken, cfg.localFeeRate, geneses, balances).shards;
    }

    /** A hash under which nothing is stored yet. */
    predicate IsFresh(hash: Hash)
      reads this
    {
      hash !in pending && Unconfirmed(roots, hash) && forall b :: b in nodes ==> hash !in nodes[b].chain.lists
    }

    /** The block is new, its shard is here, and it was mined on a root block not below what the shard's tip has seen. */
    predicate IsReady(shard: ShardId, hash: Hash, block: MinorBlock)
      reads this
    {
      && shard in nodes && IsFresh(hash) && block.prevRoot in nodes[shard].chain.roots
      && nodes[shard].seen <= nodes[shard].chain.roots[block.prevRoot].number + 1
    }

    ghost function AheadOf(shard: ShardId, prevRoot: Hash): seq<Event>
      requires shard in nodes
      reads this
    {
      AheadFrom(nodes[shard].chain, nodes[shard].info, prevRoot)
    }

    /** The moment a block on a shard's tip starts from. */
    function TipMoment(shard: ShardId, senderDisallow: map<Recipient, int>): Moment
      requires shard in nodes
      reads this
    {
      StartOf(cfg, senderDisallow, nodes[shard].balances, nodes[shard].nonces, nodes[shard].world)
    }

    /** Executes a block on a shard's tip. */
    method Execute(shard: ShardId, hash: Hash, block: MinorBlock, senderDisallow: map<Recipient, int>)
      returns (r: Option<Executed>, ghost x: Exec, ghost trail: Trail)
      requires Valid() && SmallBlock(block) && IsReady(shard, hash, block)
      ensures r.None? ==>
                Refused(vm, BlockEnv(cfg, block), validate, ddosFixRootHeight, TipMoment(shard, senderDisallow), block,
                        AheadOf(shard, block.prevRoot), trail)
      ensures r.Some? ==>
                Completed(vm, BlockEnv(cfg, block), validate, ddosFixRootHeight, TipMoment(shard, senderDisallow), block,
                          AheadOf(shard, block.prevRoot), trail, r.value)
      ensures r.Some? ==> x.run.delivered == trail.delivered && x.miner == block.coinbase
                          && (x.evmEnabled <==> block.time >= cfg.enableEvmTimestamp)
                          && trail.arrived != [] && x.arrived == Last(trail.arrived).scene.balances
      ensures r.Some? ==> x.shard == shard && x.hash == hash && x.prevRoot == block.prevRoot
      ensures r.Some? ==> x.height == nodes[shard].chain.roots[block.prevRoot].number && x.reward == block.reward
      ensures r.Some? ==> x.run.info == r.value.saved && x.after == r.value.balances && x.sent == r.value.sent
      ensures r.Some? ==> x.fee == r.value.fee && GoodRun(View(), StateOf(nodes[shard], kept[shard]), x)
    {
      hide ValidSystem, VmOk, Solvent, ValidInfo, IsRun, Conserves, AllProtocol, ProtocolChain, Path, Tree, PathOf, Rest,
        Refused, Completed, Reached, DepositsOf;
      var n := nodes[shard];
      var height := n.chain.roots[block.prevRoot].number;
      ReadyToRun(View(), shard, block.prevRoot);
      ghost var run, k;
      r, run, k, trail := RunBlock(cfg, vm, n.chain, block, n.info, n.balances, n.nonces, n.world, senderDisallow, validate,
                                   ddosFixRootHeight);
      if r.Some? {
        ArrivedBefore(cfg, vm, n.chain, block, n.info, TipMoment(shard, senderDisallow), validate, ddosFixRootHeight,
                      AheadOf(shard, block.prevRoot), run, trail, r.value);
        x := Exec(shard, hash, block.prevRoot, height, block.coinbase, block.time >= cfg.enableEvmTimestamp, run,
                  Last(trail.arrived).scene.balances, r.value.balances, r.value.sent, r.value.fee, k, block.reward);
      } else {
        x := *;
      }
    }

    lemma FreshInView(hash: Hash)
      requires kept.Keys == nodes.Keys
      ensures View().shards.Keys == nodes.Keys && (IsFresh(hash) ==> FreshHash(View(), hash))
    {
    }

    /**
     * A minor block arrives: it is executed on its shard's tip, stored and its deposits broadcast. It is refused
     * only if it does not fit the tip, an event ahead of it or one of its transactions fails, or its deposits
     * cannot be sent.
     */
    method AddMinorBlock(shard: ShardId, hash: Hash, block: MinorBlock, senderDisallow: map<Recipient, int>)
      returns (r: Option<Executed>, ghost x: Exec, ghost trail: Trail)
      requires Valid() && SmallBlock(block)
      modifies `nodes, `pending, `kept
      ensures Valid()
      ensures r.Some? ==> old(IsReady(shard, hash, block))
      ensures r.Some? ==> CanExec(old(View()), x) && View() == ExecStep(old(View()), x) && x.reward == block.reward
      ensures r.Some? ==> x.shard == shard && x.hash == hash && x.prevRoot == block.prevRoot && x.sent == r.value.sent
      ensures r.Some? ==> nodes == AfterBlock(shardCfg, geneses, old(nodes), shard, hash, x.height, r.value)
      ensures r.Some? ==> x.run.delivered == trail.delivered && x.miner == block.coinbase
                          && (x.evmEnabled <==> block.time >= cfg.enableEvmTimestamp)
      ensures r.Some? ==>
                Completed(vm, BlockEnv(cfg, block), validate, ddosFixRootHeight, old(TipMoment(shard, senderDisallow)), block,
                          old(AheadOf(shard, block.prevRoot)), trail, r.value)
      ensures r.None? ==> unchanged(this)
      ensures r.None? && IsReady(shard, hash, block) ==>
                || Refused(vm, BlockEnv(cfg, block), validate, ddosFixRootHeight, TipMoment(shard, senderDisallow), block,
                           AheadOf(shard, block.prevRoot), trail)
                || Unsendable(shardCfg, View(), shard, x)
    {
      hide ValidSystem, VmOk, GoodRun, Broadcastable, Unconfirmed, FreshHash, SmallBlock, AfterExec, AfterBlock, KeptAfter,
        Refused, Completed, Cluster.AheadOf;
      x, trail := *, Trail([], [], []);
      if !IsReady(shard, hash, block) {
        return None, x, trail;
      }
      var height := nodes[shard].chain.roots[block.prevRoot].number;
      r, x, trail := Execute(shard, hash, block, senderDisallow);
      FreshInView(hash);
      if r.None? || !Broadcastable(shardCfg, geneses, nodes.Keys, shard, height, r.value.sent) {
        return None, x, trail;
      }
      ExecKeepsValid(View(), x);
      BlockIsStep(View(), nodes, kept, x, r.value);
      nodes := AfterBlock(shardCfg, geneses, nodes, shard, hash, height, r.value);
      pending := pending[hash := SentBlock(shard, block.prevRoot, height, r.value.sent)];
      kept := KeptAfter(kept, shard, x.kept);
    }

    /**
     * A root block arrives, with the verdict of the checks on its headers: every shard that takes part learns of
     * it, or it is refused.
     */
    method AddRootBlock(rb: RootBlock, validated: bool) returns (ok: bool)
      requires Valid()
      modifies `nodes, `roots, `pending
      ensures Valid()
      ensures ok <==> validated && CanAddRoot(old(View()), rb)
      ensures View() == if ok then RootStep(old(View()), rb) else old(View())
    {
      hide ValidSystem, VmOk, RootFits, StatesOf, AfterRootBlock, ConfirmedHashes, AfterRoot;
      ok := validated && RootFits(roots, pending, rb);
      if ok {
        RootKeepsValid(View(), rb);
        RootBlockIsStep(View(), nodes, kept, rb);
        nodes := AfterRootBlock(nodes, rb);
        roots, pending := roots + [rb], pending - ConfirmedHashes(rb.body.headers);
      }
    }

    /** One block arrives: it makes the step it stands for, or there is a reason why not and nothing changes. */
    method Receive(a: Arrival) returns (ok: bool, ghost step: SystemStep)
      requires Valid() && (a.NewMinorBlock? ==> SmallBlock(a.block))
      modifies `nodes, `roots, `pending, `kept
      ensures Valid()
      ensures ok ==> Can(old(View()), step) && View() == After(old(View()), step) && MadeBy(step, a)
      ensures !ok ==> View() == old(View()) && TurnedDown(cfg, vm, validate, ddosFixRootHeight, shardCfg, View(), a)
    {
      hide ValidSystem, VmOk, SmallBlock, CanExec, CanAddRoot, ExecStep, RootStep, StatesOf, Refused, Completed, Unsendable,
        TurnedDown;
      match a
      case NewMinorBlock(shard, hash, block, senderDisallow) =>
        var r;
        ghost var x, trail;
        r, x, trail := AddMinorBlock(shard, hash, block, senderDisallow);
        ok, step := r.Some?, RunBlockStep(x);
        if r.None? {
          WhyNot(a, x, trail);
        }
      case NewRootBlock(rb, validated) =>
        RootTurnedDown(cfg, vm, validate, ddosFixRootHeight, shardCfg, View(), a);
        ok := AddRootBlock(rb, validated);
        step := AddRootStep(rb);
    }

    /** The reason why a minor block was not taken, as the system shows it. */
    lemma WhyNot(a: Arrival, x: Exec, trail: Trail)
      requires Valid() && a.NewMinorBlock?
      requires IsReady(a.shard, a.hash, a.block) ==>
                 || Refused(vm, BlockEnv(cfg, a.block), validate, ddosFixRootHeight, TipMoment(a.shard, a.senderDisallow), a.block,
                            AheadOf(a.shard, a.block.prevRoot), trail)
                 || Unsendable(shardCfg, View(), a.shard, x)
      ensures TurnedDown(cfg, vm, validate, ddosFixRootHeight, shardCfg, View(), a)
    {
      hide ValidSystem, VmOk, Refused, GoodRun, Broadcastable, Unconfirmed, Rest, ValidInfo, Path, Tree;
      var sys := View();
      FreshInView(a.hash);
      if ReadyIn(sys, a.shard, a.hash, a.block) {
        assert sys.shards[a.shard] == StateOf(nodes[a.shard], kept[a.shard]);
        assert IsReady(a.shard, a.hash, a.block);
        if !Unsendable(shardCfg, sys, a.shard, x) {
          assert RefusedFrom(cfg, vm, validate, ddosFixRootHeight, sys, a, TipMoment(a.shard, a.senderDisallow), trail);
        }
      }
    }

    /**
     * Blocks arrive in any order. Whatever they are, the cluster goes through a run of its system: each block that
     * is taken is one step, each that is not has a reason, and so what there is of every token changes by exactly
     * the rewards of the blocks taken, less what was lost.
     */
    method Run(arrivals: seq<Arrival>) returns (taken: seq<bool>, ghost trace: seq<SystemStep>, ghost views: seq<System>)
      requires Valid() && forall a :: a in arrivals && a.NewMinorBlock? ==> SmallBlock(a.block)
      modifies `nodes, `roots, `pending, `kept
      ensures Valid()
      ensures IsTrace(old(View()), trace) && View() == Final(old(View()), trace)
      ensures |taken| == |arrivals| && |views| == |arrivals| + 1 && views[0] == old(View()) && views[|arrivals|] == View()
      ensures forall i {:trigger arrivals[i]} :: 0 <= i < |arrivals| ==>
                Handled(cfg, vm, validate, ddosFixRootHeight, shardCfg, views[i], arrivals[i], taken[i], views[i + 1])
      ensures forall t :: Supply(View(), t)
                          == old(Supply(View(), t)) + MintedOver(old(View()), trace, t) - LostOver(old(View()), trace, t)
      ensures |geneses| <= 32 ==> forall t :: LostOver(old(View()), trace, t) == 0
    {
      hide ValidSystem, VmOk, SmallBlock, Can, After, Supply, MintedOver, LostOver, IsTrace, Final, MadeBy, TurnedDown, Handled,
        StatesOf;
      ghost var start := View();
      taken, trace, views := [], [], [start];
      EmptyTrace(start);
      for i := 0 to |arrivals|
        invariant Valid() && IsTrace(start, trace) && View() == Final(start, trace)
        invariant |taken| == i && |views| == i + 1 && views[0] == start && views[i] == View()
        invariant forall j {:trigger arrivals[j]} :: 0 <= j < i ==>
                    Handled(cfg, vm, validate, ddosFixRootHeight, shardCfg, views[j], arrivals[j], taken[j], views[j + 1])
      {
        ghost var before := View();
        ghost var step;
        var ok;
        ok, step := Receive(arrivals[i]);
        HandledNow(cfg, vm, validate, ddosFixRootHeight, shardCfg, before, arrivals[i], ok, step, View());
        if ok {
          TraceAppend(start, trace, step);
          trace := trace + [step];
        }
        taken, views := taken + [ok], views + [View()];
      }
      forall t
        ensures Supply(View(), t) == Supply(start, t) + MintedOver(start, trace, t) - LostOver(start, trace, t)
      {
        ConservationOverRuns(start, trace, t);
      }
      if |geneses| <= 32 {
        forall t
          ensures LostOver(start, trace, t) == 0
        {
          FewShardsConserve(start, trace, t);
        }
      }
    }
  }
}
