/**
 * Exactly-once delivery in whole systems: along every run from genesis, whatever is executed and confirmed in
 * between, the deposits each shard has delivered are a duplicate-free prefix of the flat sequence of its root chain.
 */
module RunDelivery {
  import opened BlockTree
  import opened ChainTypes
  import opened Ledger
  import opened Cursor
  import opened Delivery
  import opened Execution
  import opened Conservation
  import SK = ShardKeys

  /** What one step delivers on a shard. */
  function DeliveredIn(step: SystemStep, b: ShardId): seq<Event> {
    if step.RunBlockStep? && step.x.shard == b then step.x.run.delivered else []
  }

  /** What a run delivers on a shard, block by block. */
  function DeliveredTo(steps: seq<SystemStep>, b: ShardId): seq<Event> {
    if steps == [] then [] else DeliveredIn(steps[0], b) + DeliveredTo(steps[1..], b)
  }

  // ---------- a growing store reads the same ----------

  lemma ExecReads(sys: System, x: Exec, b: ShardId)
    requires ValidSystem(sys) && CanExec(sys, x) && b in sys.shards
    ensures var c, c' := sys.shards[b].chain, ExecStep(sys, x).shards[b].chain;
            c'.genesisRootHeight == c.genesisRootHeight && SameReadsAll(c, c', PathOf(sys.roots, c.genesisRootHeight))
  {
    hide ValidSystem, GoodRun, Broadcastable, Unconfirmed, PathOf, SameReadsAll, Receives, SentTo;
    var c := sys.shards[b].chain;
    if b != x.shard && Receives(sys.geneses, x.shard, x.height, b) {
      PathsAreRoots(sys.roots, c.genesisRootHeight, |sys.roots|);
      NewListUnseen(sys.roots, c, x.hash, SentTo(sys.cfg, x.sent, b), PathOf(sys.roots, c.genesisRootHeight));
    } else {
      SameReadsSelf(c, PathOf(sys.roots, c.genesisRootHeight));
    }
  }

  lemma RootReads(sys: System, rb: RootBlock, b: ShardId)
    requires ValidSystem(sys) && CanAddRoot(sys, rb) && b in sys.shards
    ensures var c, c' := sys.shards[b].chain, RootStep(sys, rb).shards[b].chain;
            c'.genesisRootHeight == c.genesisRootHeight && SameReadsAll(c, c', PathOf(sys.roots, c.genesisRootHeight))
  {
    hide ValidSystem, RootsOk, PathOf, SameReadsAll, AllPending, Distinct, NewRootHash;
    var c := sys.shards[b].chain;
    SystemRoots(sys);
    PathsAreRoots(sys.roots, c.genesisRootHeight, |sys.roots|);
    NewRootUnseen(c, sys.roots, rb, PathOf(sys.roots, c.genesisRootHeight));
    SameReadsSelf(c, PathOf(sys.roots, c.genesisRootHeight));
  }

  lemma LongerPath(roots: seq<RootBlock>, roots': seq<RootBlock>, base: nat)
    requires roots <= roots'
    ensures PathOf(roots, base) <= PathOf(roots', base)
  {
  }

  /** One step leaves every shard in place; what it has read so far it goes on reading in the same way. */
  lemma StepReads(sys: System, step: SystemStep, b: ShardId)
    requires ValidSystem(sys) && Can(sys, step) && b in sys.shards
    ensures var sys' := After(sys, step);
            && b in sys'.shards && Base(sys'.shards[b]) == Base(sys.shards[b]) && sys.roots <= sys'.roots
            && SameReadsAll(sys.shards[b].chain, sys'.shards[b].chain, PathOf(sys.roots, Base(sys.shards[b])))
            && (sys'.shards[b].info == if step.RunBlockStep? && step.x.shard == b then step.x.run.info else sys.shards[b].info)
  {
    hide ValidSystem, PathOf, SameReadsAll, GoodRun, Broadcastable, FreshHash, RootFits, Receives, SentTo;
    match step
    case RunBlockStep(x) => ExecReads(sys, x, b);
    case AddRootStep(rb) => RootReads(sys, rb, b);
  }

  lemma {:induction false} RunReads(sys: System, steps: seq<SystemStep>, b: ShardId)
    requires IsTrace(sys, steps) && b in sys.shards
    ensures var sys' := Final(sys, steps);
            && b in sys'.shards && Base(sys'.shards[b]) == Base(sys.shards[b]) && sys.roots <= sys'.roots
            && SameReadsAll(sys.shards[b].chain, sys'.shards[b].chain, PathOf(sys.roots, Base(sys.shards[b])))
    decreases |steps|
  {
    hide ValidSystem, Can, After, PathOf, SameReadsAll;
    if steps == [] {
      SameReadsSelf(sys.shards[b].chain, PathOf(sys.roots, Base(sys.shards[b])));
    } else {
      var sys1, sys' := After(sys, steps[0]), Final(sys, steps);
      StepReads(sys, steps[0], b);
      RunReads(sys1, steps[1..], b);
      var base := Base(sys.shards[b]);
      LongerPath(sys.roots, sys1.roots, base);
      ReadsSameTwice(sys.shards[b].chain, sys1.shards[b].chain, sys'.shards[b].chain, PathOf(sys.roots, base),
                     PathOf(sys1.roots, base));
    }
  }

  // ---------- delivery along a run ----------

  /** A block's own run, seen at the end of the run it is the first step of. */
  lemma BlockSeenLater(sys: System, x: Exec, steps: seq<SystemStep>)
    requires IsTrace(sys, steps) && steps != [] && steps[0] == RunBlockStep(x)
    ensures x.shard in sys.shards && x.shard in Final(sys, steps).shards
    ensures var st, sys' := sys.shards[x.shard], Final(sys, steps);
            var c', path' := sys'.shards[x.shard].chain, PathOf(sys'.roots, Base(st));
            && ValidInfo(c', path', Base(st), st.info) && ValidInfo(c', path', Base(st), x.run.info)
            && Rest(c', path', Base(st), st.info) == x.run.delivered + Rest(c', path', Base(st), x.run.info)
  {
    hide ValidSystem, After, SameReadsAll, IsRun, Rest, ValidInfo, Final, Conserves, PathOf, FreshHash, Broadcastable, Solvent,
      AllProtocol;
    var st, sys' := sys.shards[x.shard], Final(sys, steps);
    RunReads(sys, steps, x.shard);
    PathsAreRoots(sys.roots, Base(st), x.height + 1);
    LongerPath(sys.roots, sys'.roots, Base(st));
    PrefixReads(st.chain, sys'.shards[x.shard].chain, x.run.path, PathOf(sys.roots, Base(st)));
    RunSeenLater(st.chain, sys'.shards[x.shard].chain, Base(st), st.info, x.run, PathOf(sys'.roots, Base(st)));
  }

  lemma PrefixReads(c: Chain, c': Chain, p: seq<RootBlock>, q: seq<RootBlock>)
    requires p <= q && SameReadsAll(c, c', q)
    ensures SameReadsAll(c, c', p)
  {
    hide SameReads;
  }

  /** What lay ahead of a shard at the start of a run is what the run delivered and what lies ahead at its end. */
  lemma {:induction false} RunDelivers(sys: System, steps: seq<SystemStep>, b: ShardId)
    requires IsTrace(sys, steps) && b in sys.shards
    ensures b in Final(sys, steps).shards
    ensures var st, sys' := sys.shards[b], Final(sys, steps);
            var c', path', info' := sys'.shards[b].chain, PathOf(sys'.roots, Base(st)), sys'.shards[b].info;
            && ValidInfo(c', path', Base(st), st.info) && ValidInfo(c', path', Base(st), info')
            && Rest(c', path', Base(st), st.info) == DeliveredTo(steps, b) + Rest(c', path', Base(st), info')
    decreases |steps|
  {
    hide ValidSystem, Can, After, Rest, ValidInfo, PathOf;
    var st := sys.shards[b];
    if steps == [] {
      ShardIsValid(sys, b);
      ShardFollows(sys, b);
      assert DeliveredTo(steps, b) + Rest(st.chain, PathOf(sys.roots, Base(st)), Base(st), st.info)
          == Rest(st.chain, PathOf(sys.roots, Base(st)), Base(st), st.info);
    } else {
      StepReads(sys, steps[0], b);
      RunDelivers(After(sys, steps[0]), steps[1..], b);
      var sys' := Final(sys, steps);
      var left := Rest(sys'.shards[b].chain, PathOf(sys'.roots, Base(st)), Base(st), sys'.shards[b].info);
      var first, later := DeliveredIn(steps[0], b), DeliveredTo(steps[1..], b);
      assert first + (later + left) == first + later + left;
      if steps[0].RunBlockStep? && steps[0].x.shard == b {
        BlockSeenLater(sys, steps[0].x, steps);
      } else {
        assert [] + later == later;
      }
    }
  }

  lemma {:induction false} OnlyYields(sys: System, steps: seq<SystemStep>, b: ShardId)
    requires IsTrace(sys, steps)
    ensures forall i :: 0 <= i < |DeliveredTo(steps, b)| ==> DeliveredTo(steps, b)[i].Yield?
    decreases |steps|
  {
    hide ValidSystem, After, Rest, ValidInfo, Conserves, Broadcastable, FreshHash;
    if steps != [] {
      OnlyYields(After(sys, steps[0]), steps[1..], b);
    }
  }

  lemma NumberedFrom(roots: seq<RootBlock>, base: nat)
    requires RootsOk(roots)
    ensures Numbered(PathOf(roots, base), base)
  {
    hide HeadersBelow, Joined;
  }

  /** At its first position a shard has its whole flat sequence ahead of it. */
  lemma AllAhead(c: Chain, path: seq<RootBlock>, base: nat)
    requires ValidInfo(c, path, base, CursorInfo(base, 0, 0))
    ensures Rest(c, path, base, CursorInfo(base, 0, 0)) == Stream(c, path)
  {
    if path != [] {
      RestAtStart(c, path, base);
    }
  }

  /**
   * Along every run from genesis the deposits a shard has delivered are a prefix of the flat sequence of its root
   * chain as the shard reads it now, fault-free and each position once; what is left is what its saved position
   * has ahead of it.
   */
  lemma ExactlyOnceInRuns(cfg: SK.Config, genesisToken: Token, feeRate: Rate, geneses: map<ShardId, nat>,
                          alloc: map<ShardId, Balances>, steps: seq<SystemStep>, b: ShardId)
    requires geneses.Keys <= alloc.Keys && b in geneses
    requires IsTrace(Genesis(cfg, genesisToken, feeRate, geneses, alloc), steps)
    ensures var sys := Final(Genesis(cfg, genesisToken, feeRate, geneses, alloc), steps);
            && b in sys.shards
            && var st, path, delivered := sys.shards[b], PathOf(sys.roots, geneses[b]), DeliveredTo(steps, b);
            && ValidInfo(st.chain, path, geneses[b], st.info)
            && Stream(st.chain, path) == delivered + Rest(st.chain, path, geneses[b], st.info)
            && (forall i :: 0 <= i < |delivered| ==> delivered[i].Yield?)
            && forall i, j :: 0 <= i < j < |delivered| ==> Less(delivered[i].at, delivered[j].at)
  {
    var start := Genesis(cfg, genesisToken, feeRate, geneses, alloc);
    assert b in start.shards && start.shards[b].info == CursorInfo(geneses[b], 0, 0) && Base(start.shards[b]) == geneses[b];
    hide ValidSystem, Rest, Stream, ValidInfo, IsTrace, DeliveredTo, Increasing, Final, Genesis, RootsOk, PathOf;
    var sys, base := Final(start, steps), geneses[b];
    RunDelivers(start, steps, b);
    OnlyYields(start, steps, b);
    ConservationOverRuns(start, steps, 0);
    SystemRoots(sys);
    NumberedFrom(sys.roots, base);
    var c, path := sys.shards[b].chain, PathOf(sys.roots, base);
    AllAhead(c, path, base);
    StreamIncreasing(c, path, base);
    var s, delivered := Stream(c, path), DeliveredTo(steps, b);
    forall i, j | 0 <= i < j < |delivered|
      ensures Less(delivered[i].at, delivered[j].at)
    {
      assert s[i] == delivered[i] && s[j] == delivered[j];
      PositionsDistinct(CursorInfo(base, 0, 0), s, i, j);
    }
  }
}
