/**
 * The initialization of the 33rd shard makes shards lose neighbours, and with them deposits on their way:
 * a run from genesis of a cluster with 33 chains in which money is lost.
 */
module NeighborLoss {
  import opened Sums
  import opened BlockTree
  import opened ChainTypes
  import opened Ledger
  import opened Cursor
  import opened Delivery
  import opened Execution
  import opened Conservation
  import SK = ShardKeys

  function ChainId(k: nat): bv32
    requires k < 33
  {
    k as bv8 as bv32
  }

  /** The one shard of the k-th chain. */
  function ShardOf(k: nat): ShardId
    requires k < 33
  {
    ShardId(SK.Join(ChainId(k), 1, 0))
  }

  /** The shards of the chains below n. */
  function Shards(n: nat): set<ShardId>
    requires n <= 33
  {
    if n == 0 then {} else Shards(n - 1) + {ShardOf(n - 1)}
  }

  lemma ShardsStep(n: nat)
    requires 0 < n <= 33
    ensures Shards(n) == Shards(n - 1) + {ShardOf(n - 1)}
  {
  }

  lemma Widened(a: bv8, b: bv8)
    ensures a as bv32 <= 0xFFFF && (a as bv32 == b as bv32 ==> a == b)
  {
  }

  lemma FitsByte(k: nat)
    requires k < 33
    ensures k as bv8 as int == k
  {
  }

  lemma ChainIdsDiffer(j: nat, k: nat)
    requires j < 33 && k < 33
    ensures ChainId(j) <= 0xFFFF && (ChainId(j) == ChainId(k) ==> j == k)
  {
    Widened(j as bv8, k as bv8);
    FitsByte(j);
    FitsByte(k);
  }

  lemma ShardParts(k: nat)
    requires k < 33
    ensures var b := ShardOf(k).branch;
            SK.High(b) == ChainId(k) && SK.ShardSize(b) == 1 && SK.ShardID(b) == 0 && SK.WellFormed(b)
  {
    ChainIdsDiffer(k, k);
    assert SK.ValidSize(1);
    hide ChainId, SK.ValidSize, SK.Join, SK.High, SK.ShardSize, SK.ShardID, SK.WellFormed;
    SK.BranchRoundTrip(ChainId(k), 1, 0);
    SK.JoinedLow(ChainId(k), 1, 0);
  }

  lemma ShardsDiffer(j: nat, k: nat)
    requires j < 33 && k < 33 && ShardOf(j) == ShardOf(k)
    ensures j == k
  {
    hide ShardOf, ChainId, SK.High, SK.ShardSize, SK.ShardID, SK.WellFormed;
    ShardParts(j);
    ShardParts(k);
    ChainIdsDiffer(j, k);
  }

  lemma {:induction false} ShardsAre(n: nat, b: ShardId)
    requires n <= 33
    ensures b in Shards(n) <==> exists k :: 0 <= k < n && b == ShardOf(k)
  {
    hide ShardOf;
    if n > 0 {
      ShardsAre(n - 1, b);
    }
  }

  lemma NotYet(n: nat, k: nat)
    requires n <= k < 33
    ensures ShardOf(k) !in Shards(n)
  {
    hide Shards, ShardOf;
    ShardsAre(n, ShardOf(k));
    if j :| 0 <= j < n && ShardOf(k) == ShardOf(j) {
      ShardsDiffer(j, k);
    }
  }

  lemma {:induction false} CountShards(n: nat)
    requires n <= 33
    ensures |Shards(n)| == n
  {
    hide ShardOf;
    if n > 0 {
      CountShards(n - 1);
      NotYet(n - 1, n - 1);
    }
  }

  // ---------- the cluster ----------

  function ChainIds(): set<bv32> {
    set k | 0 <= k < 33 :: ChainId(k)
  }

  /** 33 chains of one shard each; the last one starts at root height 1. */
  function Chains(): SK.Config {
    SK.Config(map c | c in ChainIds() :: 1)
  }

  function Geneses(): map<ShardId, nat> {
    map b | b in Shards(33) :: if b == ShardOf(32) then 1 else 0
  }

  lemma InitializedBy()
    ensures Initialized(Geneses(), 1) == Shards(32) && Initialized(Geneses(), 2) == Shards(33)
  {
    hide ShardOf, Shards;
    ShardsStep(33);
    NotYet(32, 32);
  }

  lemma AllConfigured(b: ShardId)
    requires b in Shards(33)
    ensures SK.IsShard(Chains(), b.branch)
  {
    hide Shards, ShardOf, ChainId, SK.High, SK.ShardSize, SK.ShardID, SK.WellFormed;
    ShardsAre(33, b);
    var k :| 0 <= k < 33 && b == ShardOf(k);
    ShardParts(k);
    assert ChainId(k) in ChainIds();
  }

  lemma ConfigIsValid()
    ensures SK.ValidConfig(Chains())
  {
    assert SK.ValidSize(1);
    hide SK.ValidSize;
    forall c | c in ChainIds()
      ensures c <= 0xFFFF
    {
      var k :| 0 <= k < 33 && ChainId(k) == c;
      ChainIdsDiffer(k, k);
    }
  }

  function Sender(): ShardId {
    ShardOf(0)
  }

  function Receiver(): ShardId {
    ShardOf(3)
  }

  /** The receiver is a neighbour of the sender at root height 1, and no longer at height 2. */
  lemma ReceiverIsLost()
    ensures Sender() != Receiver() && Sender() in Shards(33) && Receiver() in Shards(33)
    ensures Geneses()[Sender()] == 0 && Geneses()[Receiver()] == 0
    ensures Receives(Geneses(), Sender(), 1, Receiver())
    ensures !SK.IsNeighbor(Receiver().branch, Sender().branch, |Initialized(Geneses(), 2)|)
  {
    assert !SK.IsP2(SK.Distance(3, 0));
    assert ChainId(0) == 0 && ChainId(3) == 3;
    hide Shards, ShardOf, ChainId, SK.High, SK.ShardSize, SK.ShardID, SK.WellFormed, SK.IsP2, SK.Distance;
    InitializedBy();
    CountShards(32);
    CountShards(33);
    ShardsAre(32, Sender());
    ShardsAre(33, Sender());
    ShardsAre(32, Receiver());
    ShardsAre(33, Receiver());
    ShardParts(0);
    ShardParts(3);
    NotYet(32, 32);
  }

  function Sent(v: nat): Deposit {
    Deposit(7, 0, 1, 0x0003_0000, v, 0, 0, 0, 0, [], false, false, 0)
  }

  lemma SentToReceiver(v: nat, b: ShardId)
    ensures Target(Chains(), Sent(v)) == Some(Receiver())
    ensures SentTo(Chains(), [Sent(v)], b) == if b == Receiver() then [Sent(v)] else []
  {
    assert ChainId(3) == 3 && ChainId(3) in ChainIds();
    assert SK.High(0x0003_0000) == 3 && SK.FullShardID(0x0003_0000, 1) == SK.Join(3, 1, 0);
    hide SK.High, SK.FullShardID, SK.Join, ChainIds;
    assert [Sent(v)][1..] == [];
  }

  // ---------- the run ----------

  function Holds(v: nat): Balances {
    map[0 := map[0 := v]]
  }

  function Start(v: nat): System {
    var alloc: map<ShardId, Balances> := map b | b in Shards(33) :: if b == Sender() then Holds(v) else map[];
    Genesis(Chains(), 0, Rate(1, 2), Geneses(), alloc)
  }

  function Root(number: nat, headers: seq<MinorHeader>): RootBlock {
    Block(number + 1, number, number, RootBody(0, 0, 0, headers, 0, 0, 0))
  }

  function Roots(): seq<RootBlock> {
    [Root(0, []), Root(1, [])]
  }

  /** The coinbases of both root blocks, as a shard of token 0 reads them. */
  function Coinbases(branch: ShardId): seq<Event> {
    var c := Chain(branch, 0, 0, map[], map[], map[]);
    [CoinbaseEvent(c, Root(0, [])), CoinbaseEvent(c, Root(1, []))]
  }

  /** The sender's block, mined on the root block at height 1, that delivers both coinbases and sends v. */
  function Sending(v: nat): Exec {
    Exec(Sender(), 9, 2, 1, 0, true, BlockRun(Roots(), Coinbases(Sender()), CursorInfo(2, 0, 0)), Holds(v), Holds(0), [Sent(v)], 0,
         Kept(0, 0, 0), [])
  }

  function Confirming(): RootBlock {
    Root(2, [MinorHeader(9, 8, 1, Sender(), 2, 0)])
  }

  function LossRun(v: nat): seq<SystemStep> {
    [AddRootStep(Root(0, [])), AddRootStep(Root(1, [])), RunBlockStep(Sending(v)), AddRootStep(Confirming())]
  }

  function Mined(v: nat): System {
    RootStep(RootStep(Start(v), Root(0, [])), Root(1, []))
  }

  lemma StartIsValid(v: nat)
    ensures ValidSystem(Start(v))
  {
    hide Shards, ValidSystem, SK.ValidConfig, SK.IsShard;
    ConfigIsValid();
    forall b | b in Shards(33)
      ensures SK.IsShard(Chains(), b.branch)
    {
      AllConfigured(b);
    }
    GenesisIsValid(Chains(), 0, Rate(1, 2), Geneses(), map b | b in Shards(33) :: if b == Sender() then Holds(v) else map[]);
  }

  lemma EmptyRootsFit(v: nat)
    ensures ValidSystem(Start(v)) && CanAddRoot(Start(v), Root(0, []))
    ensures var sys := RootStep(Start(v), Root(0, [])); ValidSystem(sys) && CanAddRoot(sys, Root(1, []))
    ensures ValidSystem(Mined(v))
  {
    hide ValidSystem, Shards, Geneses, Sender;
    StartIsValid(v);
    RootKeepsValid(Start(v), Root(0, []));
    RootKeepsValid(RootStep(Start(v), Root(0, [])), Root(1, []));
  }

  /** An empty root block changes nothing of a shard but the root blocks it knows. */
  lemma EmptyRootKeeps(sys: System, rb: RootBlock)
    requires rb.body.headers == []
    ensures var sys' := RootStep(sys, rb);
            && sys'.pending == sys.pending && sys'.shards.Keys == sys.shards.Keys
            && forall b :: b in sys.shards ==> sys'.shards[b].(chain := sys.shards[b].chain) == sys.shards[b]
                                               && sys'.shards[b].chain.(roots := sys.shards[b].chain.roots) == sys.shards[b].chain
  {
    assert ConfirmedHashes(rb.body.headers) == {};
  }

  lemma StartState(v: nat)
    ensures var sys := Start(v);
            && sys.shards.Keys == Shards(33) && Sender() in sys.shards
            && (forall b :: b in sys.shards ==> sys.shards[b].chain.lists == map[] && sys.shards[b].chain.branch == b
                                                && sys.shards[b].chain.geneses == Geneses())
    ensures var st := Start(v).shards[Sender()];
            Base(st) == 0 && st.seen == 0 && st.info == CursorInfo(0, 0, 0) && st.balances == Holds(v)
  {
    ReceiverIsLost();
    hide Shards, Sender, Receiver;
  }

  /** Where the shards and the root chain are when the sender's block comes. */
  lemma MinedState(v: nat)
    ensures var sys := Mined(v);
            && sys.cfg == Chains() && sys.genesisToken == 0 && sys.feeRate == Rate(1, 2) && sys.geneses == Geneses() && sys.pending == map[]
            && sys.roots == Roots() && sys.shards.Keys == Shards(33) && Sender() in sys.shards
            && (forall b :: b in sys.shards ==> sys.shards[b].chain.lists == map[] && sys.shards[b].chain.branch == b
                                                && sys.shards[b].chain.geneses == Geneses())
    ensures var st := Mined(v).shards[Sender()];
            Base(st) == 0 && st.seen == 0 && st.info == CursorInfo(0, 0, 0) && st.balances == Holds(v)
  {
    hide Shards, Sender, Geneses, AfterRoot;
    StartState(v);
    EmptyRootKeeps(Start(v), Root(0, []));
    EmptyRootKeeps(RootStep(Start(v), Root(0, [])), Root(1, []));
  }

  /** All that lies ahead of the sender is both coinbases. */
  lemma AllAhead(c: Chain)
    requires c.genesisToken == 0
    ensures ValidInfo(c, Roots(), 0, CursorInfo(0, 0, 0)) && ValidInfo(c, Roots(), 0, CursorInfo(2, 0, 0))
    ensures Rest(c, Roots(), 0, CursorInfo(0, 0, 0)) == Coinbases(c.branch)
    ensures Rest(c, Roots(), 0, CursorInfo(2, 0, 0)) == []
  {
    RestAtStart(c, Roots(), 0);
    hide CoinbaseDeposit;
    assert Roots()[1..] == [Root(1, [])] && [Root(1, [])][1..] == [];
    var d := Chain(c.branch, 0, 0, map[], map[], map[]);
    assert CoinbaseEvent(c, Root(0, [])) == CoinbaseEvent(d, Root(0, [])) by { SameCoinbase(c, d, Root(0, [])); }
    assert CoinbaseEvent(c, Root(1, [])) == CoinbaseEvent(d, Root(1, [])) by { SameCoinbase(c, d, Root(1, [])); }
    assert Stream(c, [Root(1, [])]) == [CoinbaseEvent(c, Root(1, []))];
  }

  lemma SameCoinbase(c: Chain, d: Chain, rb: RootBlock)
    requires c.branch == d.branch && c.genesisToken == d.genesisToken
    ensures CoinbaseDeposit(c, rb) == CoinbaseDeposit(d, rb)
  {
  }

  lemma CoinbasesAreEmpty(branch: ShardId, u: Token)
    ensures Money(DepositsOf(Coinbases(branch)), u) == 0
  {
    hide SK.IsInBranch;
    var es := Coinbases(branch);
    assert es[..1] == [es[0]] && [es[0]][..0] == [];
    assert DepositsOf([es[0]]) == [es[0].deposit];
    assert DepositsOf(es) == [es[0].deposit, es[1].deposit];
    var first, second := es[0].deposit, es[1].deposit;
    assert Carried(first, u) == 0 && Carried(second, u) == 0;
    assert Money([second], u) == 0 by { assert [second][1..] == []; }
    assert [first, second][1..] == [second];
  }

  lemma Balanced(v: nat)
    ensures Conserves(0, Holds(v), Holds(0), DepositsOf(Coinbases(Sender())), [Sent(v)], Kept(0, 0, 0), []) && Solvent(Holds(v))
  {
    hide Coinbases, Sender;
    forall u
      ensures Total(Holds(0), u) + Money([Sent(v)], u) == Total(Holds(v), u) + Money(DepositsOf(Coinbases(Sender())), u)
    {
      assert [Sent(v)][1..] == [];
      CoinbasesAreEmpty(Sender(), u);
      SumSingle(map[0 := 0], 0);
      SumSingle(map[0 := v], 0);
    }
  }

  /** The sender's cursor delivers both coinbases and nothing else. */
  lemma SenderIsRun(c: Chain)
    requires c.genesisToken == 0 && c.branch == Sender()
    ensures var run := BlockRun(Roots(), Coinbases(Sender()), CursorInfo(2, 0, 0));
            ValidInfo(c, Roots(), 0, CursorInfo(0, 0, 0)) && IsRun(c, 0, CursorInfo(0, 0, 0), run) && run.delivered != []
  {
    hide Sender, ValidInfo, Rest, Stream, Coinbases;
    AllAhead(c);
    CoinbasesAreYields();
    assert Coinbases(Sender()) + [] == Coinbases(Sender());
  }

  lemma SenderIsGood(v: nat)
    ensures Sender() in Mined(v).shards && GoodRun(Mined(v), Mined(v).shards[Sender()], Sending(v))
  {
    hide Shards, Sender, Receiver, Mined, Solvent, Conserves, ValidSystem, ValidInfo, Rest, Follows, Chains, Geneses, Holds,
      RootsOk, Coinbases, IsRun;
    EmptyRootsFit(v);
    MinedState(v);
    var sys := Mined(v);
    ShardIsValid(sys, Sender());
    assert sys.roots[..2] == sys.roots && PathOf(sys.roots, 0) == sys.roots;
    SenderIsRun(sys.shards[Sender()].chain);
    Balanced(v);
    Balanced(0);
  }

  lemma SenderRuns(v: nat)
    ensures ValidSystem(Mined(v)) && CanExec(Mined(v), Sending(v))
  {
    hide Shards, Sender, Receiver, Mined, Receives, ValidSystem, Chains, Geneses, Holds, Coinbases, GoodRun;
    EmptyRootsFit(v);
    MinedState(v);
    ReceiverIsLost();
    SentToReceiver(v, Sender());
    SenderIsGood(v);
  }

  lemma CoinbasesAreYields()
    ensures Coinbases(Sender()) != [] && forall e :: e in Coinbases(Sender()) ==> e.Yield?
  {
    hide Sender, CoinbaseDeposit;
  }

  lemma ConfirmingIsNext(sent: seq<Deposit>)
    ensures RootFits(Roots(), map[9 := SentBlock(Sender(), 2, 1, sent)], Confirming())
  {
    hide Sender;
  }

  lemma ConfirmingFits(v: nat)
    ensures ValidSystem(Mined(v)) && CanExec(Mined(v), Sending(v))
    ensures var sys := ExecStep(Mined(v), Sending(v)); ValidSystem(sys) && CanAddRoot(sys, Confirming())
  {
    hide ValidSystem, Mined, Sender, CanExec, RootFits, Confirming, Shards, Geneses, Chains, AfterExec;
    SenderRuns(v);
    ExecKeepsValid(Mined(v), Sending(v));
    MinedState(v);
    ConfirmingIsNext([Sent(v)]);
  }

  /** What one shard loses: the receiver all that was sent. */
  lemma ShardLoss(v: nat, b: ShardId)
    requires b in Shards(33)
    ensures var sys := ExecStep(Mined(v), Sending(v));
            && b in sys.shards && AllPending(sys.pending, Confirming().body.headers)
            && HeaderLoss(sys, Confirming(), Confirming().body.headers, b, 0) == if b == Receiver() then v else 0
  {
    hide ValidSystem, Mined, Sender, Receiver, CanExec, Shards, Chains, Geneses, Initialized, SK.IsNeighbor, SentTo, Receives;
    ConfirmingFits(v);
    MinedState(v);
    ReceiverIsLost();
    SentToReceiver(v, b);
    var sys := ExecStep(Mined(v), Sending(v));
    var headers := Confirming().body.headers;
    assert headers[1..] == [];
    assert HeaderLoss(sys, Confirming(), headers[1..], b, 0) == 0;
    assert [Sent(v)][1..] == [];
    assert sys.shards[b].chain.branch == b && sys.shards[b].chain.geneses == Geneses();
    assert sys.pending[9].deposits == [Sent(v)] && sys.cfg == Chains();
    assert Money([Sent(v)], 0) == v;
    assert b == Receiver() ==> Skipped(sys.shards[b].chain, Confirming(), headers[0]);
  }

  lemma AllIsLost(v: nat)
    ensures var sys := ExecStep(Mined(v), Sending(v));
            AllPending(sys.pending, Confirming().body.headers) && Lost(sys, Confirming(), 0) == v
  {
    hide ValidSystem, Mined, Sender, Receiver, Shards, HeaderLoss, Confirming, CanAddRoot, CanExec, ExecStep;
    ReceiverIsLost();
    ShardLoss(v, Receiver());
    var sys := ExecStep(Mined(v), Sending(v));
    assert sys.shards.Keys == Shards(33) by { MinedState(v); KeysKept(Mined(v), Sending(v)); }
    forall b | b in sys.shards
      ensures Losses(sys, Confirming(), 0)[b] == if b == Receiver() then v else 0
    {
      ShardLoss(v, b);
    }
    SumSingle(Losses(sys, Confirming(), 0), Receiver());
  }

  lemma KeysKept(sys: System, x: Exec)
    ensures ExecStep(sys, x).shards.Keys == sys.shards.Keys
  {
    hide AfterExec;
  }

  lemma OneStep(sys: System, step: SystemStep, rest: seq<SystemStep>, t: Token)
    requires ValidSystem(sys) && Can(sys, step) && IsTrace(After(sys, step), rest)
    ensures IsTrace(sys, [step] + rest)
    ensures LostOver(sys, [step] + rest, t) == LostIn(sys, step, t) + LostOver(After(sys, step), rest, t)
  {
    hide ValidSystem, Can, After, LostIn;
    assert ([step] + rest)[1..] == rest;
  }

  lemma NoHeadersNoLoss(sys: System, rb: RootBlock, t: Token)
    requires rb.body.headers == []
    ensures Lost(sys, rb, t) == 0
  {
    SumZero(Losses(sys, rb, t));
  }

  /**
   * From the genesis of a cluster with 33 chains: two root blocks, a block that sends v to a shard which is a
   * neighbour then, and the root block that confirms it after the 33rd shard was initialized. All of v is lost.
   */
  lemma NeighborLossHappens(v: nat)
    ensures IsTrace(Start(v), LossRun(v)) && LostOver(Start(v), LossRun(v), 0) == v
  {
    hide ValidSystem, Lost, CanExec, CanAddRoot, ExecStep, RootStep, Sender, Shards, Start, IsTrace, LostOver;
    EmptyRootsFit(v);
    ConfirmingFits(v);
    AllIsLost(v);
    var s0, s2, s3 := Start(v), Mined(v), ExecStep(Mined(v), Sending(v));
    var s1 := RootStep(s0, Root(0, []));
    var a, b, x, d := AddRootStep(Root(0, [])), AddRootStep(Root(1, [])), RunBlockStep(Sending(v)), AddRootStep(Confirming());
    RootKeepsValid(s3, Confirming());
    NoHeadersNoLoss(s0, Root(0, []), 0);
    NoHeadersNoLoss(s1, Root(1, []), 0);
    EmptyRun(After(s3, d));
    OneStep(s3, d, [], 0);
    OneStep(s2, x, [d] + [], 0);
    OneStep(s1, b, [x] + ([d] + []), 0);
    OneStep(s0, a, [b] + ([x] + ([d] + [])), 0);
    assert LossRun(v) == [a] + ([b] + ([x] + ([d] + [])));
  }

  lemma EmptyRun(sys: System)
    requires ValidSystem(sys)
    ensures IsTrace(sys, []) && forall t :: LostOver(sys, [], t) == 0
  {
  }
}
