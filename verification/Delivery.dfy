/**
 * Exactly-once delivery: along any chain of minor blocks the deposits handed out are a gap-free,
 * duplicate-free prefix of the flat sequence, wherever the gas limit stopped each block.
 */
module Delivery {
  import opened BlockTree
  import opened ChainTypes
  import opened Cursor

  // ---------- resuming on a longer root chain ----------

  lemma {:induction false} ListAppend(height: nat, m: nat, list: seq<Deposit>, d: nat, s: seq<Event>, t: seq<Event>)
    ensures ListThen(height, m, list, d, s + t) == ListThen(height, m, list, d, s) + t
    decreases |list| - d
  {
    if d < |list| {
      ListAppend(height, m, list, d + 1, s, t);
    }
  }

  lemma {:induction false} HeadersAppend(c: Chain, rb: RootBlock, m: nat, s: seq<Event>, t: seq<Event>)
    requires m >= 1
    ensures HeadersThen(c, rb, m, s + t) == HeadersThen(c, rb, m, s) + t
    decreases |rb.body.headers| - m
  {
    if m <= |rb.body.headers| {
      HeadersAppend(c, rb, m + 1, s, t);
      var after := HeadersThen(c, rb, m + 1, s);
      assert [Fault] + (after + t) == [Fault] + after + t;
      var h := rb.body.headers[m - 1];
      if h.hash in c.lists {
        ListAppend(rb.number, m, c.lists[h.hash], 0, after, t);
      }
    }
  }

  lemma {:induction false} StreamAppend(c: Chain, p: seq<RootBlock>, q: seq<RootBlock>)
    ensures Stream(c, p + q) == Stream(c, p) + Stream(c, q)
  {
    hide CoinbaseEvent, HeadersThen;
    if p == [] {
      assert p + q == q;
    } else {
      assert (p + q)[1..] == p[1..] + q;
      StreamAppend(c, p[1..], q);
      HeadersAppend(c, p[0], 1, Stream(c, p[1..]), Stream(c, q));
    }
  }

  lemma RestOfBlockAppend(c: Chain, rb: RootBlock, m: nat, d: nat, s: seq<Event>, t: seq<Event>)
    requires ValidAt(c, rb, m, d)
    ensures RestOfBlock(c, rb, m, d, s + t) == RestOfBlock(c, rb, m, d, s) + t
  {
    hide CoinbaseEvent, HeadersThen, ListThen;
    HeadersAppend(c, rb, m + 1, s, t);
    if m > 0 {
      ListAppend(rb.number, m, c.lists[rb.body.headers[m - 1].hash], d + 1, HeadersThen(c, rb, m + 1, s), t);
    }
  }

  /** At the start of a root block all of it is still ahead. */
  lemma BlockStart(c: Chain, path: seq<RootBlock>)
    requires path != []
    ensures ValidAt(c, path[0], 0, 0)
    ensures RestOfBlock(c, path[0], 0, 0, Stream(c, path[1..])) == Stream(c, path)
  {
    hide CoinbaseEvent, HeadersThen, ListThen;
  }

  /** A position saved on one root chain, resumed on an extension, has just the new blocks more ahead. */
  lemma Resume(c: Chain, p: seq<RootBlock>, q: seq<RootBlock>, base: nat, ci: CursorInfo)
    requires ValidInfo(c, p, base, ci)
    ensures ValidInfo(c, p + q, base, ci)
    ensures Rest(c, p + q, base, ci) == Rest(c, p, base, ci) + Stream(c, q)
  {
    hide RestOfBlock, ValidAt;
    var k := ci.rootBlockHeight - base;
    if k == |p| {
      if q != [] {
        assert (p + q)[k + 1..] == q[1..];
        BlockStart(c, q);
      }
    } else {
      assert (p + q)[k + 1..] == p[k + 1..] + q;
      StreamAppend(c, p[k + 1..], q);
      RestOfBlockAppend(c, p[k], ci.minorBlockIndex, ci.depositIndex, Stream(c, p[k + 1..]), Stream(c, q));
    }
  }

  // ---------- the same events under a growing store ----------

  /** For the headers of rb, c' answers as c does: it knows the same previous root blocks and lists. */
  ghost predicate SameReads(c: Chain, c': Chain, rb: RootBlock) {
    && c'.branch == c.branch && c'.genesisToken == c.genesisToken && c'.geneses == c.geneses
    && c'.genesisRootHeight == c.genesisRootHeight
    && (forall i :: 0 <= i < |rb.body.headers| ==> SameHeader(c, c', rb.body.headers[i]))
  }

  ghost predicate SameHeader(c: Chain, c': Chain, h: MinorHeader) {
    && (h.prevRoot in c.roots <==> h.prevRoot in c'.roots)
    && (h.prevRoot in c.roots ==> c'.roots[h.prevRoot] == c.roots[h.prevRoot])
    && (h.hash in c.lists <==> h.hash in c'.lists)
    && (h.hash in c.lists ==> c'.lists[h.hash] == c.lists[h.hash])
  }

  ghost predicate SameReadsAll(c: Chain, c': Chain, path: seq<RootBlock>) {
    forall i :: 0 <= i < |path| ==> SameReads(c, c', path[i])
  }

  lemma HeaderAgrees(c: Chain, c': Chain, rb: RootBlock, m: nat, after: seq<Event>)
    requires 1 <= m <= |rb.body.headers| && SameReads(c, c', rb)
    ensures HeaderThen(c', rb, m, after) == HeaderThen(c, rb, m, after)
  {
    hide ListThen, Neighbor;
    assert SameHeader(c, c', rb.body.headers[m - 1]);
    SameNeighbors(c, c', rb.body.headers[m - 1].branch, rb.number);
  }

  lemma SameNeighbors(c: Chain, c': Chain, b: ShardId, height: nat)
    requires c'.branch == c.branch && c'.geneses == c.geneses
    ensures Neighbor(c', b, height) <==> Neighbor(c, b, height)
  {
  }

  lemma {:induction false} HeadersAgree(c: Chain, c': Chain, rb: RootBlock, m: nat, after: seq<Event>)
    requires m >= 1 && SameReads(c, c', rb)
    ensures HeadersThen(c', rb, m, after) == HeadersThen(c, rb, m, after)
    decreases |rb.body.headers| - m
  {
    hide HeaderThen, SameReads;
    if m <= |rb.body.headers| {
      HeadersAgree(c, c', rb, m + 1, after);
      HeaderAgrees(c, c', rb, m, HeadersThen(c, rb, m + 1, after));
    }
  }

  lemma {:induction false} StreamAgrees(c: Chain, c': Chain, path: seq<RootBlock>)
    requires SameReadsAll(c, c', path)
    ensures Stream(c', path) == Stream(c, path)
  {
    hide HeadersThen;
    if path != [] {
      assert SameReads(c, c', path[0]);
      assert SameReadsAll(c, c', path[1..]);
      StreamAgrees(c, c', path[1..]);
      HeadersAgree(c, c', path[0], 1, Stream(c, path[1..]));
      assert CoinbaseDeposit(c', path[0]) == CoinbaseDeposit(c, path[0]);
    }
  }

  lemma ReadableAgrees(c: Chain, c': Chain, rb: RootBlock, m: nat, d: nat)
    requires SameReads(c, c', rb) && ValidAt(c, rb, m, d)
    ensures ValidAt(c', rb, m, d)
    ensures m > 0 ==> c'.lists[rb.body.headers[m - 1].hash] == c.lists[rb.body.headers[m - 1].hash]
  {
    hide Neighbor;
    if m > 0 {
      var h := rb.body.headers[m - 1];
      assert SameHeader(c, c', h);
      SameNeighbors(c, c', h.branch, rb.number);
    }
  }

  lemma BlockAgrees(c: Chain, c': Chain, rb: RootBlock, m: nat, d: nat, after: seq<Event>)
    requires SameReads(c, c', rb) && ValidAt(c, rb, m, d)
    ensures ValidAt(c', rb, m, d) && RestOfBlock(c', rb, m, d, after) == RestOfBlock(c, rb, m, d, after)
  {
    ReadableAgrees(c, c', rb, m, d);
    HeadersAgree(c, c', rb, m + 1, after);
    assert CoinbaseDeposit(c', rb) == CoinbaseDeposit(c, rb);
    hide HeadersThen, ListThen, CoinbaseDeposit, ValidAt, SameReads;
  }

  /** A saved position stays valid and has the same events ahead when more is stored. */
  lemma RestAgrees(c: Chain, c': Chain, path: seq<RootBlock>, base: nat, ci: CursorInfo)
    requires SameReadsAll(c, c', path) && ValidInfo(c, path, base, ci)
    ensures ValidInfo(c', path, base, ci) && Rest(c', path, base, ci) == Rest(c, path, base, ci)
  {
    hide RestOfBlock, ValidAt, Stream, SameReads;
    var k := ci.rootBlockHeight - base;
    if k < |path| {
      var later := path[k + 1..];
      assert forall i :: 0 <= i < |later| ==> later[i] == path[k + 1 + i];
      assert SameReadsAll(c, c', later);
      StreamAgrees(c, c', later);
      BlockAgrees(c, c', path[k], ci.minorBlockIndex, ci.depositIndex, Stream(c, later));
    }
  }

  // ---------- positions only grow ----------

  predicate Less(a: CursorInfo, b: CursorInfo) {
    || a.rootBlockHeight < b.rootBlockHeight
    || (a.rootBlockHeight == b.rootBlockHeight && a.minorBlockIndex < b.minorBlockIndex)
    || (a.rootBlockHeight == b.rootBlockHeight && a.minorBlockIndex == b.minorBlockIndex
        && a.depositIndex < b.depositIndex)
  }

  /** The positions of s strictly increase, and none is below lo. */
  ghost predicate Increasing(lo: CursorInfo, s: seq<Event>)
    decreases |s|
  {
    s != [] ==>
      match s[0]
      case Fault => Increasing(lo, s[1..])
      case Yield(at, _) => !Less(at, lo) && Increasing(at.(depositIndex := at.depositIndex + 1), s[1..])
  }

  lemma {:induction false} IncreasingWeaken(lo: CursorInfo, hi: CursorInfo, s: seq<Event>)
    requires Increasing(hi, s) && !Less(hi, lo)
    ensures Increasing(lo, s)
    decreases |s|
  {
    if s != [] && s[0].Fault? {
      IncreasingWeaken(lo, hi, s[1..]);
    }
  }

  lemma {:induction false} ListIncreasing(height: nat, m: nat, list: seq<Deposit>, d: nat, after: seq<Event>)
    requires Increasing(CursorInfo(height, m + 1, 0), after)
    ensures Increasing(CursorInfo(height, m, d), ListThen(height, m, list, d, after))
    decreases |list| - d
  {
    if d < |list| {
      ListIncreasing(height, m, list, d + 1, after);
      assert ListThen(height, m, list, d, after)[1..] == ListThen(height, m, list, d + 1, after);
    } else {
      IncreasingWeaken(CursorInfo(height, m, d), CursorInfo(height, m + 1, 0), after);
    }
  }

  lemma {:induction false} HeadersIncreasing(c: Chain, rb: RootBlock, m: nat, after: seq<Event>)
    requires m >= 1 && Increasing(CursorInfo(rb.number + 1, 0, 0), after)
    ensures Increasing(CursorInfo(rb.number, m, 0), HeadersThen(c, rb, m, after))
    decreases |rb.body.headers| - m
  {
    var lo := CursorInfo(rb.number, m, 0);
    if m > |rb.body.headers| {
      IncreasingWeaken(lo, CursorInfo(rb.number + 1, 0, 0), after);
    } else {
      HeadersIncreasing(c, rb, m + 1, after);
      var tail := HeadersThen(c, rb, m + 1, after);
      IncreasingWeaken(lo, CursorInfo(rb.number, m + 1, 0), tail);
      assert ([Fault] + tail)[1..] == tail;
      var h := rb.body.headers[m - 1];
      if h.hash in c.lists {
        ListIncreasing(rb.number, m, c.lists[h.hash], 0, tail);
      }
    }
  }

  lemma {:induction false} StreamIncreasing(c: Chain, path: seq<RootBlock>, base: nat)
    requires Numbered(path, base)
    ensures Increasing(CursorInfo(base, 0, 0), Stream(c, path))
  {
    hide HeadersThen, CoinbaseDeposit;
    if path != [] {
      StreamIncreasing(c, path[1..], base + 1);
      var tail := HeadersThen(c, path[0], 1, Stream(c, path[1..]));
      HeadersIncreasing(c, path[0], 1, Stream(c, path[1..]));
      IncreasingWeaken(CursorInfo(base, 0, 2), CursorInfo(base, 1, 0), tail);
      assert ([CoinbaseEvent(c, path[0])] + tail)[1..] == tail;
    }
  }

  /** No deposit of the flat sequence has the position of another: later ones are strictly above. */
  lemma {:induction false} PositionsDistinct(lo: CursorInfo, s: seq<Event>, i: nat, j: nat)
    requires Increasing(lo, s) && i < j < |s| && s[i].Yield? && s[j].Yield?
    ensures Less(s[i].at, s[j].at)
    decreases |s|
  {
    var lo' := if s[0].Fault? then lo else s[0].at.(depositIndex := s[0].at.depositIndex + 1);
    if i > 0 {
      PositionsDistinct(lo', s[1..], i - 1, j - 1);
    } else {
      AtLeast(lo', s[1..], j - 1);
    }
  }

  lemma {:induction false} AtLeast(lo: CursorInfo, s: seq<Event>, j: nat)
    requires Increasing(lo, s) && j < |s| && s[j].Yield?
    ensures !Less(s[j].at, lo)
    decreases |s|
  {
    if j > 0 {
      var lo' := if s[0].Fault? then lo else s[0].at.(depositIndex := s[0].at.depositIndex + 1);
      AtLeast(lo', s[1..], j - 1);
    }
  }

  // ---------- chains of minor blocks ----------

  /** One minor block's run: the root chain it saw, the deposits it applied, the position it saved. */
  datatype BlockRun = BlockRun(path: seq<RootBlock>, delivered: seq<Event>, info: CursorInfo)

  /** What running the cursor from a saved position does, wherever it stops. */
  ghost predicate IsRun(c: Chain, base: nat, from: CursorInfo, run: BlockRun) {
    && ValidInfo(c, run.path, base, from) && ValidInfo(c, run.path, base, run.info)
    && (forall e :: e in run.delivered ==> e.Yield?)
    && Rest(c, run.path, base, from) == run.delivered + Rest(c, run.path, base, run.info)
  }

  /**
   * Consecutive minor blocks on root chains that extend each other, from a starting position. Each block
   * runs on the store as it is by then: root blocks and lists come in between, but for the headers a
   * block has seen confirmed the store goes on answering as it did.
   */
  ghost predicate IsMinorChain(cs: seq<Chain>, base: nat, from: CursorInfo, runs: seq<BlockRun>)
    requires |cs| == |runs|
    decreases |runs|
  {
    runs != [] ==>
      && IsRun(cs[0], base, from, runs[0])
      && IsMinorChain(cs[1..], base, runs[0].info, runs[1..])
      && (|runs| > 1 ==> runs[0].path <= runs[1].path && SameReadsAll(cs[0], cs[1], runs[0].path))
  }

  function Delivered(runs: seq<BlockRun>): seq<Event> {
    if runs == [] then [] else runs[0].delivered + Delivered(runs[1..])
  }

  /** The last store of a chain reads what the first block has seen as the first store does. */
  lemma {:induction false} LastReadsSame(cs: seq<Chain>, base: nat, from: CursorInfo, runs: seq<BlockRun>)
    requires |cs| == |runs| > 0 && IsMinorChain(cs, base, from, runs)
    ensures runs[0].path <= runs[|runs| - 1].path && SameReadsAll(cs[0], cs[|cs| - 1], runs[0].path)
    decreases |runs|
  {
    hide IsRun;
    if |runs| > 1 {
      LastReadsSame(cs[1..], base, runs[0].info, runs[1..]);
      ReadsSameTwice(cs[0], cs[1], cs[|cs| - 1], runs[0].path, runs[1].path);
    }
  }

  lemma ReadsSameTwice(a: Chain, b: Chain, c: Chain, p: seq<RootBlock>, q: seq<RootBlock>)
    requires SameReadsAll(a, b, p) && SameReadsAll(b, c, q) && p <= q
    ensures SameReadsAll(a, c, p)
  {
    forall i | 0 <= i < |p|
      ensures SameReads(a, c, p[i])
    {
      assert SameReads(a, b, p[i]) && q[i] == p[i] && SameReads(b, c, q[i]);
      forall j | 0 <= j < |p[i].body.headers|
        ensures SameHeader(a, c, p[i].body.headers[j])
      {
        assert SameHeader(a, b, p[i].body.headers[j]) && SameHeader(b, c, p[i].body.headers[j]);
      }
    }
  }

  /** One block's run, as seen on a later store and a longer root chain. */
  lemma RunSeenLater(c: Chain, c': Chain, base: nat, from: CursorInfo, run: BlockRun, path: seq<RootBlock>)
    requires IsRun(c, base, from, run) && SameReadsAll(c, c', run.path) && run.path <= path
    ensures ValidInfo(c', path, base, from) && ValidInfo(c', path, base, run.info)
    ensures Rest(c', path, base, from) == run.delivered + Rest(c', path, base, run.info)
  {
    hide Rest, ValidInfo, Stream, SameReadsAll;
    var p, q := run.path, path[|run.path|..];
    assert path == p + q;
    RestAgrees(c, c', p, base, from);
    RestAgrees(c, c', p, base, run.info);
    Resume(c', p, q, base, from);
    Resume(c', p, q, base, run.info);
    assert run.delivered + Rest(c', p, base, run.info) + Stream(c', q)
        == run.delivered + (Rest(c', p, base, run.info) + Stream(c', q));
  }

  lemma {:induction false} ChainDelivery(cs: seq<Chain>, base: nat, from: CursorInfo, runs: seq<BlockRun>)
    requires |cs| == |runs| > 0 && IsMinorChain(cs, base, from, runs)
    ensures var c, last := cs[|cs| - 1], runs[|runs| - 1];
            && runs[0].path <= last.path
            && ValidInfo(c, last.path, base, from) && ValidInfo(c, last.path, base, last.info)
            && Rest(c, last.path, base, from) == Delivered(runs) + Rest(c, last.path, base, last.info)
    decreases |runs|
  {
    hide Rest, ValidInfo, Stream, SameReadsAll;
    var c, last := cs[|cs| - 1], runs[|runs| - 1];
    if |runs| == 1 {
      assert Delivered(runs) == runs[0].delivered + [];
    } else {
      ChainDelivery(cs[1..], base, runs[0].info, runs[1..]);
      LastReadsSame(cs, base, from, runs);
      RunSeenLater(cs[0], c, base, from, runs[0], last.path);
      assert runs[0].delivered + (Delivered(runs[1..]) + Rest(c, last.path, base, last.info))
          == Delivered(runs) + Rest(c, last.path, base, last.info);
    }
  }

  /** At the first position everything is still ahead. */
  lemma RestAtStart(c: Chain, path: seq<RootBlock>, base: nat)
    requires path != [] && ValidInfo(c, path, base, CursorInfo(base, 0, 0))
    ensures Rest(c, path, base, CursorInfo(base, 0, 0)) == Stream(c, path)
  {
    hide RestOfBlock, ValidAt, Stream;
    BlockStart(c, path);
  }

  /**
   * Every chain of minor blocks from a shard's genesis has delivered a prefix of the flat sequence
   * of its root chain, fault-free and each position once; what is left is what its saved position
   * still has ahead.
   */
  lemma ExactlyOnceDelivery(cs: seq<Chain>, base: nat, runs: seq<BlockRun>)
    requires |cs| == |runs| > 0 && runs[0].path != []
    requires IsMinorChain(cs, base, CursorInfo(base, 0, 0), runs) && Numbered(runs[|runs| - 1].path, base)
    ensures var c, last := cs[|cs| - 1], runs[|runs| - 1];
            && ValidInfo(c, last.path, base, last.info)
            && Stream(c, last.path) == Delivered(runs) + Rest(c, last.path, base, last.info)
            && (forall i :: 0 <= i < |Delivered(runs)| ==> Delivered(runs)[i].Yield?)
            && forall i, j :: 0 <= i < j < |Delivered(runs)| ==>
                 Less(Delivered(runs)[i].at, Delivered(runs)[j].at)
  {
    hide Rest, Stream, ValidInfo, IsMinorChain, Delivered, Increasing;
    var from := CursorInfo(base, 0, 0);
    var c, last := cs[|cs| - 1], runs[|runs| - 1];
    ChainDelivery(cs, base, from, runs);
    RestAtStart(c, last.path, base);
    StreamIncreasing(c, last.path, base);
    DeliveredYields(cs, base, from, runs);
    var s := Stream(c, last.path);
    var n := |Delivered(runs)|;
    forall i, j | 0 <= i < j < n
      ensures Less(Delivered(runs)[i].at, Delivered(runs)[j].at)
    {
      assert s[i] == Delivered(runs)[i] && s[j] == Delivered(runs)[j];
      PositionsDistinct(from, s, i, j);
    }
  }

  lemma {:induction false} DeliveredYields(cs: seq<Chain>, base: nat, from: CursorInfo, runs: seq<BlockRun>)
    requires |cs| == |runs| && IsMinorChain(cs, base, from, runs)
    ensures forall i :: 0 <= i < |Delivered(runs)| ==> Delivered(runs)[i].Yield?
    decreases |runs|
  {
    hide Rest, ValidInfo;
    if runs != [] {
      DeliveredYields(cs[1..], base, runs[0].info, runs[1..]);
    }
  }

  // ---------- when the cursor can read a root block ----------

  ghost predicate FaultFree(s: seq<Event>) {
    forall e :: e in s ==> e.Yield?
  }

  /** The cursor reads this header: it passes it over or finds just the list it expects. */
  ghost predicate HeaderOk(c: Chain, rb: RootBlock, h: MinorHeader) {
    Skipped(c, rb, h) || (h.prevRoot in c.roots && (TooEarly(c, h) <==> h.hash !in c.lists))
  }

  lemma {:induction false} ListFaultFree(height: nat, m: nat, list: seq<Deposit>, d: nat, after: seq<Event>)
    ensures FaultFree(ListThen(height, m, list, d, after)) <==> FaultFree(after)
    decreases |list| - d
  {
    if d < |list| {
      ListFaultFree(height, m, list, d + 1, after);
      var e := Yield(CursorInfo(height, m, d), list[d]);
      var tail := ListThen(height, m, list, d + 1, after);
      assert forall x :: x in [e] + tail <==> x == e || x in tail;
    }
  }

  lemma {:induction false} HeadersFaultFree(c: Chain, rb: RootBlock, m: nat)
    requires m >= 1
    ensures FaultFree(HeadersThen(c, rb, m, [])) <==>
            forall i :: m - 1 <= i < |rb.body.headers| ==> HeaderOk(c, rb, rb.body.headers[i])
    decreases |rb.body.headers| - m
  {
    if m <= |rb.body.headers| {
      HeadersFaultFree(c, rb, m + 1);
      var tail := HeadersThen(c, rb, m + 1, []);
      var h := rb.body.headers[m - 1];
      assert Fault in [Fault] + tail;
      if h.hash in c.lists {
        ListFaultFree(rb.number, m, c.lists[h.hash], 0, tail);
      }
      assert FaultFree(HeadersThen(c, rb, m, [])) <==> HeaderOk(c, rb, h) && FaultFree(tail);
    }
  }

  /** A root block is read without error exactly when every one of its headers is HeaderOk. */
  lemma RootBlockReadable(c: Chain, rb: RootBlock)
    ensures FaultFree(Stream(c, [rb])) <==>
            forall i :: 0 <= i < |rb.body.headers| ==> HeaderOk(c, rb, rb.body.headers[i])
  {
    HeadersFaultFree(c, rb, 1);
    assert Stream(c, [rb]) == [CoinbaseEvent(c, rb)] + HeadersThen(c, rb, 1, []);
    var tail := HeadersThen(c, rb, 1, []);
    assert forall x :: x in Stream(c, [rb]) <==> x == CoinbaseEvent(c, rb) || x in tail;
  }

  /** What AddRootBlock asks of the deposit list of another shard's header. */
  predicate AcceptedOnAdd(c: Chain, h: MinorHeader) {
    if h.prevRoot !in c.roots
       || c.roots[h.prevRoot].number == c.genesisRootHeight
       || !Neighbor(c, h.branch, c.roots[h.prevRoot].number)
    then h.hash !in c.lists else h.hash in c.lists
  }

  /** The previous root block of a confirmed header, where it is known, is below the root block. */
  ghost predicate MinedBelow(c: Chain, rb: RootBlock, h: MinorHeader) {
    h.prevRoot in c.roots ==> c.roots[h.prevRoot].number <= rb.number
  }

  /**
   * A header AddRootBlock accepted is readable later exactly when its shard is no neighbour at the root
   * block's own height, or its previous root block is known here.
   */
  lemma AcceptedIsReadable(c: Chain, rb: RootBlock, h: MinorHeader)
    requires Tree(c.roots, c.genesisRootHeight) && h.branch != c.branch && AcceptedOnAdd(c, h) && MinedBelow(c, rb, h)
    ensures HeaderOk(c, rb, h) <==> !Neighbor(c, h.branch, rb.number) || h.prevRoot in c.roots
  {
    hide Neighbor;
    if h.prevRoot in c.roots && Neighbor(c, h.branch, rb.number) {
      NeighborsAreOnlyLost(c, h.branch, c.roots[h.prevRoot].number, rb.number);
    }
  }

  /** An accepted root block is read without a fault exactly if no neighbour's header in it was mined on a
      root block this shard does not know. */
  lemma AcceptedBlockReadable(c: Chain, rb: RootBlock)
    requires Tree(c.roots, c.genesisRootHeight)
    requires forall h :: h in rb.body.headers && h.branch != c.branch ==> AcceptedOnAdd(c, h) && MinedBelow(c, rb, h)
    ensures FaultFree(Stream(c, [rb])) <==>
            forall i :: 0 <= i < |rb.body.headers| ==>
              var h := rb.body.headers[i]; Skipped(c, rb, h) || h.prevRoot in c.roots
  {
    hide Neighbor, Tree, AcceptedOnAdd, Stream;
    RootBlockReadable(c, rb);
    forall i | 0 <= i < |rb.body.headers|
      ensures var h := rb.body.headers[i]; HeaderOk(c, rb, h) <==> Skipped(c, rb, h) || h.prevRoot in c.roots
    {
      var h := rb.body.headers[i];
      if h.branch != c.branch {
        AcceptedIsReadable(c, rb, h);
      }
    }
  }

  lemma FewShards(geneses: map<ShardId, nat>, height: nat)
    ensures |Initialized(geneses, height)| <= |geneses|
  {
    var a, b := Initialized(geneses, height), geneses.Keys;
    assert b == a + (b - a);
  }

  /** A shard created at root height 1, and a neighbour's header mined on root height 0: AddRootBlock accepts
      it without a list, and the cursor cannot read it. */
  lemma UnknownRootFaults()
    ensures var root := (hash, parent, number) => Block(hash, parent, number, RootBody(0, 0, 0, [], 0, 0, 0));
            var c := Chain(ShardId(0x0000_0001), 0, 1, map[2 := root(2, 1, 1), 3 := root(3, 2, 2)], map[],
                           map[ShardId(0x0000_0001) := 1, ShardId(0x0001_0001) := 0]);
            var h := MinorHeader(9, 8, 1, ShardId(0x0001_0001), 1, 0);
            AcceptedOnAdd(c, h) && !HeaderOk(c, c.roots[3], h)
  {
    FewShards(map[ShardId(0x0000_0001) := 1, ShardId(0x0001_0001) := 0], 2);
  }
}
