/**
 * The pool's bookkeeping as values: two lists per account and one lookup by hash. Some transactions may
 * be in hand: taken out of a list, and not yet put anywhere or forgotten.
 */
module PoolState {
  import opened BlockTree
  import opened ChainTypes
  import opened Nonces
  import opened TxLists
  import opened Sums

  type Lists = map<Recipient, ListState>

  datatype Books = Books(pending: Lists, queue: Lists, all: map<Hash, Tx>)

  ghost predicate Has(ls: Lists, a: Recipient, n: nat) {
    a in ls && n in ls[a].txs
  }

  ghost predicate Held(ls: Lists, tx: Tx) {
    Has(ls, tx.from, tx.nonce) && ls[tx.from].txs[tx.nonce] == tx
  }

  /** Lists of one kind, whose transactions stand under their own account and nonce. */
  ghost predicate Proper(ls: Lists, strict: bool) {
    forall a :: a in ls ==> ProperList(ls[a], a, strict)
  }

  ghost predicate ProperList(l: ListState, a: Recipient, strict: bool) {
    l.strict == strict && Capped(l) && forall n :: n in l.txs ==> l.txs[n].from == a
  }

  ghost predicate NoneEmpty(ls: Lists) {
    forall a :: a in ls ==> ls[a].txs != map[]
  }

  /** No account has a nonce both pending and queued. */
  ghost predicate Apart(p: Lists, q: Lists) {
    forall a, n :: Has(p, a, n) ==> !Has(q, a, n)
  }

  /** Transactions in hand have places of their own, free in both lists. */
  ghost predicate Free(b: Books, hand: set<Tx>) {
    && (forall tx :: tx in hand ==> !Has(b.pending, tx.from, tx.nonce) && !Has(b.queue, tx.from, tx.nonce))
    && (forall t, u :: t in hand && u in hand && t.from == u.from && t.nonce == u.nonce ==> t == u)
  }

  ghost predicate Somewhere(b: Books, hand: set<Tx>, tx: Tx) {
    Held(b.pending, tx) || Held(b.queue, tx) || tx in hand
  }

  /** The lookup knows exactly the transactions that are somewhere. */
  ghost predicate Known(b: Books, hand: set<Tx>) {
    && (forall h :: h in b.all ==> b.all[h].hash == h && Somewhere(b, hand, b.all[h]))
    && (forall tx :: Somewhere(b, hand, tx) ==> tx.hash in b.all && b.all[tx.hash] == tx)
  }

  ghost predicate Balanced(b: Books, hand: set<Tx>) {
    Proper(b.pending, true) && Proper(b.queue, false) && Apart(b.pending, b.queue) && Free(b, hand) && Known(b, hand)
  }

  // ---------- moves ----------

  /** Forgetting a transaction in hand. */
  lemma Forget(b: Books, hand: set<Tx>, tx: Tx)
    requires Balanced(b, hand) && tx in hand
    ensures Balanced(b.(all := b.all - {tx.hash}), hand - {tx})
  {
    var b' := b.(all := b.all - {tx.hash});
    forall u
      ensures Somewhere(b', hand - {tx}, u) <==> Somewhere(b, hand, u) && u != tx
    {
    }
  }

  ghost function SetOf(m: Txs): set<Tx> {
    set n | n in m :: m[n]
  }

  /** A list after some of its transactions have been taken out, with whatever caps. */
  ghost predicate Shrunk(l: ListState, l': ListState, out: Txs) {
    && l'.strict == l.strict && Capped(l')
    && l'.txs.Keys !! out.Keys && l.txs == l'.txs + out
  }

  lemma AfterTaking(ls: Lists, strict: bool, a: Recipient, l': ListState, out: Txs)
    requires Proper(ls, strict) && a in ls && Shrunk(ls[a], l', out)
    ensures Proper(ls[a := l'], strict)
    ensures forall tx :: Held(ls, tx) <==> Held(ls[a := l'], tx) || tx in SetOf(out)
    ensures forall x, n :: Has(ls[a := l'], x, n) <==> Has(ls, x, n) && !(x == a && n in out)
    ensures forall tx :: tx in SetOf(out) ==> Held(ls, tx) && tx.from == a && tx.nonce in out && out[tx.nonce] == tx
  {
    hide AllAffordable;
    var ls' := ls[a := l'];
    forall tx
      ensures Held(ls, tx) <==> Held(ls', tx) || tx in SetOf(out)
    {
    }
  }

  /** Taking transactions out of a pending list. */
  lemma TakePending(b: Books, hand: set<Tx>, a: Recipient, l': ListState, out: Txs)
    requires Balanced(b, hand) && a in b.pending && Shrunk(b.pending[a], l', out)
    ensures Balanced(b.(pending := b.pending[a := l']), hand + SetOf(out))
  {
    hide Has, Held, Proper, SetOf, Shrunk;
    AfterTaking(b.pending, true, a, l', out);
    HeldHas(b.pending);
  }

  lemma TakeQueued(b: Books, hand: set<Tx>, a: Recipient, l': ListState, out: Txs)
    requires Balanced(b, hand) && a in b.queue && Shrunk(b.queue[a], l', out)
    ensures Balanced(b.(queue := b.queue[a := l']), hand + SetOf(out))
  {
    hide Has, Held, Proper, SetOf, Shrunk;
    AfterTaking(b.queue, false, a, l', out);
    HeldHas(b.queue);
  }

  lemma HeldHas(ls: Lists)
    ensures forall tx :: Held(ls, tx) ==> Has(ls, tx.from, tx.nonce)
    ensures forall t, u :: Held(ls, t) && Held(ls, u) && t.from == u.from && t.nonce == u.nonce ==> t == u
  {
  }

  function ListFor(ls: Lists, a: Recipient, strict: bool): ListState {
    if a in ls then ls[a] else ListState(strict, map[], map[], 0)
  }

  lemma AfterPutting(ls: Lists, strict: bool, tx: Tx)
    requires Proper(ls, strict) && !Has(ls, tx.from, tx.nonce)
    ensures var ls' := ls[tx.from := Added(ListFor(ls, tx.from, strict), tx)];
            && Proper(ls', strict)
            && (forall u :: Held(ls', u) <==> Held(ls, u) || u == tx)
            && (forall x, n :: Has(ls', x, n) <==> Has(ls, x, n) || (x == tx.from && n == tx.nonce))
  {
    AddedIsCapped(ListFor(ls, tx.from, strict), tx);
  }

  lemma AddedIsCapped(l: ListState, tx: Tx)
    requires Capped(l)
    ensures Capped(Added(l, tx))
  {
  }

  /** Putting a transaction in hand into its account's pending list. */
  lemma PutPending(b: Books, hand: set<Tx>, tx: Tx)
    requires Balanced(b, hand) && tx in hand
    ensures Balanced(b.(pending := b.pending[tx.from := Added(ListFor(b.pending, tx.from, true), tx)]), hand - {tx})
  {
    hide Has, Held, Proper, Added, ListFor;
    AfterPutting(b.pending, true, tx);
    HeldHas(b.pending);
  }

  lemma PutQueued(b: Books, hand: set<Tx>, tx: Tx)
    requires Balanced(b, hand) && tx in hand
    ensures Balanced(b.(queue := b.queue[tx.from := Added(ListFor(b.queue, tx.from, false), tx)]), hand - {tx})
  {
    hide Has, Held, Proper, Added, ListFor;
    AfterPutting(b.queue, false, tx);
    HeldHas(b.queue);
  }

  /** Taking up a transaction with a new hash and a free place. */
  lemma Learn(b: Books, hand: set<Tx>, tx: Tx)
    requires Balanced(b, hand) && tx.hash !in b.all && Free(b, hand + {tx})
    ensures Balanced(b.(all := b.all[tx.hash := tx]), hand + {tx})
  {
    hide Has, Held, Proper;
  }

  lemma DropEmptyPending(b: Books, hand: set<Tx>, a: Recipient)
    requires Balanced(b, hand) && a in b.pending && b.pending[a].txs == map[]
    ensures Balanced(b.(pending := b.pending - {a}), hand)
  {
    var ls' := b.pending - {a};
    assert forall x, n :: Has(ls', x, n) <==> Has(b.pending, x, n);
    assert forall tx :: Held(ls', tx) <==> Held(b.pending, tx);
  }

  lemma DropEmptyQueue(b: Books, hand: set<Tx>, a: Recipient)
    requires Balanced(b, hand) && a in b.queue && b.queue[a].txs == map[]
    ensures Balanced(b.(queue := b.queue - {a}), hand)
  {
    var ls' := b.queue - {a};
    assert forall x, n :: Has(ls', x, n) <==> Has(b.queue, x, n);
    assert forall tx :: Held(ls', tx) <==> Held(b.queue, tx);
  }

  /** A pending transaction replaced by a new one at the same nonce. */
  lemma ReplacePending(b: Books, tx: Tx, prior: Tx)
    requires Balanced(b, {}) && Held(b.pending, prior) && prior.from == tx.from && prior.nonce == tx.nonce
    requires tx.hash !in b.all
    ensures Balanced(Books(b.pending[tx.from := Added(b.pending[tx.from], tx)], b.queue,
                           (b.all - {prior.hash})[tx.hash := tx]), {})
  {
    hide Known, Free, Apart, Proper;
    var a, l := tx.from, b.pending[tx.from];
    var l' := l.(txs := l.txs - {tx.nonce});
    ShrunkByOne(b.pending, true, prior);
    TakePending(b, {}, a, l', map[tx.nonce := prior]);
    var b1 := b.(pending := b.pending[a := l']);
    assert {} + SetOf(map[tx.nonce := prior]) == {prior};
    Forget(b1, {prior}, prior);
    var b2 := b1.(all := b1.all - {prior.hash});
    assert {prior} - {prior} == {};
    FreePlace(b, b2, prior, tx);
    Learn(b2, {}, tx);
    assert {} + {tx} == {tx};
    PutPending(b2.(all := b2.all[tx.hash := tx]), {tx}, tx);
    assert {tx} - {tx} == {};
    assert Added(l', tx) == Added(l, tx);
    assert b2.pending[a := Added(l', tx)] == b.pending[a := Added(l, tx)];
  }

  lemma ShrunkByOne(ls: Lists, strict: bool, tx: Tx)
    requires Proper(ls, strict) && Held(ls, tx)
    ensures var l := ls[tx.from]; Shrunk(l, l.(txs := l.txs - {tx.nonce}), map[tx.nonce := tx])
  {
  }

  /** The place of a pending transaction taken out is free. */
  lemma FreePlace(b: Books, b2: Books, prior: Tx, tx: Tx)
    requires Balanced(b, {}) && Held(b.pending, prior) && prior.from == tx.from && prior.nonce == tx.nonce
    requires var l := b.pending[tx.from]; b2.pending == b.pending[tx.from := l.(txs := l.txs - {tx.nonce})]
    requires b2.queue == b.queue
    ensures Free(b2, {} + {tx})
  {
  }

  /** A queued transaction replaced by a new one at the same nonce. */
  lemma ReplaceQueued(b: Books, tx: Tx, prior: Tx)
    requires Balanced(b, {}) && Held(b.queue, prior) && prior.from == tx.from && prior.nonce == tx.nonce
    requires tx.hash !in b.all
    ensures Balanced(Books(b.pending, b.queue[tx.from := Added(b.queue[tx.from], tx)],
                           (b.all - {prior.hash})[tx.hash := tx]), {})
  {
    hide Known, Free, Apart, Proper;
    var a, l := tx.from, b.queue[tx.from];
    var l' := l.(txs := l.txs - {tx.nonce});
    ShrunkByOne(b.queue, false, prior);
    TakeQueued(b, {}, a, l', map[tx.nonce := prior]);
    var b1 := b.(queue := b.queue[a := l']);
    assert {} + SetOf(map[tx.nonce := prior]) == {prior};
    Forget(b1, {prior}, prior);
    var b2 := b1.(all := b1.all - {prior.hash});
    assert {prior} - {prior} == {};
    FreeInQueue(b, b2, prior, tx);
    Learn(b2, {}, tx);
    assert {} + {tx} == {tx};
    PutQueued(b2.(all := b2.all[tx.hash := tx]), {tx}, tx);
    assert {tx} - {tx} == {};
    assert Added(l', tx) == Added(l, tx);
    assert b2.queue[a := Added(l', tx)] == b.queue[a := Added(l, tx)];
  }

  lemma FreeInQueue(b: Books, b2: Books, prior: Tx, tx: Tx)
    requires Balanced(b, {}) && Held(b.queue, prior) && prior.from == tx.from && prior.nonce == tx.nonce
    requires var l := b.queue[tx.from]; b2.queue == b.queue[tx.from := l.(txs := l.txs - {tx.nonce})]
    requires b2.pending == b.pending
    ensures Free(b2, {} + {tx})
  {
  }

  // ---------- what the list operations take out ----------

  lemma FewerCapped(l: ListState, txs: Txs)
    requires Capped(l) && forall n :: n in txs ==> n in l.txs && txs[n] == l.txs[n]
    ensures Capped(l.(txs := txs))
  {
  }

  lemma ForwardShrinks(l: ListState, n: nat)
    requires Capped(l)
    ensures Shrunk(l, l.(txs := From(l.txs, n)), Below(l.txs, n))
  {
    FewerCapped(l, From(l.txs, n));
  }

  lemma CapShrinks(l: ListState, k: nat)
    requires Capped(l)
    ensures Shrunk(l, l.(txs := Lowest(l.txs, k)), Highest(l.txs, k))
  {
    hide Rank;
    FewerCapped(l, Lowest(l.txs, k));
  }

  lemma ReadyShrinks(l: ListState, start: nat)
    requires Capped(l)
    ensures Shrunk(l, l.(txs := l.txs - Executable(l.txs, start).Keys), Executable(l.txs, start))
  {
    FewerCapped(l, l.txs - Executable(l.txs, start).Keys);
  }

  lemma FilterShrinks(l: ListState, limits: Limits, gasLimit: nat)
    requires Capped(l)
    ensures Shrunk(l, Filtered(l, limits, gasLimit), Unpayable(l, limits, gasLimit) + Invalidated(l, limits, gasLimit))
    ensures Unpayable(l, limits, gasLimit).Keys !! Invalidated(l, limits, gasLimit).Keys
  {
    hide Unpayable, Invalidated, Filtered;
    FilterPartition(l, limits, gasLimit);
    FilterCapped(l, limits, gasLimit);
    FilterKeepsKind(l, limits, gasLimit);
  }

  lemma FilterKeepsKind(l: ListState, limits: Limits, gasLimit: nat)
    requires ByNonce(l.txs)
    ensures Filtered(l, limits, gasLimit).strict == l.strict
  {
  }

  /** An account's transactions; none if it has no list. */
  function Contents(ls: Lists, a: Recipient): Txs {
    if a in ls then ls[a].txs else map[]
  }

  // ---------- counting ----------

  function Len(ls: Lists, a: Recipient): nat {
    if a in ls then |ls[a].txs| else 0
  }

  ghost function Lens(ls: Lists): map<Recipient, int> {
    map a | a in ls :: |ls[a].txs|
  }

  /** The number of transactions in all lists. */
  ghost function Total(ls: Lists): int {
    Sum(Lens(ls))
  }

  lemma TotalAfter(ls: Lists, a: Recipient, l: ListState)
    requires a in ls
    ensures Total(ls[a := l]) == Total(ls) - |ls[a].txs| + |l.txs|
  {
    assert Lens(ls[a := l]) == Lens(ls)[a := |l.txs|];
    SumUpdate(Lens(ls), a, |l.txs|);
  }

  lemma TotalNotNegative(ls: Lists)
    ensures Total(ls) >= 0
  {
    SumNotNegative(Lens(ls));
  }

  /** Goes over the lists and adds up their lengths. */
  method CountTxs(ls: Lists) returns (n: nat)
    ensures n == Total(ls)
  {
    n := 0;
    var left := ls;
    while left != map[]
      invariant n + Total(left) == Total(ls)
      decreases |left|
    {
      var a :| a in left;
      SumRemove(Lens(left), a);
      assert Lens(left - {a}) == Lens(left) - {a};
      assert |left - {a}| < |left| by {
        assert (left - {a}).Keys == left.Keys - {a};
      }
      n := n + |left[a].txs|;
      left := left - {a};
    }
    assert Lens(left) == map[];
  }

  /**
   * Fair eviction: only accounts that are not local lose transactions, none goes below its slots, and
   * after it no account that is not local has more than one that has lost some.
   */
  ghost predicate Fair(before: Lists, after: Lists, locals: set<Recipient>, slots: nat) {
    && (forall a :: Len(after, a) <= Len(before, a))
    && (forall a, b :: Len(after, a) < Len(before, a) && b !in locals ==>
          a !in locals && slots <= Len(after, a) && Len(after, b) <= Len(after, a))
  }

  /** Every list has lost only its highest nonces. */
  ghost predicate Trimmed(before: Lists, after: Lists) {
    forall a :: Contents(after, a) == Lowest(Contents(before, a), |Contents(after, a)|)
  }

  lemma NothingTrimmed(ls: Lists, strict: bool)
    requires Proper(ls, strict)
    ensures Trimmed(ls, ls)
  {
    hide Lowest;
    forall a
      ensures Contents(ls, a) == Lowest(Contents(ls, a), |Contents(ls, a)|)
    {
      assert a in ls ==> ProperList(ls[a], a, strict);
      AllLow(Contents(ls, a), |Contents(ls, a)|);
    }
  }

  lemma TrimOne(before: Lists, ls: Lists, ls': Lists, strict: bool, a: Recipient)
    requires Proper(before, strict) && Trimmed(before, ls) && Contents(ls, a) != map[]
    requires |Contents(ls, a)| <= |Contents(before, a)|
    requires Contents(ls', a) == Lowest(Contents(ls, a), |Contents(ls, a)| - 1)
    requires |Contents(ls', a)| == |Contents(ls, a)| - 1
    requires forall x :: x != a ==> Contents(ls', x) == Contents(ls, x)
    ensures Trimmed(before, ls')
  {
    hide Lowest;
    assert a in before ==> ProperList(before[a], a, strict);
    CapTwice(Contents(before, a), |Contents(ls, a)|, |Contents(ls, a)| - 1);
  }

  /** The accounts that may lose transactions. */
  ghost predicate Spammer(ls: Lists, locals: set<Recipient>, slots: nat, a: Recipient) {
    a in ls && a !in locals && Len(ls, a) > slots
  }

  /** Cutting down some of them to one level that no other exceeds is fair. */
  lemma LevelIsFair(before: Lists, after: Lists, locals: set<Recipient>, slots: nat, cut: seq<Recipient>, m: nat)
    requires slots <= m && forall a :: a !in cut ==> Len(after, a) == Len(before, a)
    requires forall a :: a in cut ==> a !in locals && Len(after, a) == m <= Len(before, a)
    requires forall b :: b !in locals && b !in cut ==> Len(before, b) <= m
    ensures Fair(before, after, locals, slots)
  {
    hide Len;
  }

  lemma SmallUnlessSpammer(ls: Lists, locals: set<Recipient>, slots: nat)
    ensures forall a :: a !in locals && !Spammer(ls, locals, slots, a) ==> Len(ls, a) <= slots
  {
  }

  lemma AllSmall(before: Lists, after: Lists, locals: set<Recipient>, slots: nat, offenders: seq<Recipient>)
    requires forall a :: Spammer(before, locals, slots, a) ==> a in offenders
    requires forall a :: if a in offenders then Len(after, a) <= slots else Len(after, a) == Len(before, a)
    ensures forall a :: a in after && a !in locals ==> Len(after, a) <= slots
  {
    hide Len, Spammer;
    SmallUnlessSpammer(before, locals, slots);
  }

  lemma {:induction false} LargestExists(ls: Lists, s: set<Recipient>)
    requires s != {}
    ensures exists a :: a in s && forall b :: b in s ==> Len(ls, b) <= Len(ls, a)
    decreases |s|
  {
    hide Len;
    var x :| x in s;
    if s == {x} {
      assert forall b :: b in s ==> Len(ls, b) <= Len(ls, x);
    } else {
      LargestExists(ls, s - {x});
      var y :| y in s - {x} && forall b :: b in s - {x} ==> Len(ls, b) <= Len(ls, y);
      var top := if Len(ls, x) > Len(ls, y) then x else y;
      assert forall b :: b in s ==> b == x || b in s - {x};
      assert top in s && forall b :: b in s ==> Len(ls, b) <= Len(ls, top);
    }
  }
}
