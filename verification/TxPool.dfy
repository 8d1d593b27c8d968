/**
 * The transaction pool. After every operation the lookup is exactly the disjoint union of the pending
 * and the queued lists, no nonce of an account is in both, and no stored list is empty.
 */
module TxPool {
  import opened BlockTree
  import opened ChainTypes
  import opened Nonces
  import opened TxLists
  import opened PoolState
  import opened Sums

  datatype Config = Config(
    globalSlots: nat, globalQueue: nat, accountSlots: nat, accountQueue: nat, priceBump: nat)

  /** What the pool reads of the chain's head: nonces, balances and the block gas limit. */
  datatype Head = Head(nonces: Recipient -> nat, balances: Recipient -> Limits, maxGas: nat)

  datatype AddResult = KnownTransaction | Invalid | Underpriced | ReplaceUnderpriced | Queued | Replaced

  /** A transaction to add, with what its validation and the price heap say of it. */
  datatype Incoming = Incoming(tx: Tx, local: bool, valid: bool, underpriced: bool, drop: seq<Hash>)

  datatype Op =
    | Add(incoming: Incoming)
    | Remove(hash: Hash)
    | Promote(accounts: seq<Recipient>)
    | Demote
    | TruncateLists
    | Reorg(newHead: Option<Head>, reinject: seq<Incoming>, dirty: seq<Recipient>)

  /** The next nonce after some were promoted: the one above them, or the same if there were none. */
  ghost predicate Follows(out: Txs, before: nat, next: nat) {
    if out == map[] then next == before else next > 0 && next - 1 in out && forall n :: n in out ==> n < next
  }

  /** What is left of some transactions after the lowest were promoted. */
  ghost predicate LowestGone(out: Txs, left: Txs) {
    forall m, n :: m in out && m !in left && n in left ==> m < n
  }

  lemma FollowsNone(out: Txs, next: nat)
    ensures LowestGone(out, out) && Follows(out - out.Keys, next, next)
  {
    assert out - out.Keys == map[];
  }

  lemma FollowsNext(out: Txs, left: Txs, n: nat, before: nat)
    requires LowestGone(out, left) && n in left && n in out && forall k :: k in left ==> n <= k
    ensures LowestGone(out, left - {n}) && Follows(out - (left - {n}).Keys, before, n + 1)
  {
    assert n in out - (left - {n}).Keys;
  }

  /** Some of an account's transactions have moved to a list, lowest nonce first, and the others are left. */
  ghost predicate Moving(start: Lists, now: Lists, a: Recipient, out: Txs, left: Txs, before: nat, next: nat) {
    && (forall n :: n in left ==> n in out && left[n] == out[n] && out[n].nonce == n && out[n].from == a)
    && Joined(start, now, a, out - left.Keys) && LowestGone(out, left) && Follows(out - left.Keys, before, next)
  }

  lemma MovingNone(ls: Lists, a: Recipient, out: Txs, next: nat)
    requires ByNonce(out) && forall n :: n in out ==> out[n].from == a
    ensures Moving(ls, ls, a, out, out, next, next)
  {
    JoinedNone(ls, a, out);
    FollowsNone(out, next);
  }

  lemma MovingNext(start: Lists, now: Lists, a: Recipient, out: Txs, left: Txs, n: nat, before: nat, next: nat)
    requires Moving(start, now, a, out, left, before, next) && n in left && forall k :: k in left ==> n <= k
    ensures left[n].nonce == n && left[n].from == a
    ensures Moving(start, now[a := Added(ListFor(now, a, true), left[n])], a, out, left - {n}, before, n + 1)
  {
    hide Joined, LowestGone, Follows, Added, ListFor;
    JoinedOne(start, now, now[a := Added(ListFor(now, a, true), left[n])], a, out, left, n, true);
    FollowsNext(out, left, n, before);
  }

  lemma MovingDone(start: Lists, now: Lists, a: Recipient, out: Txs, before: nat, next: nat)
    requires Moving(start, now, a, out, map[], before, next)
    ensures Joined(start, now, a, out) && Follows(out, before, next)
  {
    assert out - {} == out;
  }

  /** All nonces are above a nonce. */
  ghost predicate AllAbove(m: Txs, n: nat) {
    forall k :: k in m ==> k > n
  }

  lemma AboveStill(m: Txs, m': Txs, n: nat)
    requires AllAbove(m, n) && m'.Keys <= m.Keys
    ensures AllAbove(m', n)
  {
  }

  lemma LowestWithin(m: Txs, k: nat)
    ensures Lowest(m, k).Keys <= m.Keys
  {
    hide Rank;
  }

  /** What was given up is of the accounts, and old, unpayable, or more than an account that is not local may queue. */
  ghost predicate GivesUp(before: map<Hash, Tx>, after: map<Hash, Tx>, accounts: seq<Recipient>, head: Head,
                          locals: set<Recipient>) {
    && (forall h :: h in after ==> h in before && after[h] == before[h])
    && (forall h :: h in before && h !in after ==>
          before[h].from in accounts && Expendable(before[h], head, before[h].from !in locals))
  }

  lemma GivesUpNone(all: map<Hash, Tx>, accounts: seq<Recipient>, head: Head, locals: set<Recipient>)
    ensures GivesUp(all, all, accounts, head, locals)
  {
  }

  lemma GivesUpMore(before: map<Hash, Tx>, kept: map<Hash, Tx>, after: map<Hash, Tx>, accounts: seq<Recipient>, head: Head,
                    locals: set<Recipient>, a: Recipient)
    requires GivesUp(before, kept, accounts, head, locals) && a in accounts && LosesOnly(kept, after, a, head, a !in locals)
    ensures GivesUp(before, after, accounts, head, locals)
  {
    hide Expendable;
  }

  /** What capping takes out is no lower than the lowest of the highest. */
  lemma CappedAreAbove(m: Txs, k: nat)
    requires ByNonce(m) && Highest(m, k) != map[] && ByNonce(Highest(m, k))
    ensures forall n :: n in m && n !in Lowest(m, k) ==> Least(Highest(m, k)) <= n
  {
    hide Rank;
    assert forall n :: n in m && n !in Lowest(m, k) ==> n in Highest(m, k);
  }

  lemma NothingFrom(n: nat)
    ensures AllFrom(map[], n) && AllAbove(map[], n)
  {
  }

  /** Once what is executable is taken out, nothing is left at or below the next nonce. */
  lemma NoneLeft(m: Txs, before: nat, next: nat)
    requires ByNonce(m) && Follows(Executable(m, before), before, next)
    ensures AllAbove(m - Executable(m, before).Keys, next)
  {
    var out := Executable(m, before);
    if m != map[] && Least(m) <= before {
      var e := RunEnd(m, Least(m));
      assert Least(m) in out;
      assert e - 1 in m && e - 1 in out;
      assert next == e;
    }
  }

  /** What a list has under a transaction's account and nonce. */
  function Prior(ls: Lists, tx: Tx): Option<Tx> {
    if tx.from in ls && tx.nonce in ls[tx.from].txs then Some(ls[tx.from].txs[tx.nonce]) else None
  }

  /** The lookup with a transaction in place of a prior one. */
  function Replacing(all: map<Hash, Tx>, prior: Option<Tx>, tx: Tx): map<Hash, Tx> {
    (if prior.Some? then all - {prior.value.hash} else all)[tx.hash := tx]
  }

  /** What stands under an account and nonce is known, under that account and nonce. */
  lemma PriorsAreKnown(s: Books, tx: Tx)
    requires Balanced(s, {})
    ensures Prior(s.pending, tx).Some? ==>
              var p := Prior(s.pending, tx).value; p.hash in s.all && s.all[p.hash] == p && p.from == tx.from && p.nonce == tx.nonce
    ensures Prior(s.queue, tx).Some? ==>
              var p := Prior(s.queue, tx).value; p.hash in s.all && s.all[p.hash] == p && p.from == tx.from && p.nonce == tx.nonce
  {
    hide Balanced;
    if Prior(s.pending, tx).Some? {
      PriorIsPending(s, tx);
    }
    if Prior(s.queue, tx).Some? {
      PriorIsHeld(s, tx);
    }
  }

  /** Both kinds of lists are within the pool's limits, as far as accounts that may lose transactions go. */
  ghost predicate WithinLimits(config: Config, locals: set<Recipient>, pending: Lists, queue: Lists) {
    && (|| Total(pending) <= config.globalSlots
        || forall a :: a in pending && a !in locals ==> Len(pending, a) <= config.accountSlots)
    && (Total(queue) <= config.globalQueue || forall a :: a in queue ==> a in locals)
  }

  /** Every pending list starts at its account's nonce. */
  ghost predicate AtHead(head: Head, pending: Lists) {
    forall a :: a in pending ==> AllFrom(pending[a].txs, head.nonces(a)) && head.nonces(a) in pending[a].txs
  }

  lemma FewerFrom(m: Txs, m': Txs, n: nat)
    requires AllFrom(m, n) && m'.Keys <= m.Keys
    ensures AllFrom(m', n)
  {
  }

  /** The pool between two operations. */
  datatype Snap = Snap(books: Books, locals: set<Recipient>, head: Head, nonces: map<Recipient, nat>)

  /** What an operation must have done. */
  ghost predicate OpDone(config: Config, op: Op, s: Snap, s': Snap) {
    match op
    case Add(t) => AddDone(config, t, s, s')
    case Remove(hash) => s'.books.all == s.books.all - {hash}
    case Promote(accounts) =>
      forall a :: a in accounts ==>
        && AllFrom(Contents(s'.books.queue, a), s'.head.nonces(a))
        && AllAbove(Contents(s'.books.queue, a), if a in s'.nonces then s'.nonces[a] else s'.head.nonces(a))
        && (a !in s'.locals ==> |Contents(s'.books.queue, a)| <= config.accountQueue)
    case Demote => AtHead(s'.head, s'.books.pending)
    case TruncateLists => WithinLimits(config, s'.locals, s'.books.pending, s'.books.queue)
    case Reorg(newHead, reinject, dirty) =>
      && s'.head == (if newHead.Some? then newHead.value else s.head)
      && WithinLimits(config, s'.locals, s'.books.pending, s'.books.queue)
      && (newHead.Some? ==> AtHead(s'.head, s'.books.pending)
                            && exists snaps :: AddedAll(config, Snap(s.books, s.locals, newHead.value, map[]), reinject, snaps))
      && forall a :: newHead.Some? || a in dirty ==> AllFrom(Contents(s'.books.queue, a), s'.head.nonces(a))
  }

  /** Transactions were added one after another. */
  ghost predicate AddedAll(config: Config, s: Snap, txs: seq<Incoming>, snaps: seq<Snap>) {
    && |snaps| == |txs| + 1 && snaps[0] == s
    && forall i {:trigger txs[i]} :: 0 <= i < |txs| ==> AddDone(config, txs[i], snaps[i], snaps[i + 1])
  }

  /** A transaction known or invalid changes nothing; a new one with room and no rival is queued. */
  ghost predicate AddDone(config: Config, t: Incoming, s: Snap, s': Snap) {
    && (t.tx.hash in s.books.all || !t.valid ==> s'.books == s.books)
    && (t.tx.hash !in s.books.all && t.valid && |s.books.all| < config.globalSlots + config.globalQueue
        && Prior(s.books.pending, t.tx).None? && Prior(s.books.queue, t.tx).None? ==>
          Held(s'.books.queue, t.tx) && s'.books.all == s.books.all[t.tx.hash := t.tx] && s'.books.pending == s.books.pending)
  }

  class Pool {
    const config: Config
    var pending: Lists
    var queue: Lists
    var all: map<Hash, Tx>
    var locals: set<Recipient>
    var head: Head
    /** Next nonces the pool has worked out; an account without one has that of the head. */
    var pendingNonces: map<Recipient, nat>

    constructor (config: Config, head: Head)
      ensures Valid() && this.config == config && all == map[]
    {
      this.config, this.head := config, head;
      pending, queue, all, locals, pendingNonces := map[], map[], map[], {}, map[];
    }

    ghost function View(): Books
      reads this`pending, this`queue, this`all
    {
      Books(pending, queue, all)
    }

    ghost predicate Full()
      reads this`pending, this`queue
    {
      NoneEmpty(pending) && NoneEmpty(queue)
    }

    ghost predicate Valid()
      reads this`pending, this`queue, this`all
    {
      Balanced(View(), {}) && Full()
    }

    /** Forgets transactions in hand. */
    method ForgetAll(out: Txs, ghost hand: set<Tx>)
      requires ByNonce(out) && Balanced(View(), hand + SetOf(out)) && hand !! SetOf(out)
      modifies this`all
      ensures Balanced(View(), hand) && Dropped(old(all), all, out)
    {
      hide Balanced, SetOf;
      var left := out;
      while left != map[]
        invariant ByNonce(left) && hand !! SetOf(left) && Balanced(View(), hand + SetOf(left))
        invariant Dropped(old(all), all, out) && forall n :: n in left ==> n in out && out[n] == left[n]
        decreases |left|
      {
        var n :| n in left;
        OneOf(left, n);
        InHandIsFree(View(), hand + SetOf(left), left[n]);
        assert hand + SetOf(left) - {left[n]} == hand + SetOf(left - {n});
        Forget(View(), hand + SetOf(left), left[n]);
        all := all - {left[n].hash};
        left := left - {n};
      }
      NoneOf();
      assert hand + {} == hand;
    }

    /** Puts a transaction into the queue of its account: one in hand, or a new one that is not pending. */
    method EnqueueTx(tx: Tx, ghost hand: set<Tx>) returns (ok: bool)
      requires Balanced(View(), hand)
      requires tx in hand || (hand == {} && tx.hash !in all && !Has(pending, tx.from, tx.nonce))
      modifies this`queue, this`all
      ensures Balanced(View(), hand - {tx})
      ensures old(NoneEmpty(queue)) ==> NoneEmpty(queue)
      ensures tx in hand ==> ok && all == old(all)
      ensures tx !in hand ==> (ok <==> Accepts(ListFor(old(queue), tx.from, false).txs, tx, config.priceBump))
      ensures ok ==> queue == old(queue)[tx.from := Added(ListFor(old(queue), tx.from, false), tx)]
      ensures ok ==> Held(queue, tx) && tx.hash in all
      ensures ok && tx !in hand ==> all == Replacing(old(all), Prior(old(queue), tx), tx)
      ensures !ok ==> queue == old(queue) && all == old(all)
    {
      hide Balanced, Capped;
      var l := ListFor(queue, tx.from, false);
      if tx.from !in queue {
        queue := queue[tx.from := l];
      }
      InHandIsFree(old(View()), hand, tx);
      if !Accepts(l.txs, tx, config.priceBump) {
        assert hand - {tx} == {} == hand;
        return false;
      }
      var prior := if tx.nonce in l.txs then Some(l.txs[tx.nonce]) else None;
      queue := queue[tx.from := Added(l, tx)];
      assert queue == old(queue)[tx.from := Added(l, tx)];
      if tx in hand {
        PutQueued(old(View()), hand, tx);
      } else if prior.None? {
        LearnQueued(old(View()), tx);
        assert hand - {tx} == {};
      } else {
        PriorIsHeld(old(View()), tx);
        ReplaceQueued(old(View()), tx, prior.value);
        assert hand - {tx} == {};
      }
      if prior.Some? {
        all := all - {prior.value.hash};
      }
      if tx.hash !in all {
        all := all[tx.hash := tx];
      }
      ok := true;
    }

    /** Puts a transaction in hand back into the queue; its place is always free. */
    method Requeue(tx: Tx, ghost hand: set<Tx>)
      requires Balanced(View(), hand) && tx in hand
      modifies this`queue, this`all
      ensures Balanced(View(), hand - {tx}) && all == old(all)
      ensures queue == old(queue)[tx.from := Added(ListFor(old(queue), tx.from, false), tx)]
      ensures old(NoneEmpty(queue)) ==> NoneEmpty(queue)
    {
      hide Balanced, Has, Held, NoneEmpty, Added, ListFor, Accepts;
      var _ := EnqueueTx(tx, hand);
    }

    /** Puts transactions of one account, in hand, back into its queue. */
    method EnqueueAll(a: Recipient, out: Txs)
      requires ByNonce(out) && Balanced(View(), SetOf(out)) && forall n :: n in out ==> out[n].from == a
      modifies this`queue, this`all
      ensures Balanced(View(), {}) && all == old(all) && Joined(old(queue), queue, a, out)
      ensures old(NoneEmpty(queue)) ==> NoneEmpty(queue)
    {
      hide Balanced, SetOf, Held, Has, NoneEmpty, Added, Joined, ListFor;
      var left := out;
      JoinedNone(queue, a, out);
      while left != map[]
        invariant ByNonce(left) && Balanced(View(), SetOf(left)) && all == old(all)
        invariant old(NoneEmpty(queue)) ==> NoneEmpty(queue)
        invariant (forall n :: n in left ==> n in out && left[n] == out[n]) && Joined(old(queue), queue, a, out - left.Keys)
        decreases |left|
      {
        var n :| n in left;
        OneOf(left, n);
        ghost var before := queue;
        Requeue(left[n], SetOf(left));
        JoinedOne(old(queue), before, queue, a, out, left, n, false);
        left := left - {n};
      }
      NoneOf();
      assert out - {} == out;
    }

    /** Puts a transaction in hand into the pending list of its account; its place is always free. */
    method PromoteTx(tx: Tx, ghost hand: set<Tx>) returns (inserted: bool)
      requires Balanced(View(), hand) && tx in hand
      modifies this`pending, this`all, this`pendingNonces
      ensures inserted && Balanced(View(), hand - {tx}) && all == old(all)
      ensures pending == old(pending)[tx.from := Added(ListFor(old(pending), tx.from, true), tx)]
      ensures old(NoneEmpty(pending)) ==> NoneEmpty(pending)
      ensures pendingNonces == old(pendingNonces)[tx.from := tx.nonce + 1]
    {
      hide Balanced, Capped;
      var l := ListFor(pending, tx.from, true);
      if tx.from !in pending {
        pending := pending[tx.from := l];
      }
      if !Accepts(l.txs, tx, config.priceBump) {
        all := all - {tx.hash};
        InHandIsFree(old(View()), hand, tx);
        return false;
      }
      var prior := if tx.nonce in l.txs then Some(l.txs[tx.nonce]) else None;
      pending := pending[tx.from := Added(l, tx)];
      assert pending == old(pending)[tx.from := Added(l, tx)];
      if prior.Some? {
        all := all - {prior.value.hash};
      }
      if tx.hash !in all {
        all := all[tx.hash := tx];
      }
      pendingNonces := pendingNonces[tx.from := tx.nonce + 1];
      inserted := true;
      InHandIsFree(old(View()), hand, tx);
      PutPending(old(View()), hand, tx);
    }

    function NextNonce(a: Recipient): nat
      reads this`pendingNonces, this`head
    {
      if a in pendingNonces then pendingNonces[a] else head.nonces(a)
    }

    method SetIfLower(a: Recipient, n: nat)
      modifies this`pendingNonces
      ensures NextNonce(a) == if n < old(NextNonce(a)) then n else old(NextNonce(a))
      ensures forall x :: x != a ==> NextNonce(x) == old(NextNonce(x))
    {
      if n < NextNonce(a) {
        pendingNonces := pendingNonces[a := n];
      }
    }

    /**
     * Removes exactly the transaction with the given hash. Pending ones above it go back to the queue.
     */
    method RemoveTx(hash: Hash)
      requires Valid()
      modifies this`pending, this`queue, this`all, this`pendingNonces
      ensures Valid() && all == old(all) - {hash}
      ensures hash in old(all) && Held(old(queue), old(all)[hash]) ==>
                && pending == old(pending) && queue == MinusOne(old(queue), old(all)[hash]) && pendingNonces == old(pendingNonces)
      ensures hash in old(all) && Held(old(pending), old(all)[hash]) ==>
                var tx := old(all)[hash];
                && Contents(pending, tx.from) == Below(old(Contents(pending, tx.from)), tx.nonce)
                && Joined(old(queue), queue, tx.from, From(old(Contents(pending, tx.from)), tx.nonce + 1))
                && (forall a :: a != tx.from ==> Contents(pending, a) == old(Contents(pending, a)))
                && NextNonce(tx.from) == if tx.nonce < old(NextNonce(tx.from)) then tx.nonce else old(NextNonce(tx.from))
    {
      hide Balanced, NoneEmpty, Below, From, MinusOne, Contents, Joined;
      if hash !in all {
        assert all - {hash} == all;
        return;
      }
      var tx := all[hash];
      IsSomewhere(View(), hash);
      if tx.from in pending && tx.nonce in pending[tx.from].txs {
        RemoveFromPending(tx);
      } else {
        RemoveFromQueue(tx);
      }
    }

    method RemoveFromPending(tx: Tx)
      requires Valid() && Held(pending, tx)
      modifies this`pending, this`queue, this`all, this`pendingNonces
      ensures Valid() && all == old(all) - {tx.hash}
      ensures Contents(pending, tx.from) == Below(old(Contents(pending, tx.from)), tx.nonce)
      ensures forall a :: a != tx.from ==> Contents(pending, a) == old(Contents(pending, a))
      ensures Joined(old(queue), queue, tx.from, From(old(Contents(pending, tx.from)), tx.nonce + 1))
      ensures NextNonce(tx.from) == if tx.nonce < old(NextNonce(tx.from)) then tx.nonce else old(NextNonce(tx.from))
    {
      hide Balanced, Capped, Joined, NoneEmpty, Below, From, SetOf, ByNonce;
      all := all - {tx.hash};
      var l := pending[tx.from];
      var invalids := From(l.txs, tx.nonce + 1);
      RemovePending(old(View()), tx);
      pending := pending[tx.from := l.(txs := Below(l.txs, tx.nonce))];
      OtherLists(old(pending), pending, tx.from);
      if pending[tx.from].txs == map[] {
        DropEmptyPending(View(), SetOf(invalids), tx.from);
        pending := pending - {tx.from};
      }
      EnqueueAll(tx.from, invalids);
      SetIfLower(tx.from, tx.nonce);
    }

    method RemoveFromQueue(tx: Tx)
      requires Valid() && Held(queue, tx)
      modifies this`queue, this`all
      ensures Valid() && all == old(all) - {tx.hash} && queue == MinusOne(old(queue), tx)
    {
      hide Balanced, Capped;
      all := all - {tx.hash};
      RemoveQueued(old(View()), tx);
      var l := queue[tx.from];
      queue := queue[tx.from := l.(txs := l.txs - {tx.nonce})];
      if queue[tx.from].txs == map[] {
        DropEmptyQueue(View(), {}, tx.from);
        queue := queue - {tx.from};
        assert queue == old(queue) - {tx.from};
      }
    }

    /** Removes the transactions the price heap gives up. */
    method MakeRoom(drop: seq<Hash>)
      requires Valid()
      modifies this`pending, this`queue, this`all, this`pendingNonces
      ensures Valid() && all == LookupWithout(old(all), drop) && all.Keys <= old(all).Keys
    {
      hide Balanced, NoneEmpty, Held;
      assert drop[..0] == [];
      for i := 0 to |drop|
        invariant Valid() && all == LookupWithout(old(all), drop[..i]) && all.Keys <= old(all).Keys
      {
        assert drop[..i + 1] == drop[..i] + [drop[i]];
        RemoveTx(drop[i]);
      }
      assert drop[..|drop|] == drop;
    }

    /** A new transaction takes the place of a pending one, if it pays enough more. */
    method ReplaceTx(tx: Tx) returns (ok: bool)
      requires Valid() && Has(pending, tx.from, tx.nonce) && tx.hash !in all
      modifies this`pending, this`all
      ensures Valid() && (ok <==> Accepts(old(pending)[tx.from].txs, tx, config.priceBump))
      ensures ok ==> Held(pending, tx) && tx.hash in all && all[tx.hash] == tx
      ensures ok ==> pending == old(pending)[tx.from := Added(old(pending)[tx.from], tx)]
      ensures ok ==> all == Replacing(old(all), Prior(old(pending), tx), tx)
      ensures !ok ==> pending == old(pending) && all == old(all)
    {
      hide Balanced, Capped;
      var l := pending[tx.from];
      if !Accepts(l.txs, tx, config.priceBump) {
        return false;
      }
      var prior := l.txs[tx.nonce];
      PriorIsPending(View(), tx);
      ReplacePending(View(), tx, prior);
      pending := pending[tx.from := Added(l, tx)];
      all := (all - {prior.hash})[tx.hash := tx];
      return true;
    }

    /** The pool holds as many transactions as its slots and its queue together. */
    predicate AtCapacity()
      reads this`all
    {
      |all| >= config.globalSlots + config.globalQueue
    }

    /** The transaction is new and valid, and the pool has room or makes some for it. */
    predicate Admits(tx: Tx, local: bool, valid: bool, underpriced: bool)
      reads this`all
    {
      tx.hash !in all && valid && (AtCapacity() && !local ==> !underpriced)
    }

    /**
     * Adds a transaction. `valid` stands for its own validation and minimum price; `underpriced` and
     * `drop` for what the price heap says when the pool is full. `room` is the pool after room was made:
     * a transaction pending there is replaced, or else one queued, just if the new one outbids it.
     */
    method AddTx(tx: Tx, local: bool, valid: bool, underpriced: bool, drop: seq<Hash>) returns (r: AddResult, ghost room: Books)
      requires Valid()
      modifies this
      ensures Valid() && head == old(head)
      ensures r.KnownTransaction? <==> tx.hash in old(all)
      ensures r.Invalid? <==> tx.hash !in old(all) && !valid
      ensures r.Underpriced? <==> tx.hash !in old(all) && valid && !local && underpriced && old(AtCapacity())
      ensures r.KnownTransaction? || r.Invalid? || r.Underpriced? ==> View() == old(View())
      ensures Balanced(room, {}) && (!old(AtCapacity()) ==> room == old(View()))
      ensures old(Admits(tx, local, valid, underpriced)) && old(AtCapacity()) ==> room.all == LookupWithout(old(all), drop)
      ensures r.Replaced? <==>
                old(Admits(tx, local, valid, underpriced)) && Prior(room.pending, tx).Some?
                && Outbids(tx, Prior(room.pending, tx).value, config.priceBump)
      ensures r.Queued? <==>
                old(Admits(tx, local, valid, underpriced)) && Prior(room.pending, tx).None?
                && (Prior(room.queue, tx).Some? ==> Outbids(tx, Prior(room.queue, tx).value, config.priceBump))
      ensures r.Replaced? ==>
                && Held(pending, tx) && queue == room.queue && all == Replacing(room.all, Prior(room.pending, tx), tx)
                && pending == room.pending[tx.from := Added(ListFor(room.pending, tx.from, true), tx)]
      ensures r.Queued? ==>
                && Held(queue, tx) && pending == room.pending && all == Replacing(room.all, Prior(room.queue, tx), tx)
                && queue == room.queue[tx.from := Added(ListFor(room.queue, tx.from, false), tx)]
      ensures r.ReplaceUnderpriced? ==> View() == room
      ensures r.Queued? || r.Replaced? ==> tx.hash in all && all[tx.hash] == tx
      ensures !old(AtCapacity()) ==>
                forall h :: h in old(all) && h !in all ==>
                  old(all)[h].from == tx.from && old(all)[h].nonce == tx.nonce && old(all)[h].gasPrice < tx.gasPrice
      ensures locals == old(locals) + if r.Queued? && local then {tx.from} else {}
    {
      hide Balanced, NoneEmpty, LookupWithout, Held, Outbids, Prior, Replacing, Added;
      room := View();
      if tx.hash in all {
        return KnownTransaction, room;
      }
      if !valid {
        return Invalid, room;
      }
      if |all| >= config.globalSlots + config.globalQueue {
        if !local && underpriced {
          return Underpriced, room;
        }
        MakeRoom(drop);
        room := View();
      }
      r := Place(tx, local);
    }

    /** Puts a new transaction in the place of a pending one, if there is one, or else into the queue. */
    method Place(tx: Tx, local: bool) returns (r: AddResult)
      requires Valid() && tx.hash !in all
      modifies this
      ensures Valid() && head == old(head) && (r.Replaced? || r.Queued? || r.ReplaceUnderpriced?)
      ensures r.Replaced? <==>
                Prior(old(pending), tx).Some? && Outbids(tx, Prior(old(pending), tx).value, config.priceBump)
      ensures r.Queued? <==>
                && Prior(old(pending), tx).None?
                && (Prior(old(queue), tx).Some? ==> Outbids(tx, Prior(old(queue), tx).value, config.priceBump))
      ensures r.Replaced? ==>
                && Held(pending, tx) && queue == old(queue) && all == Replacing(old(all), Prior(old(pending), tx), tx)
                && pending == old(pending)[tx.from := Added(ListFor(old(pending), tx.from, true), tx)]
      ensures r.Queued? ==>
                && Held(queue, tx) && pending == old(pending) && all == Replacing(old(all), Prior(old(queue), tx), tx)
                && queue == old(queue)[tx.from := Added(ListFor(old(queue), tx.from, false), tx)]
      ensures r.ReplaceUnderpriced? ==> View() == old(View())
      ensures r.Queued? || r.Replaced? ==> tx.hash in all && all[tx.hash] == tx
      ensures forall h :: h in old(all) && h !in all ==>
                old(all)[h].from == tx.from && old(all)[h].nonce == tx.nonce && old(all)[h].gasPrice < tx.gasPrice
      ensures locals == old(locals) + if r.Queued? && local then {tx.from} else {}
    {
      hide Balanced, NoneEmpty, Added;
      PriorsAreKnown(View(), tx);
      if tx.from in pending && tx.nonce in pending[tx.from].txs {
        var ok := ReplaceTx(tx);
        return if ok then Replaced else ReplaceUnderpriced;
      }
      var ok := EnqueueTx(tx, {});
      assert {} - {tx} == {};
      if !ok {
        return ReplaceUnderpriced;
      }
      if local {
        locals := locals + {tx.from};
      }
      HeldIsKnown(View(), tx);
      return Queued;
    }

    /** Takes transactions out of a queued list and forgets them. */
    method DropQueued(a: Recipient, l: ListState, out: Txs)
      requires Balanced(View(), {}) && a in queue && Shrunk(queue[a], l, out) && ByNonce(out)
      modifies this`queue, this`all
      ensures Balanced(View(), {}) && queue == old(queue)[a := l] && Dropped(old(all), all, out)
    {
      hide Balanced, Dropped;
      TakeQueued(View(), {}, a, l, out);
      queue := queue[a := l];
      ForgetAll(out, {});
    }

    /** Moves the lowest of an account's transactions in hand to its pending list. */
    method PromoteLeast(a: Recipient, left: Txs) returns (n: nat)
      requires ByNonce(left) && left != map[] && Balanced(View(), SetOf(left)) && forall k :: k in left ==> left[k].from == a
      modifies this`pending, this`all, this`pendingNonces
      ensures n in left && (forall k :: k in left ==> n <= k) && ByNonce(left - {n}) && |left - {n}| < |left|
      ensures Balanced(View(), SetOf(left - {n})) && all == old(all)
      ensures pending == old(pending)[a := Added(ListFor(old(pending), a, true), left[n])]
      ensures old(NoneEmpty(pending)) ==> NoneEmpty(pending)
      ensures NextNonce(a) == n + 1 && forall x :: x != a ==> NextNonce(x) == old(NextNonce(x))
    {
      hide Balanced, SetOf, Held, Has, NoneEmpty, Added, ListFor;
      n := Least(left);
      OneOf(left, n);
      var _ := PromoteTx(left[n], SetOf(left));
    }

    /** Moves transactions of one account, in hand, to its pending list, lowest nonce first. */
    method PromoteAll(a: Recipient, out: Txs)
      requires ByNonce(out) && Balanced(View(), SetOf(out)) && forall n :: n in out ==> out[n].from == a
      modifies this`pending, this`all, this`pendingNonces
      ensures Balanced(View(), {}) && all == old(all) && Joined(old(pending), pending, a, out)
      ensures old(NoneEmpty(pending)) ==> NoneEmpty(pending)
      ensures (forall x :: x != a ==> NextNonce(x) == old(NextNonce(x))) && Follows(out, old(NextNonce(a)), NextNonce(a))
    {
      MovingNone(pending, a, out, NextNonce(a));
      hide Balanced, SetOf, Held, Has, NoneEmpty, Added, ListFor, Moving, Joined, Follows, LowestGone;
      var left := out;
      while left != map[]
        invariant ByNonce(left) && Balanced(View(), SetOf(left)) && all == old(all)
        invariant forall n :: n in left ==> left[n].from == a
        invariant old(NoneEmpty(pending)) ==> NoneEmpty(pending)
        invariant Moving(old(pending), pending, a, out, left, old(NextNonce(a)), NextNonce(a))
        invariant forall x :: x != a ==> NextNonce(x) == old(NextNonce(x))
        decreases |left|
      {
        ghost var before, next := pending, NextNonce(a);
        var n := PromoteLeast(a, left);
        MovingNext(old(pending), before, a, out, left, n, old(NextNonce(a)), next);
        left := left - {n};
      }
      NoneOf();
      MovingDone(old(pending), pending, a, out, old(NextNonce(a)), NextNonce(a));
    }

    /** Drops what is old or unpayable in an account's queue. */
    method DropUnexecutable(a: Recipient)
      requires Balanced(View(), {}) && a in queue
      modifies this`queue, this`all
      ensures Balanced(View(), {}) && OnlyAt(old(queue), queue, a) && AllFrom(queue[a].txs, head.nonces(a))
      ensures LosesOnly(old(all), all, a, head, false)
      ensures queue[a] == Payable(old(queue)[a], a, head)
    {
      hide Balanced, Capped, Below, From, Filtered, Unpayable, Invalidated, Shrunk, AllFrom, Dropped, LosesOnly,
        Expendable;
      var l, nonce, limits := queue[a], head.nonces(a), head.balances(a);
      QueuedList(View(), a);
      ForwardShrinks(l, nonce);
      FromIsFrom(l.txs, nonce);
      var l1 := l.(txs := From(l.txs, nonce));
      DropQueued(a, l1, Below(l.txs, nonce));
      OldAreExpendable(l, a, head);
      DroppedIsLost(old(all), all, Below(l.txs, nonce), a, head, false);

      QueuedList(View(), a);
      FilterShrinks(l1, limits, head.maxGas);
      QueueInvalidatesNothing(l1, limits, head.maxGas);
      var l2 := Filtered(l1, limits, head.maxGas);
      StillFrom(l1, l2, Unpayable(l1, limits, head.maxGas), nonce);
      ghost var kept := all;
      DropQueued(a, l2, Unpayable(l1, limits, head.maxGas));
      UnpayableAreExpendable(l1, a, head);
      DroppedIsLost(kept, all, Unpayable(l1, limits, head.maxGas), a, head, false);
      LosesMore(old(all), kept, all, a, head, false, false);
    }

    /** Promotes what can be executed. */
    method PromoteReady(a: Recipient, ghost from: nat)
      requires Balanced(View(), {}) && a in queue && AllFrom(queue[a].txs, from)
      modifies this`pending, this`queue, this`all, this`pendingNonces
      ensures Balanced(View(), {}) && OnlyAt(old(queue), queue, a) && AllFrom(queue[a].txs, from)
      ensures old(NoneEmpty(pending)) ==> NoneEmpty(pending)
      ensures all == old(all)
      ensures var ready := Executable(old(queue)[a].txs, old(NextNonce(a)));
              queue[a].txs == old(queue)[a].txs - ready.Keys && Joined(old(pending), pending, a, ready)
      ensures (forall x :: x != a ==> NextNonce(x) == old(NextNonce(x))) && Waits(a)
    {
      hide Balanced, Capped, Executable, Shrunk, AllFrom, AllAbove, NoneEmpty, Joined, Follows;
      QueuedList(View(), a);
      var l := queue[a];
      var readies := Executable(l.txs, NextNonce(a));
      ReadyShrinks(l, NextNonce(a));
      var l' := l.(txs := l.txs - readies.Keys);
      StillFrom(l, l', readies, from);
      ReadyIsOwn(l.txs, NextNonce(a), a);
      TakeQueued(View(), {}, a, l', readies);
      queue := queue[a := l'];
      assert {} + SetOf(readies) == SetOf(readies);
      ghost var next := NextNonce(a);
      PromoteAll(a, readies);
      NoneLeft(l.txs, next, NextNonce(a));
    }

    /** Nothing in an account's queue could be executed next. */
    ghost predicate Waits(a: Recipient)
      reads this`queue, this`pendingNonces, this`head
    {
      AllAbove(Contents(queue, a), NextNonce(a))
    }

    method CapQueue(a: Recipient, ghost from: nat)
      requires Balanced(View(), {}) && a in queue && AllFrom(queue[a].txs, from)
      modifies this`queue, this`all
      ensures Balanced(View(), {}) && OnlyAt(old(queue), queue, a) && AllFrom(queue[a].txs, from)
      ensures |queue[a].txs| <= config.accountQueue && LosesOnly(old(all), all, a, head, true)
      ensures queue[a].txs == Lowest(old(queue)[a].txs, config.accountQueue) && queue[a].txs.Keys <= old(queue)[a].txs.Keys
    {
      hide Balanced, Capped, Shrunk, AllFrom, Lowest, Highest, Dropped, LosesOnly;
      QueuedList(View(), a);
      var l := queue[a];
      LowestWithin(l.txs, config.accountQueue);
      CapShrinks(l, config.accountQueue);
      CapSize(l.txs, config.accountQueue);
      var l' := l.(txs := Lowest(l.txs, config.accountQueue));
      StillFrom(l, l', Highest(l.txs, config.accountQueue), from);
      DropQueued(a, l', Highest(l.txs, config.accountQueue));
      PartsOf(l.txs, config.accountQueue, a, head);
      DroppedIsLost(old(all), all, Highest(l.txs, config.accountQueue), a, head, true);
    }

    /** The same for an account that has a queue, which may get empty. */
    method PromoteQueued(a: Recipient)
      requires Balanced(View(), {}) && a in queue
      modifies this`pending, this`queue, this`all, this`pendingNonces
      ensures Balanced(View(), {}) && OnlyAt(old(queue), queue, a) && AllFrom(queue[a].txs, head.nonces(a))
      ensures old(NoneEmpty(pending)) ==> NoneEmpty(pending)
      ensures a !in locals ==> |queue[a].txs| <= config.accountQueue
      ensures LosesOnly(old(all), all, a, head, a !in locals)
      ensures var l := Payable(old(queue)[a], a, head).txs;
              var ready := Executable(l, old(NextNonce(a)));
              && Joined(old(pending), pending, a, ready)
              && queue[a].txs == if a in locals then l - ready.Keys else Lowest(l - ready.Keys, config.accountQueue)
      ensures (forall x :: x != a ==> NextNonce(x) == old(NextNonce(x))) && Waits(a)
    {
      hide Balanced, NoneEmpty, AllFrom, AllAbove, LosesOnly, Payable, Executable, Joined, Lowest;
      DropUnexecutable(a);
      PromoteReady(a, head.nonces(a));
      if a !in locals {
        ghost var kept, waiting := all, queue[a].txs;
        CapQueue(a, head.nonces(a));
        AboveStill(waiting, queue[a].txs, NextNonce(a));
        LosesMore(old(all), kept, all, a, head, false, true);
      }
    }

    /** An account's queue has nothing old, nothing that could be executed next, and not more than its share. */
    ghost predicate Promoted(a: Recipient)
      reads this`queue, this`pendingNonces, this`head, this`locals
    {
      && Waits(a) && AllFrom(Contents(queue, a), head.nonces(a))
      && (a !in locals ==> |Contents(queue, a)| <= config.accountQueue)
    }

    /** Drops what is old or unpayable in an account's queue, promotes what can be executed, and caps the rest. */
    method PromoteAccount(a: Recipient)
      requires Valid()
      modifies this`pending, this`queue, this`all, this`pendingNonces
      ensures Valid()
      ensures a in queue ==> AllFrom(queue[a].txs, head.nonces(a))
      ensures a in queue && a !in locals ==> |queue[a].txs| <= config.accountQueue
      ensures LosesOnly(old(all), all, a, head, a !in locals)
      ensures a in old(queue) ==>
                var l := Payable(old(queue)[a], a, head).txs;
                var ready := Executable(l, old(NextNonce(a)));
                && Joined(old(pending), pending, a, ready)
                && Contents(queue, a) ==
                   if a in locals then l - ready.Keys else Lowest(l - ready.Keys, config.accountQueue)
      ensures forall x :: x != a ==> Contents(queue, x) == old(Contents(queue, x)) && NextNonce(x) == old(NextNonce(x))
      ensures Promoted(a)
    {
      hide Balanced, NoneEmpty, AllFrom, AllAbove, LosesOnly, Payable, Executable, Joined, Lowest;
      NothingFrom(NextNonce(a));
      NothingFrom(head.nonces(a));
      if a !in queue {
        NothingLost(all, a, head, a !in locals);
        return;
      }
      PromoteQueued(a);
      OtherLists(old(queue), queue, a);
      if queue[a].txs == map[] {
        DropEmptyQueue(View(), {}, a);
        queue := queue - {a};
      }
    }

    /** The same as far as several accounts are concerned. */
    method PromoteOne(a: Recipient)
      requires Valid()
      modifies this`pending, this`queue, this`all, this`pendingNonces
      ensures Valid() && LosesOnly(old(all), all, a, head, a !in locals)
      ensures Promoted(a) && forall x :: old(Promoted(x)) ==> Promoted(x)
      ensures forall x :: x != a ==> Contents(queue, x) == old(Contents(queue, x))
    {
      hide Balanced, AllFrom, AllAbove, NoneEmpty, Payable, Executable, Joined, Lowest, Contents, LosesOnly;
      PromoteAccount(a);
    }

    /** Promotes what can be executed in the queues of the accounts; what is given up is expendable. */
    method PromoteExecutables(accounts: seq<Recipient>)
      requires Valid()
      modifies this`pending, this`queue, this`all, this`pendingNonces
      ensures Valid()
      ensures GivesUp(old(all), all, accounts, head, locals)
      ensures forall a :: a in accounts ==> Promoted(a)
      ensures forall a :: a !in accounts ==> Contents(queue, a) == old(Contents(queue, a))
    {
      GivesUpNone(all, accounts, head, locals);
      hide Balanced, NoneEmpty, Contents, GivesUp, LosesOnly, Pool.Promoted;
      for i := 0 to |accounts|
        invariant Valid() && GivesUp(old(all), all, accounts, head, locals)
        invariant forall j :: 0 <= j < i ==> Promoted(accounts[j])
        invariant forall a :: a !in accounts ==> Contents(queue, a) == old(Contents(queue, a))
      {
        ghost var kept := all;
        PromoteOne(accounts[i]);
        GivesUpMore(old(all), kept, all, accounts, head, locals, accounts[i]);
      }
    }

    /** Takes transactions out of a pending list: some are forgotten, the others queued. */
    method DemotePending(a: Recipient, l: ListState, drops: Txs, invalids: Txs)
      requires Balanced(View(), {}) && a in pending && Shrunk(pending[a], l, drops + invalids)
      requires ByNonce(drops) && ByNonce(invalids) && drops.Keys !! invalids.Keys
      requires forall n :: n in invalids ==> invalids[n].from == a
      modifies this`pending, this`queue, this`all
      ensures Joined(old(queue), queue, a, invalids)
      ensures Balanced(View(), {}) && pending == old(pending)[a := l] && Dropped(old(all), all, drops)
      ensures old(NoneEmpty(queue)) ==> NoneEmpty(queue)
    {
      hide Balanced, NoneEmpty, Shrunk, Dropped, Joined;
      TakePending(View(), {}, a, l, drops + invalids);
      SetOfUnion(drops, invalids);
      assert {} + SetOf(drops + invalids) == SetOf(invalids) + SetOf(drops);
      pending := pending[a := l];
      ForgetAll(drops, SetOf(invalids));
      EnqueueAll(a, invalids);
    }

    /**
     * Drops what is old or unpayable in an account's pending list and queues what can no longer be
     * executed; what stays starts at the account's nonce.
     */
    method DemoteAccount(a: Recipient)
      requires Valid() && a in pending
      modifies this`pending, this`queue, this`all
      ensures Valid()
      ensures a in pending ==> AllFrom(pending[a].txs, head.nonces(a)) && head.nonces(a) in pending[a].txs
      ensures pending.Keys <= old(pending).Keys
      ensures forall x :: x in old(pending) && x != a ==> x in pending && pending[x] == old(pending)[x]
      ensures LosesOnly(old(all), all, a, head, false)
      ensures var l := Payable(old(pending)[a], a, head).txs;
              var gap := head.nonces(a) !in l;
              && Contents(pending, a) == (if gap then map[] else l)
              && Joined(old(queue), queue, a, Demoted(old(pending)[a], a, head) + if gap then l else map[])
      ensures forall x :: old(AllFrom(Contents(queue, x), head.nonces(x))) ==> AllFrom(Contents(queue, x), head.nonces(x))
    {
      hide Balanced, Capped, NoneEmpty, Below, From, Filtered, Unpayable, Invalidated, Shrunk, AllFrom, ByNonce, Dropped,
        LosesOnly, Expendable, Joined;
      var nonce := head.nonces(a);
      var l := pending[a];
      PendingParts(View(), a, nonce);
      ForwardShrinks(l, nonce);
      FromIsFrom(l.txs, nonce);
      var l1 := l.(txs := From(l.txs, nonce));
      NoTxs(Below(l.txs, nonce));
      DemotePending(a, l1, Below(l.txs, nonce), map[]);
      ghost var queue1 := queue;
      OldAreExpendable(l, a, head);
      DroppedIsLost(old(all), all, Below(l.txs, nonce), a, head, false);

      PendingParts(View(), a, nonce);
      FilterShrinks(l1, head.balances(a), head.maxGas);
      InvalidatedByNonce(l1, a, head.balances(a), head.maxGas);
      var drops := Unpayable(l1, head.balances(a), head.maxGas);
      var invalids := Invalidated(l1, head.balances(a), head.maxGas);
      var l2 := Filtered(l1, head.balances(a), head.maxGas);
      StillFrom(l1, l2, drops + invalids, nonce);
      ghost var kept := all;
      DemotePending(a, l2, drops, invalids);
      UnpayableAreExpendable(l1, a, head);
      DroppedIsLost(kept, all, drops, a, head, false);
      LosesMore(old(all), kept, all, a, head, false, false);
      JoinedTwice(old(queue), queue1, queue, a, map[], invalids);
      NoTxs(invalids);

      if l2.txs != map[] && nonce !in l2.txs {
        PendingParts(View(), a, nonce);
        AllShrinks(l2);
        NoTxs(l2.txs);
        kept := all;
        ghost var queue2 := queue;
        DemotePending(a, l2.(txs := map[]), map[], l2.txs);
        JoinedTwice(old(queue), queue2, queue, a, invalids, l2.txs);
        DroppedIsLost(kept, all, map[], a, head, false);
        LosesMore(old(all), kept, all, a, head, false, false);
      }
      DemotedStay(l, a, head, old(queue), queue);
      OtherLists(old(pending), pending, a);
      if pending[a].txs == map[] {
        DropEmptyPending(View(), {}, a);
        pending := pending - {a};
      }
    }

    method DemoteUnexecutables()
      requires Valid()
      modifies this`pending, this`queue, this`all
      ensures Valid()
      ensures forall a :: a in pending ==>
                a in old(pending) && AllFrom(pending[a].txs, head.nonces(a)) && head.nonces(a) in pending[a].txs
      ensures forall h :: h in all ==> h in old(all) && all[h] == old(all)[h]
      ensures forall h :: h in old(all) && h !in all ==> Expendable(old(all)[h], head, false)
      ensures forall x :: old(AllFrom(Contents(queue, x), head.nonces(x))) ==> AllFrom(Contents(queue, x), head.nonces(x))
    {
      hide Balanced, NoneEmpty, AllFrom, Expendable;
      var left := pending.Keys;
      while left != {}
        invariant Valid() && left <= pending.Keys <= old(pending).Keys
        invariant forall a :: a in pending && a !in left ==>
                    AllFrom(pending[a].txs, head.nonces(a)) && head.nonces(a) in pending[a].txs
        invariant forall h :: h in all ==> h in old(all) && all[h] == old(all)[h]
        invariant forall h :: h in old(all) && h !in all ==> Expendable(old(all)[h], head, false)
        invariant forall x :: old(AllFrom(Contents(queue, x), head.nonces(x))) ==> AllFrom(Contents(queue, x), head.nonces(x))
      {
        var a :| a in left;
        DemoteAccount(a);
        left := left - {a};
      }
    }

    // ---------- eviction ----------

    /** Drops the transaction with the highest nonce of a pending list; the next nonce is no higher then. */
    method CapOne(a: Recipient)
      requires Valid() && Len(pending, a) >= 2
      modifies this`pending, this`all, this`pendingNonces
      ensures Valid() && OnlyAt(old(pending), pending, a)
      ensures Contents(pending, a) == Lowest(old(Contents(pending, a)), old(Len(pending, a)) - 1)
      ensures Len(pending, a) == old(Len(pending, a)) - 1 && Total(pending) == old(Total(pending)) - 1
      ensures forall x :: x != a ==> NextNonce(x) == old(NextNonce(x))
      ensures forall n :: n in old(Contents(pending, a)) && n !in Contents(pending, a) ==> NextNonce(a) <= n
      ensures NextNonce(a) <= old(NextNonce(a))
    {
      hide Balanced, NoneEmpty, Lowest, Total;
      var n := DropHighest(a);
      SetIfLower(a, n);
    }

    method DropHighest(a: Recipient) returns (n: nat)
      requires Valid() && Len(pending, a) >= 2
      modifies this`pending, this`all
      ensures Valid() && OnlyAt(old(pending), pending, a)
      ensures Contents(pending, a) == Lowest(old(Contents(pending, a)), old(Len(pending, a)) - 1)
      ensures Len(pending, a) == old(Len(pending, a)) - 1 && Total(pending) == old(Total(pending)) - 1
      ensures forall m :: m in old(Contents(pending, a)) && m !in Contents(pending, a) ==> n <= m
    {
      hide Balanced, Capped, NoneEmpty, Lowest, Highest, Shrunk, Total;
      var l := pending[a];
      var k := |l.txs| - 1;
      PendingParts(View(), a, 0);
      CapShrinks(l, k);
      CapSize(l.txs, k);
      HighestByNonce(l.txs, k);
      var l', caps := l.(txs := Lowest(l.txs, k)), Highest(l.txs, k);
      TakePending(View(), {}, a, l', caps);
      TotalAfter(pending, a, l');
      pending := pending[a := l'];
      OtherLists(old(pending), pending, a);
      ForgetAll(caps, {});
      CappedAreAbove(l.txs, k);
      n := Least(caps);
    }

    /** The accounts of `who` have pending lists of one length. */
    ghost predicate Level(who: seq<Recipient>, n: nat)
      reads this`pending
    {
      && (forall i, j :: 0 <= i < j < |who| ==> who[i] != who[j])
      && (forall i :: 0 <= i < |who| ==> Len(pending, who[i]) == n)
    }

    /** Since `before`, pending lists have only lost their highest nonces. */
    ghost predicate Cut(before: Lists)
      reads this`pending
    {
      Proper(before, true) && Trimmed(before, pending) && forall a :: Len(pending, a) <= Len(before, a)
    }

    /** One round: every account of `who` loses one transaction. */
    method Round(who: seq<Recipient>, ghost n: nat, ghost before: Lists)
      requires Valid() && Level(who, n) && n >= 2 && Cut(before)
      modifies this`pending, this`all, this`pendingNonces
      ensures Valid() && Level(who, n - 1) && Total(pending) == old(Total(pending)) - |who| && Cut(before)
      ensures forall a :: a !in who ==> Len(pending, a) == old(Len(pending, a))
      ensures pending.Keys == old(pending).Keys
    {
      hide Balanced, NoneEmpty, Total, Trimmed, Lowest, Proper;
      for i := 0 to |who|
        invariant Valid() && Cut(before) && pending.Keys == old(pending).Keys && Total(pending) == old(Total(pending)) - i
        invariant forall j :: 0 <= j < |who| ==> Len(pending, who[j]) == if j < i then n - 1 else n
        invariant forall a :: a !in who ==> Len(pending, a) == old(Len(pending, a))
      {
        ghost var earlier := pending;
        CapOne(who[i]);
        LenOf(earlier, pending, who[i]);
        LenOf(before, before, who[i]);
        TrimOne(before, earlier, pending, true, who[i]);
      }
    }

    /** Rounds until the pool is within its limit or the accounts are down to the threshold. */
    method Equalize(who: seq<Recipient>, threshold: nat, count: nat, ghost n: nat, ghost before: Lists)
      returns (left: nat, ghost m: nat)
      requires Valid() && Cut(before) && who != [] && Level(who, n) && n >= threshold >= 1 && count == Total(pending)
      requires count + |who| > config.globalSlots
      modifies this`pending, this`all, this`pendingNonces
      ensures Valid() && Cut(before) && Level(who, m) && threshold <= m <= n && left == Total(pending)
      ensures left <= config.globalSlots || m == threshold
      ensures left + |who| > config.globalSlots
      ensures forall a :: a !in who ==> Len(pending, a) == old(Len(pending, a))
      ensures pending.Keys == old(pending).Keys
    {
      hide Balanced, NoneEmpty, Total, Trimmed, Proper;
      left, m := count, n;
      while left > config.globalSlots && Len(pending, who[|who| - 1]) > threshold
        invariant Valid() && Cut(before) && Level(who, m) && threshold <= m <= n && left == Total(pending)
        invariant left + |who| > config.globalSlots
        invariant forall a :: a !in who ==> Len(pending, a) == old(Len(pending, a))
        invariant pending.Keys == old(pending).Keys
        decreases m
      {
        Round(who, m, before);
        TotalNotNegative(pending);
        left := left - |who|;
        m := m - 1;
      }
    }

    /** The offenders so far are on one level, and no account still to be called is above it. */
    ghost predicate Leveled(before: Lists, offenders: seq<Recipient>, spammers: set<Recipient>, top: nat)
      reads this`pending, this`locals
    {
      && Level(offenders, top)
      && (forall a :: a in offenders ==> a !in spammers && Spammer(before, locals, config.accountSlots, a))
      && (forall a :: Spammer(before, locals, config.accountSlots, a) <==> a in spammers || a in offenders)
      && (forall a :: a !in offenders ==> Len(pending, a) == Len(before, a))
      && (forall a :: a in spammers && offenders != [] ==> Len(before, a) <= top)
      && (offenders != [] ==> top > config.accountSlots)
      && (forall a :: Len(pending, a) <= Len(before, a))
    }

    /** Calls the next offender and cuts the earlier ones down to its level. */
    method NextOffender(ghost before: Lists, offenders: seq<Recipient>, next: Recipient, spammers: set<Recipient>,
                        count: nat, ghost top: nat)
      returns (left: nat, ghost level: nat)
      requires Valid() && Cut(before) && Leveled(before, offenders, spammers, top) && next in spammers
      requires forall b :: b in spammers ==> Len(pending, b) <= Len(pending, next)
      requires count == Total(pending) && count > config.globalSlots
      modifies this`pending, this`all, this`pendingNonces
      ensures Valid() && Cut(before) && pending.Keys == old(pending).Keys && left == Total(pending)
      ensures left + |offenders| + 1 > config.globalSlots
      ensures left > config.globalSlots ==> Leveled(before, offenders + [next], spammers - {next}, level)
      ensures left <= config.globalSlots ==> Fair(before, pending, locals, config.accountSlots)
    {
      hide Balanced, NoneEmpty, Total, Len, Trimmed, Proper;
      if offenders == [] {
        return count, Len(pending, next);
      }
      left, level := Equalize(offenders, Len(pending, next), count, top, before);
      if left <= config.globalSlots {
        SmallUnlessSpammer(before, locals, config.accountSlots);
        LevelIsFair(before, pending, locals, config.accountSlots, offenders, level);
      }
    }

    /** The last phase: no account is left to be called, so all offenders go down to their slots. */
    method CutToSlots(ghost before: Lists, offenders: seq<Recipient>, count: nat, ghost top: nat) returns (left: nat)
      requires Valid() && Cut(before) && Leveled(before, offenders, {}, top) && config.accountSlots >= 1
      requires count == Total(pending) && count > config.globalSlots
      modifies this`pending, this`all, this`pendingNonces
      ensures Valid() && Cut(before) && pending.Keys == old(pending).Keys && left == Total(pending)
      ensures left + |offenders| > config.globalSlots
      ensures Fair(before, pending, locals, config.accountSlots)
      ensures || left <= config.globalSlots
              || forall a :: a in pending && a !in locals ==> Len(pending, a) <= config.accountSlots
    {
      hide Balanced, NoneEmpty, Total, Len, Trimmed, Proper;
      left := count;
      ghost var m := config.accountSlots;
      SmallUnlessSpammer(before, locals, config.accountSlots);
      if |offenders| > 0 {
        left, m := Equalize(offenders, config.accountSlots, count, top, before);
      }
      LevelIsFair(before, pending, locals, config.accountSlots, offenders, m);
      if m == config.accountSlots {
        AllSmall(before, pending, locals, config.accountSlots, offenders);
      }
    }

    /** The accounts that may lose transactions. */
    method Spammers() returns (s: set<Recipient>)
      ensures forall a :: a in s <==> Spammer(pending, locals, config.accountSlots, a)
    {
      s := set a | a in pending && a !in locals && |pending[a].txs| > config.accountSlots;
    }

    /** Evicts pending transactions until the pool is within its limit, from the largest accounts first. */
    method TruncatePending() returns (offenders: seq<Recipient>)
      requires Valid() && config.accountSlots >= 1
      modifies this`pending, this`all, this`pendingNonces
      ensures Valid() && pending.Keys == old(pending).Keys
      ensures Fair(old(pending), pending, locals, config.accountSlots) && Trimmed(old(pending), pending)
      ensures || Total(pending) <= config.globalSlots
              || forall a :: a in pending && a !in locals ==> Len(pending, a) <= config.accountSlots
      ensures old(Total(pending)) <= config.globalSlots ==> pending == old(pending)
      ensures old(Total(pending)) > config.globalSlots ==> Total(pending) + |offenders| > config.globalSlots
      ensures forall a :: a in offenders ==> Spammer(old(pending), locals, config.accountSlots, a)
      ensures forall i, j :: 0 <= i < j < |offenders| ==> offenders[i] != offenders[j]
    {
      hide Balanced, NoneEmpty, Total, Fair, Trimmed, Proper, Len, Spammer;
      offenders := [];
      PendingProper(View());
      NothingTrimmed(pending, true);
      var count := CountTxs(pending);
      if count <= config.globalSlots {
        NothingCut(pending, locals, config.accountSlots);
        return;
      }
      var spammers := Spammers();
      ghost var top := 0;
      while count > config.globalSlots && spammers != {}
        invariant Valid() && Cut(old(pending)) && pending.Keys == old(pending).Keys && count == Total(pending)
        invariant count + |offenders| > config.globalSlots
        invariant count > config.globalSlots ==> Leveled(old(pending), offenders, spammers, top)
        invariant count <= config.globalSlots ==> Fair(old(pending), pending, locals, config.accountSlots)
        invariant forall a :: a in offenders ==> Spammer(old(pending), locals, config.accountSlots, a)
        invariant forall i, j :: 0 <= i < j < |offenders| ==> offenders[i] != offenders[j]
        decreases |spammers|
      {
        LargestExists(pending, spammers);
        var next :| next in spammers && forall b :: b in spammers ==> Len(pending, b) <= Len(pending, next);
        count, top := NextOffender(old(pending), offenders, next, spammers, count, top);
        offenders, spammers := offenders + [next], spammers - {next};
      }
      if count > config.globalSlots {
        count := CutToSlots(old(pending), offenders, count, top);
      }
    }

    /** Removes one queued transaction. */
    method RemoveQueuedAt(a: Recipient, n: nat)
      requires Valid() && Has(queue, a, n)
      modifies this`pending, this`queue, this`all, this`pendingNonces
      ensures Valid() && Contents(queue, a) == old(Contents(queue, a)) - {n}
      ensures pending == old(pending) && pendingNonces == old(pendingNonces)
      ensures forall x :: x != a ==> Contents(queue, x) == old(Contents(queue, x))
      ensures Total(queue) == old(Total(queue)) - 1
    {
      hide Balanced, NoneEmpty, Total;
      var tx := queue[a].txs[n];
      PlacedRight(View(), a, n);
      TotalMinusOne(queue, tx);
      RemoveTx(tx.hash);
    }

    /** Empties the queue of an account. */
    method DropAll(a: Recipient)
      requires Valid()
      modifies this`pending, this`queue, this`all, this`pendingNonces
      ensures Valid() && Contents(queue, a) == map[] && pending == old(pending) && pendingNonces == old(pendingNonces)
      ensures forall x :: x != a ==> Contents(queue, x) == old(Contents(queue, x))
      ensures Total(queue) == old(Total(queue)) - |old(Contents(queue, a))|
    {
      hide Balanced, NoneEmpty, Total;
      var left := Contents(queue, a);
      while left != map[]
        invariant Valid() && Contents(queue, a) == left && pending == old(pending) && pendingNonces == old(pendingNonces)
        invariant forall x :: x != a ==> Contents(queue, x) == old(Contents(queue, x))
        invariant Total(queue) - |left| == old(Total(queue)) - |old(Contents(queue, a))|
        decreases |left|
      {
        ContentsByNonce(View(), a);
        var n := Least(left);
        OneOf(left, n);
        OneLess(left, n);
        RemoveQueuedAt(a, n);
        left := left - {n};
      }
    }

    /** Drops the k highest nonces from the queue of an account. */
    method DropTop(a: Recipient, k: nat)
      requires Valid() && k <= |Contents(queue, a)|
      modifies this`pending, this`queue, this`all, this`pendingNonces
      ensures Valid() && Total(queue) == old(Total(queue)) - k && pending == old(pending) && pendingNonces == old(pendingNonces)
      ensures forall x :: x != a ==> Contents(queue, x) == old(Contents(queue, x))
      ensures Contents(queue, a).Keys <= old(Contents(queue, a)).Keys
      ensures forall m, n :: m in Contents(queue, a) && n in old(Contents(queue, a)) && n !in Contents(queue, a) ==> m < n
    {
      hide Balanced, NoneEmpty, Total;
      var left := Contents(queue, a);
      for i := 0 to k
        invariant Valid() && Contents(queue, a) == left && |left| == |old(Contents(queue, a))| - i
        invariant pending == old(pending) && pendingNonces == old(pendingNonces)
        invariant forall x :: x != a ==> Contents(queue, x) == old(Contents(queue, x))
        invariant Total(queue) == old(Total(queue)) - i
        invariant forall n :: n in left ==> n in old(Contents(queue, a))
        invariant forall m, n :: m in left && n in old(Contents(queue, a)) && n !in left ==> m < n
      {
        ghost var top := Greatest(left.Keys);
        var n :| n in left && forall m :: m in left ==> m <= n;
        OneLess(left, n);
        RemoveQueuedAt(a, n);
        left := left - {n};
      }
    }

    /**
     * Drops queued transactions of accounts that are not local until the queue is within its limit or
     * only locals are left; never more than needed.
     */
    method TruncateQueue()
      requires Valid()
      modifies this`pending, this`queue, this`all, this`pendingNonces
      ensures Valid()
      ensures Total(queue) <= config.globalQueue || forall a :: a in queue ==> a in locals
      ensures forall a :: a in locals ==> Contents(queue, a) == old(Contents(queue, a))
      ensures if old(Total(queue)) <= config.globalQueue then queue == old(queue) else Total(queue) >= config.globalQueue
      ensures forall a :: Contents(queue, a).Keys <= old(Contents(queue, a)).Keys
      ensures pending == old(pending) && pendingNonces == old(pendingNonces)
    {
      hide Balanced, NoneEmpty, Total;
      var queued := CountTxs(queue);
      if queued <= config.globalQueue {
        return;
      }
      var addresses: set<Recipient> := set a | a in queue && a !in locals;
      var drop: nat := queued - config.globalQueue;
      while drop > 0 && addresses != {}
        invariant Valid() && drop == Total(queue) - config.globalQueue
        invariant forall a :: Contents(queue, a).Keys <= old(Contents(queue, a)).Keys
        invariant pending == old(pending) && pendingNonces == old(pendingNonces)
        invariant forall a :: a in locals ==> Contents(queue, a) == old(Contents(queue, a))
        invariant forall a :: a in addresses ==> a !in locals
        invariant drop > 0 ==> forall a :: a !in locals && a !in addresses ==> Contents(queue, a) == map[]
        decreases |addresses|
      {
        var a :| a in addresses;
        addresses := addresses - {a};
        var size := |Contents(queue, a)|;
        if size <= drop {
          DropAll(a);
          drop := drop - size;
        } else {
          DropTop(a, drop);
          drop := 0;
        }
      }
      OnlyLocals(queue, locals);
    }

    /** Adds transactions one after another. */
    method AddAll(txs: seq<Incoming>) returns (ghost snaps: seq<Snap>)
      requires Valid()
      modifies this
      ensures Valid() && head == old(head) && AddedAll(config, old(Now()), txs, snaps) && snaps[|txs|] == Now()
    {
      hide Balanced, NoneEmpty, AddDone;
      snaps := [Now()];
      for i := 0 to |txs|
        invariant Valid() && head == old(head) && |snaps| == i + 1 && snaps[0] == old(Now()) && snaps[i] == Now()
        invariant forall j {:trigger txs[j]} :: 0 <= j < i ==> AddDone(config, txs[j], snaps[j], snaps[j + 1])
      {
        AddOne(txs[i]);
        snaps := snaps + [Now()];
      }
    }

    method AddOne(t: Incoming)
      requires Valid()
      modifies this
      ensures Valid() && head == old(head) && AddDone(config, t, old(Now()), Now())
    {
      hide Balanced, NoneEmpty, Added, Outbids, LookupWithout;
      var _, _ := AddTx(t.tx, t.local, t.valid, t.underpriced, t.drop);
    }

    ghost function Now(): Snap
      reads this
    {
      Snap(View(), locals, head, pendingNonces)
    }

    /** Any run of operations keeps the books balanced, and every operation does what it is for. */
    method Run(ops: seq<Op>) returns (ghost snaps: seq<Snap>)
      requires Valid() && config.accountSlots >= 1
      modifies this
      ensures Valid() && |snaps| == |ops| + 1 && snaps[0] == old(Now()) && snaps[|ops|] == Now()
      ensures forall i {:trigger ops[i]} :: 0 <= i < |ops| ==> OpDone(config, ops[i], snaps[i], snaps[i + 1])
    {
      hide Balanced, NoneEmpty, OpDone;
      snaps := [Now()];
      for i := 0 to |ops|
        invariant Valid() && |snaps| == i + 1 && snaps[0] == old(Now()) && snaps[i] == Now()
        invariant forall j {:trigger ops[j]} :: 0 <= j < i ==> OpDone(config, ops[j], snaps[j], snaps[j + 1])
      {
        Do(ops[i]);
        snaps := snaps + [Now()];
      }
    }

    method Do(op: Op)
      requires Valid() && config.accountSlots >= 1
      modifies this
      ensures Valid() && OpDone(config, op, old(Now()), Now())
    {
      hide Balanced, NoneEmpty, Total, AllFrom, AllAbove, Fair, Trimmed, Expendable, AddDone, AddedAll;
      match op
      case Add(t) =>
        AddOne(t);
      case Remove(hash) =>
        RemoveTx(hash);
      case Promote(accounts) =>
        PromoteExecutables(accounts);
      case Demote =>
        DemoteUnexecutables();
      case TruncateLists =>
        var _ := TruncatePending();
        TruncateQueue();
      case Reorg(newHead, reinject, dirty) =>
        ghost var snaps := RunReorg(newHead, reinject, dirty);
    }

    /** Evicts from both kinds of lists. */
    method Truncate()
      requires Valid() && config.accountSlots >= 1
      modifies this`pending, this`queue, this`all, this`pendingNonces
      ensures Valid() && WithinLimits(config, locals, pending, queue)
      ensures forall a :: Contents(queue, a).Keys <= old(Contents(queue, a)).Keys
      ensures forall a :: a in pending ==>
                a in old(pending) && forall n :: AllFrom(old(pending)[a].txs, n) && n in old(pending)[a].txs ==>
                                       AllFrom(pending[a].txs, n) && n in pending[a].txs
    {
      hide Balanced, Total, AllFrom, Fair, Len, Lowest;
      var _ := TruncatePending();
      forall a, n | a in pending && AllFrom(old(pending)[a].txs, n) && n in old(pending)[a].txs
        ensures AllFrom(pending[a].txs, n) && n in pending[a].txs
      {
        assert Contents(pending, a) == pending[a].txs && Contents(old(pending), a) == old(pending)[a].txs;
        StillStarts(old(pending)[a].txs, pending[a].txs, n);
      }
      TruncateQueue();
    }

    /**
     * What a new head or new transactions set off. Both kinds of lists are within their limits then, every pending
     * list has a last transaction before its next nonce, and after a new head it starts at the account's nonce
     * and nothing old is queued.
     */
    method RunReorg(newHead: Option<Head>, reinject: seq<Incoming>, dirty: seq<Recipient>) returns (ghost snaps: seq<Snap>)
      requires Valid() && config.accountSlots >= 1
      modifies this
      ensures Valid() && head == if newHead.Some? then newHead.value else old(head)
      ensures forall a :: a in pending ==> NextNonce(a) - 1 in pending[a].txs
                                           && forall n :: n in pending[a].txs ==> n < NextNonce(a)
      ensures WithinLimits(config, locals, pending, queue)
      ensures newHead.Some? ==> AtHead(head, pending) && forall a :: AllFrom(Contents(queue, a), head.nonces(a))
      ensures newHead.None? ==> forall a :: a in dirty ==> AllFrom(Contents(queue, a), head.nonces(a))
      ensures newHead.Some? ==> AddedAll(config, Snap(old(View()), old(locals), newHead.value, map[]), reinject, snaps)
    {
      hide Balanced, NoneEmpty, Total, AllFrom, AllAbove, Fair, WithinLimits, Expendable, AddedAll;
      snaps := Rearrange(newHead, reinject, dirty);
      SetNonces();
    }

    /** The next nonce of every account with pending transactions is the one after the last. */
    method SetNonces()
      requires Valid()
      modifies this`pendingNonces
      ensures forall a :: a in pending ==> NextNonce(a) - 1 in pending[a].txs
                                           && forall n :: n in pending[a].txs ==> n < NextNonce(a)
    {
      hide Balanced;
      var left := pending.Keys;
      while left != {}
        invariant left <= pending.Keys
        invariant forall a :: a in pending && a !in left ==>
                    NextNonce(a) - 1 in pending[a].txs && forall n :: n in pending[a].txs ==> n < NextNonce(a)
      {
        var a :| a in left;
        HasLast(pending, a);
        var last :| last in pending[a].txs && forall n :: n in pending[a].txs ==> n <= last;
        pendingNonces := pendingNonces[a := last + 1];
        left := left - {a};
      }
    }

    /** Promotes, demotes and evicts. */
    method Rearrange(newHead: Option<Head>, reinject: seq<Incoming>, dirty: seq<Recipient>) returns (ghost snaps: seq<Snap>)
      requires Valid() && config.accountSlots >= 1
      modifies this
      ensures Valid() && head == (if newHead.Some? then newHead.value else old(head))
      ensures WithinLimits(config, locals, pending, queue)
      ensures newHead.Some? ==> AtHead(head, pending) && forall a :: AllFrom(Contents(queue, a), head.nonces(a))
      ensures newHead.None? ==> forall a :: a in dirty ==> AllFrom(Contents(queue, a), head.nonces(a))
      ensures newHead.Some? ==> AddedAll(config, Snap(old(View()), old(locals), newHead.value, map[]), reinject, snaps)
    {
      hide Balanced, NoneEmpty, AllFrom, AllAbove, WithinLimits, Expendable, AddedAll;
      var accounts := dirty;
      snaps := [];
      if newHead.Some? {
        head, pendingNonces := newHead.value, map[];
        snaps := AddAll(reinject);
        accounts := Elements(queue.Keys);
      }
      PromoteExecutables(accounts);
      if newHead.Some? {
        forall a | a !in accounts
          ensures AllFrom(Contents(queue, a), head.nonces(a))
        {
          NothingFrom(head.nonces(a));
        }
        DemoteUnexecutables();
      }
      ghost var before := queue;
      Truncate();
      forall a | AllFrom(Contents(before, a), head.nonces(a))
        ensures AllFrom(Contents(queue, a), head.nonces(a))
      {
        FewerFrom(Contents(before, a), Contents(queue, a), head.nonces(a));
      }
    }
  }

  lemma PlacedRight(b: Books, a: Recipient, n: nat)
    requires Balanced(b, {}) && Has(b.queue, a, n)
    ensures var tx := b.queue[a].txs[n];
            tx.from == a && tx.nonce == n && tx.hash in b.all && b.all[tx.hash] == tx && Held(b.queue, tx)
  {
    assert ProperList(b.queue[a], a, false);
    assert Somewhere(b, {}, b.queue[a].txs[n]);
  }

  lemma TotalMinusOne(ls: Lists, tx: Tx)
    requires Held(ls, tx)
    ensures Total(MinusOne(ls, tx)) == Total(ls) - 1
  {
    var a := tx.from;
    var l := ls[a].(txs := ls[a].txs - {tx.nonce});
    OneLess(ls[a].txs, tx.nonce);
    TotalAfter(ls, a, l);
    if l.txs == map[] {
      var ls' := ls[a := l];
      SumRemove(Lens(ls'), a);
      assert Lens(ls') - {a} == Lens(ls - {a});
    }
  }

  lemma OneLess(m: Txs, n: nat)
    requires n in m
    ensures |m - {n}| == |m| - 1
  {
    assert (m - {n}).Keys == m.Keys - {n};
  }

  lemma ContentsByNonce(b: Books, a: Recipient)
    requires Balanced(b, {})
    ensures ByNonce(Contents(b.queue, a))
  {
    if a in b.queue {
      assert ProperList(b.queue[a], a, false);
    }
  }

  lemma OnlyLocals(ls: Lists, locals: set<Recipient>)
    requires NoneEmpty(ls)
    ensures (forall a :: a !in locals ==> Contents(ls, a) == map[]) ==> forall a :: a in ls ==> a in locals
  {
    hide Contents;
    forall a | a in ls
      ensures Contents(ls, a) != map[]
    {
      NotNone(ls, a);
    }
  }

  lemma NotNone(ls: Lists, a: Recipient)
    requires NoneEmpty(ls) && a in ls
    ensures Contents(ls, a) != map[]
  {
  }

  lemma HasLast(ls: Lists, a: Recipient)
    requires NoneEmpty(ls) && a in ls
    ensures exists last :: last in ls[a].txs && forall n :: n in ls[a].txs ==> n <= last
  {
    var last := Greatest(ls[a].txs.Keys);
    assert last in ls[a].txs;
  }

  lemma PendingProper(b: Books)
    requires Balanced(b, {})
    ensures Proper(b.pending, true)
  {
  }

  lemma LenOf(ls: Lists, ls': Lists, a: Recipient)
    ensures |Contents(ls, a)| == Len(ls, a) && |Contents(ls', a)| == Len(ls', a)
    ensures OnlyAt(ls, ls', a) ==> forall x :: x != a ==> Contents(ls', x) == Contents(ls, x)
  {
  }

  lemma NothingCut(ls: Lists, locals: set<Recipient>, slots: nat)
    ensures Fair(ls, ls, locals, slots)
  {
  }

  lemma SetOfUnion(a: Txs, b: Txs)
    requires ByNonce(a) && ByNonce(b) && a.Keys !! b.Keys
    ensures SetOf(a + b) == SetOf(b) + SetOf(a) && SetOf(b) !! SetOf(a)
  {
    assert forall n :: n in a ==> (a + b)[n] == a[n];
    assert forall n :: n in b ==> (a + b)[n] == b[n];
  }

  lemma NoTxs(m: Txs)
    ensures ByNonce(map[]) && m + map[] == m && map[] + m == m
  {
  }

  lemma PendingParts(b: Books, a: Recipient, n: nat)
    requires Balanced(b, {}) && a in b.pending
    ensures Capped(b.pending[a]) && ByNonce(b.pending[a].txs) && ByNonce(Below(b.pending[a].txs, n))
    ensures forall k :: k in b.pending[a].txs ==> b.pending[a].txs[k].from == a
  {
    assert ProperList(b.pending[a], a, true);
  }

  lemma InvalidatedByNonce(l: ListState, a: Recipient, limits: Limits, gasLimit: nat)
    requires ByNonce(l.txs) && forall n :: n in l.txs ==> l.txs[n].from == a
    ensures ByNonce(Invalidated(l, limits, gasLimit))
    ensures forall n :: n in Invalidated(l, limits, gasLimit) ==> Invalidated(l, limits, gasLimit)[n].from == a
  {
  }

  lemma AllShrinks(l: ListState)
    requires Capped(l)
    ensures Shrunk(l, l.(txs := map[]), l.txs)
  {
    assert map[] + l.txs == l.txs;
  }

  ghost predicate AllFrom(m: Txs, n: nat) {
    forall k :: k in m ==> k >= n
  }

  lemma FromIsFrom(m: Txs, n: nat)
    ensures AllFrom(From(m, n), n)
  {
  }

  lemma StillFrom(l: ListState, l': ListState, out: Txs, n: nat)
    requires Shrunk(l, l', out) && AllFrom(l.txs, n)
    ensures AllFrom(l'.txs, n)
  {
    assert forall k :: k in l'.txs ==> k in l.txs;
  }

  /** The lists of all other accounts are as before. */
  ghost predicate OnlyAt(q: Lists, q': Lists, a: Recipient) {
    a in q && q'.Keys == q.Keys && forall x :: x in q && x != a ==> q'[x] == q[x]
  }

  lemma OtherLists(q: Lists, q': Lists, a: Recipient)
    requires NoneEmpty(q) && OnlyAt(q, q', a)
    ensures NoneEmpty(q' - {a}) && (q'[a].txs != map[] ==> NoneEmpty(q'))
  {
  }

  /** A queued list is in order, and so are the parts cut out of it. */
  lemma QueuedList(b: Books, a: Recipient)
    requires Balanced(b, {}) && a in b.queue
    ensures var l := b.queue[a]; Capped(l) && ByNonce(l.txs) && !l.strict && forall n :: n in l.txs ==> l.txs[n].from == a
    ensures forall n :: ByNonce(Below(b.queue[a].txs, n)) && ByNonce(Highest(b.queue[a].txs, n))
  {
    assert ProperList(b.queue[a], a, false);
  }

  lemma QueueInvalidatesNothing(l: ListState, limits: Limits, gasLimit: nat)
    requires ByNonce(l.txs) && !l.strict
    ensures Unpayable(l, limits, gasLimit) + Invalidated(l, limits, gasLimit) == Unpayable(l, limits, gasLimit)
  {
  }

  lemma PriorIsPending(b: Books, tx: Tx)
    requires Balanced(b, {}) && Has(b.pending, tx.from, tx.nonce)
    ensures var prior := b.pending[tx.from].txs[tx.nonce];
            Held(b.pending, prior) && prior.from == tx.from && prior.nonce == tx.nonce
            && prior.hash in b.all && b.all[prior.hash] == prior
  {
    assert ProperList(b.pending[tx.from], tx.from, true);
    assert Somewhere(b, {}, b.pending[tx.from].txs[tx.nonce]);
  }

  lemma HeldIsKnown(b: Books, tx: Tx)
    requires Balanced(b, {}) && Held(b.queue, tx)
    ensures tx.hash in b.all && b.all[tx.hash] == tx
  {
    assert Somewhere(b, {}, tx);
  }

  /** A lookup without some hashes. */
  ghost function LookupWithout(all: map<Hash, Tx>, gone: seq<Hash>): map<Hash, Tx> {
    map h | h in all && h !in gone :: all[h]
  }

  /** Balanced books: the lookup is the disjoint union of what is pending and what is queued. */
  lemma LookupIsUnion(b: Books, tx: Tx)
    requires Balanced(b, {})
    ensures tx.hash in b.all && b.all[tx.hash] == tx <==> Held(b.pending, tx) || Held(b.queue, tx)
    ensures !(Held(b.pending, tx) && Held(b.queue, tx))
    ensures forall a :: Contents(b.pending, a).Keys !! Contents(b.queue, a).Keys
  {
    assert Somewhere(b, {}, tx) <==> Held(b.pending, tx) || Held(b.queue, tx);
    forall a, n | n in Contents(b.pending, a)
      ensures n !in Contents(b.queue, a)
    {
      assert Has(b.pending, a, n);
      assert !Has(b.queue, a, n);
    }
  }

  /** The lists without one transaction; a list that gets empty is deleted. */
  function MinusOne(ls: Lists, tx: Tx): Lists
    requires tx.from in ls
  {
    var l := ls[tx.from].(txs := ls[tx.from].txs - {tx.nonce});
    if l.txs == map[] then ls - {tx.from} else ls[tx.from := l]
  }

  lemma IsSomewhere(b: Books, hash: Hash)
    requires Balanced(b, {}) && hash in b.all
    ensures var tx := b.all[hash]; tx.hash == hash && (Held(b.pending, tx) || Held(b.queue, tx))
    ensures var tx := b.all[hash]; Held(b.queue, tx) ==> !Has(b.pending, tx.from, tx.nonce)
  {
    assert Somewhere(b, {}, b.all[hash]);
  }

  /** Removing a pending transaction leaves those above it in hand. */
  lemma RemovePending(b: Books, tx: Tx)
    requires Balanced(b, {}) && Held(b.pending, tx)
    ensures var l := b.pending[tx.from];
            var out := From(l.txs, tx.nonce + 1);
            && ByNonce(out) && (forall n :: n in out ==> out[n].from == tx.from)
            && Balanced(Books(b.pending[tx.from := l.(txs := Below(l.txs, tx.nonce))], b.queue, b.all - {tx.hash}), SetOf(out))
  {
    hide Known, Free, Apart, From, Below, SetOf;
    var l := b.pending[tx.from];
    PendingList(b, tx.from);
    var l', out := l.(txs := Below(l.txs, tx.nonce)), From(l.txs, tx.nonce);
    CutShrinks(l, tx.nonce);
    TakePending(b, {}, tx.from, l', out);
    assert {} + SetOf(out) == SetOf(out);
    CutOne(l.txs, tx);
    Forget(b.(pending := b.pending[tx.from := l']), SetOf(out), tx);
    AboveIsOwn(l.txs, tx.nonce + 1, tx.from);
  }

  lemma ReadyIsOwn(m: Txs, start: nat, a: Recipient)
    requires ByNonce(m) && forall k :: k in m ==> m[k].from == a
    ensures forall k :: k in Executable(m, start) ==> Executable(m, start)[k].from == a
  {
  }

  lemma AboveIsOwn(m: Txs, n: nat, a: Recipient)
    requires forall k :: k in m ==> m[k].from == a
    ensures forall k :: k in From(m, n) ==> From(m, n)[k].from == a
  {
  }

  lemma PendingList(b: Books, a: Recipient)
    requires Balanced(b, {}) && a in b.pending
    ensures Capped(b.pending[a]) && forall n :: n in b.pending[a].txs ==> b.pending[a].txs[n].from == a
  {
    assert ProperList(b.pending[a], a, true);
  }

  lemma CutShrinks(l: ListState, n: nat)
    requires Capped(l)
    ensures Shrunk(l, l.(txs := Below(l.txs, n)), From(l.txs, n))
  {
    FewerCapped(l, Below(l.txs, n));
  }

  lemma CutOne(m: Txs, tx: Tx)
    requires ByNonce(m) && tx.nonce in m && m[tx.nonce] == tx
    ensures tx in SetOf(From(m, tx.nonce)) && ByNonce(From(m, tx.nonce + 1))
    ensures SetOf(From(m, tx.nonce)) - {tx} == SetOf(From(m, tx.nonce + 1))
  {
    OneOf(From(m, tx.nonce), tx.nonce);
    assert From(m, tx.nonce) - {tx.nonce} == From(m, tx.nonce + 1);
  }

  lemma RemoveQueued(b: Books, tx: Tx)
    requires Balanced(b, {}) && Held(b.queue, tx)
    ensures var l := b.queue[tx.from];
            Balanced(Books(b.pending, b.queue[tx.from := l.(txs := l.txs - {tx.nonce})], b.all - {tx.hash}), {})
  {
    hide Known, Free, Apart;
    var l := b.queue[tx.from];
    var l', out := l.(txs := l.txs - {tx.nonce}), map[tx.nonce := tx];
    ShrunkByOne(b.queue, false, tx);
    TakeQueued(b, {}, tx.from, l', out);
    assert {} + SetOf(out) == {tx} && {tx} - {tx} == {};
    Forget(b.(queue := b.queue[tx.from := l']), {tx}, tx);
  }

  /** What is left of a list without old and unpayable transactions, and those it invalidates. */
  function Payable(l: ListState, a: Recipient, head: Head): (r: ListState)
    requires ByNonce(l.txs)
    ensures ByNonce(r.txs)
  {
    Filtered(l.(txs := From(l.txs, head.nonces(a))), head.balances(a), head.maxGas)
  }

  /** What the unpayable transactions of a strict list invalidate. */
  function Demoted(l: ListState, a: Recipient, head: Head): Txs
    requires ByNonce(l.txs)
  {
    Invalidated(l.(txs := From(l.txs, head.nonces(a))), head.balances(a), head.maxGas)
  }

  /** Neither keeps or demotes anything old. */
  lemma NothingOld(l: ListState, a: Recipient, head: Head)
    requires ByNonce(l.txs)
    ensures AllFrom(Payable(l, a, head).txs, head.nonces(a)) && AllFrom(Demoted(l, a, head), head.nonces(a))
  {
    hide Covered, Affordable;
  }

  /** What goes back to a queue is not old. */
  lemma DemotedStay(l: ListState, a: Recipient, head: Head, q: Lists, q': Lists)
    requires ByNonce(l.txs)
    requires var p := Payable(l, a, head).txs;
             Joined(q, q', a, Demoted(l, a, head) + if head.nonces(a) !in p then p else map[])
    ensures forall x :: AllFrom(Contents(q, x), head.nonces(x)) ==> AllFrom(Contents(q', x), head.nonces(x))
  {
    NothingOld(l, a, head);
    hide Payable, Demoted;
  }

  /** A list that only lost its highest nonces but is not empty still starts where it did. */
  lemma StillStarts(before: Txs, after: Txs, n: nat)
    requires after == Lowest(before, |after|) && after != map[] && AllFrom(before, n) && n in before
    ensures AllFrom(after, n) && n in after
  {
    assert (set k | k in before && k < n) == {};
    assert Rank(before, n) == 0;
  }

  /** What a lookup has lost is among the given transactions, and it has not changed otherwise. */
  ghost predicate Dropped(before: map<Hash, Tx>, after: map<Hash, Tx>, out: Txs) {
    && (forall h :: h in after ==> h in before && after[h] == before[h])
    && (forall h :: h in before && h !in after ==> before[h].nonce in out && out[before[h].nonce] == before[h])
  }

  /** The pool gives up a transaction of account a only for an old nonce, for what it costs, or to cap a list. */
  ghost predicate LosesOnly(before: map<Hash, Tx>, after: map<Hash, Tx>, a: Recipient, head: Head, capped: bool) {
    && (forall h :: h in after ==> h in before && after[h] == before[h])
    && (forall h :: h in before && h !in after ==> before[h].from == a && Expendable(before[h], head, capped))
  }

  ghost predicate Expendable(tx: Tx, head: Head, capped: bool) {
    tx.nonce < head.nonces(tx.from) || !Affordable(head.balances(tx.from), head.maxGas, tx) || capped
  }

  lemma DroppedIsLost(before: map<Hash, Tx>, after: map<Hash, Tx>, out: Txs, a: Recipient, head: Head, capped: bool)
    requires Dropped(before, after, out) && forall n :: n in out ==> out[n].from == a && Expendable(out[n], head, capped)
    ensures LosesOnly(before, after, a, head, capped)
  {
    hide Expendable;
  }

  lemma NothingLost(all: map<Hash, Tx>, a: Recipient, head: Head, capped: bool)
    ensures LosesOnly(all, all, a, head, capped)
  {
  }

  lemma LosesMore(x: map<Hash, Tx>, y: map<Hash, Tx>, z: map<Hash, Tx>, a: Recipient, head: Head, c: bool, d: bool)
    requires LosesOnly(x, y, a, head, c) && LosesOnly(y, z, a, head, d)
    ensures LosesOnly(x, z, a, head, c || d)
  {
    forall h | h in x && h !in z
      ensures x[h].from == a && Expendable(x[h], head, c || d)
    {
      if h in y {
        assert y[h] == x[h];
      }
    }
  }

  lemma OldAreExpendable(l: ListState, a: Recipient, head: Head)
    requires ByNonce(l.txs) && forall n :: n in l.txs ==> l.txs[n].from == a
    ensures var out := Below(l.txs, head.nonces(a));
            forall n :: n in out ==> out[n].from == a && Expendable(out[n], head, false)
  {
  }

  lemma PartsOf(m: Txs, k: nat, a: Recipient, head: Head)
    requires forall n :: n in m ==> m[n].from == a
    ensures var out := Highest(m, k); forall n :: n in out ==> out[n].from == a && Expendable(out[n], head, true)
  {
    hide Rank;
  }

  lemma UnpayableAreExpendable(l: ListState, a: Recipient, head: Head)
    requires ByNonce(l.txs) && forall n :: n in l.txs ==> l.txs[n].from == a
    ensures var out := Unpayable(l, head.balances(a), head.maxGas);
            forall n :: n in out ==> out[n].from == a && Expendable(out[n], head, false)
  {
    hide Covered;
  }

  /** Only the list of account a has changed, and it holds `more` besides what it held. */
  ghost predicate Joined(before: Lists, after: Lists, a: Recipient, more: Txs) {
    && Contents(after, a) == Contents(before, a) + more
    && forall x :: x != a ==> Contents(after, x) == Contents(before, x)
  }

  lemma JoinedNone(ls: Lists, a: Recipient, out: Txs)
    ensures Joined(ls, ls, a, out - out.Keys)
  {
    assert out - out.Keys == map[];
  }

  lemma JoinedTwice(x: Lists, y: Lists, z: Lists, a: Recipient, m: Txs, n: Txs)
    requires Joined(x, y, a, m) && Joined(y, z, a, n)
    ensures Joined(x, z, a, m + n)
  {
    assert Contents(x, a) + m + n == Contents(x, a) + (m + n);
  }

  lemma JoinedOne(start: Lists, before: Lists, after: Lists, a: Recipient, out: Txs, left: Txs, n: nat, strict: bool)
    requires n in left && left[n].nonce == n && left[n].from == a && n in out && out[n] == left[n]
    requires Joined(start, before, a, out - left.Keys)
    requires after == before[a := Added(ListFor(before, a, strict), left[n])]
    ensures Joined(start, after, a, out - (left - {n}).Keys)
  {
    assert out - (left - {n}).Keys == (out - left.Keys)[n := out[n]];
    assert Contents(after, a) == Contents(before, a)[n := left[n]];
  }

  lemma OneOf(m: Txs, n: nat)
    requires ByNonce(m) && n in m
    ensures m[n] in SetOf(m) && SetOf(m - {n}) == SetOf(m) - {m[n]} && |m - {n}| < |m|
  {
    assert (m - {n}).Keys == m.Keys - {n};
    forall tx
      ensures tx in SetOf(m - {n}) <==> tx in SetOf(m) && tx != m[n]
    {
      if tx in SetOf(m) && tx != m[n] {
        assert tx.nonce in m - {n};
      }
    }
  }

  lemma NoneOf()
    ensures SetOf(map[]) == {}
  {
  }

  /** The place of a transaction in hand is free, and the lookup knows it. */
  lemma InHandIsFree(b: Books, hand: set<Tx>, tx: Tx)
    requires Balanced(b, hand)
    ensures tx in hand ==> !Has(b.queue, tx.from, tx.nonce) && !Has(b.pending, tx.from, tx.nonce)
    ensures tx in hand ==> tx.hash in b.all && b.all[tx.hash] == tx
  {
    assert tx in hand ==> Somewhere(b, hand, tx);
  }

  lemma LearnQueued(b: Books, tx: Tx)
    requires Balanced(b, {}) && tx.hash !in b.all
    requires !Has(b.pending, tx.from, tx.nonce) && !Has(b.queue, tx.from, tx.nonce)
    ensures Balanced(Books(b.pending, b.queue[tx.from := Added(ListFor(b.queue, tx.from, false), tx)],
                           b.all[tx.hash := tx]), {})
  {
    hide Known, Apart, Proper, Added, ListFor;
    assert {} + {tx} == {tx} && {tx} - {tx} == {};
    Learn(b, {}, tx);
    PutQueued(b.(all := b.all[tx.hash := tx]), {tx}, tx);
  }

  lemma PriorIsHeld(b: Books, tx: Tx)
    requires Balanced(b, {}) && Has(b.queue, tx.from, tx.nonce)
    ensures var prior := b.queue[tx.from].txs[tx.nonce];
            Held(b.queue, prior) && prior.from == tx.from && prior.nonce == tx.nonce
            && prior.hash in b.all && b.all[prior.hash] == prior
  {
    var prior := b.queue[tx.from].txs[tx.nonce];
    assert ProperList(b.queue[tx.from], tx.from, false);
    assert Somewhere(b, {}, prior);
  }
}
