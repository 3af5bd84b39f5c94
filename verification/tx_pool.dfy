/** The transaction pool: pending and queued lists per account, the lookup over both, the
    price heap and the virtual nonces, changed together by every operation. */
module TxPools {
  import opened Transactions
  import opened Collections
  import opened PoolLists
  import opened PricedTxs
  import opened Noncers
  import IntrinsicGas
  import opened Options

  datatype Config = Config(priceBump: nat, accountSlots: nat, globalSlots: nat, accountQueue: nat, globalQueue: nat)
  {
    /** What sanitizing a configuration guarantees. */
    predicate Sane() {
      priceBump >= 1 && accountSlots >= 1 && globalSlots >= 1 && accountQueue >= 1 && globalQueue >= 1
    }
  }

  /** The chain state at the head block, as far as the pool looks at it. */
  datatype State = State(nonce: Address -> nat, balance: Address -> nat)

  datatype PoolError =
    | AlreadyKnown | OversizedData | NegativeValue | GasLimit | InvalidSender | Underpriced
    | NonceTooLow | InsufficientFunds | GasUintOverflow | IntrinsicGasTooLow | ReplaceUnderpriced

  datatype AddResult = Added(replaced: bool) | Rejected(error: PoolError)

  /** A reset to a new head: its state, and the transactions of abandoned blocks to inject again.
      `ok` is false when the new state or the blocks in between cannot be had. */
  datatype ResetRequest = ResetRequest(ok: bool, state: State, maxGas: nat, istanbul: bool, reinject: seq<Tx>)
  {
    /** The new head is on top of the old one: nothing to inject, and no nonce falls. */
    ghost predicate Extends(state0: State) {
      ok ==> reinject == [] && forall a :: state0.nonce(a) <= state.nonce(a)
    }
  }

  /** The transaction with the same sender and nonce that a new one has to outbid, if there is one. */
  function Rivals(tx: Tx, p: NonceMap, q: NonceMap): set<Tx> {
    if tx.nonce in p then {p[tx.nonce]} else if tx.nonce in q then {q[tx.nonce]} else {}
  }

  /** The sender's lists after the pool has decided on a transaction: it takes the place of its
      rival, or joins the queue; it is turned away exactly when it does not outbid its rival. */
  ghost predicate Decided(tx: Tx, p: NonceMap, q: NonceMap, priceBump: nat, r: AddResult, p': NonceMap, q': NonceMap) {
    && (r.Added? <==> forall x :: x in Rivals(tx, p, q) ==> Outbids(tx, x, priceBump))
    && (r.Added? ==> r.replaced == (Rivals(tx, p, q) != {}))
    && (r.Rejected? ==> r.error == ReplaceUnderpriced)
    && p' == (if r.Added? && tx.nonce in p then p[tx.nonce := tx] else p)
    && q' == (if r.Added? && tx.nonce !in p then q[tx.nonce := tx] else q)
  }

  lemma DecidedPlace(tx: Tx, p: NonceMap, q: NonceMap, priceBump: nat, r: AddResult, p': NonceMap, q': NonceMap)
    requires Decided(tx, p, q, priceBump, r, p', q')
    ensures p'.Keys == p.Keys
  {
  }

  /** Whether the transaction got as far as the lists. */
  predicate Placeable(r: AddResult) {
    r.Added? || r.error == ReplaceUnderpriced
  }

  /** The pool after it has made room: what has left, and the lists and known transactions then. */
  datatype Room = Room(gone: set<Tx>, pending: ListMap, queue: ListMap, all: set<Tx>)
  {
    /** Room was made by dropping what heap entries of that order pay the slots with. Of each pending list
        what is below the lowest nonce that was dropped from it remains; what followed is queued. */
    ghost predicate From(pending0: ListMap, queue0: ListMap, all0: set<Tx>, full: bool, entries: seq<Tx>, slots: int) {
      && gone == (if full then Leaving(entries, slots) else {}) && all == all0 - gone
      && CutAll(pending0, pending, gone) && QueuesRest(pending0, queue0, pending, queue, gone)
      && Consistent(pending, queue, map[], all)
      && (!full ==> pending == pending0 && queue == queue0)
    }

    /** What was dropped is remote, and no dearer than any remote transaction that was kept. */
    ghost predicate Cheapest(all0: set<Tx>, locals: set<Address>) {
      && (forall d :: d in gone ==> d in all0 && d.sender !in locals)
      && (forall d, k :: d in gone && k in all && k.sender !in locals ==> d.gasPrice <= k.gasPrice)
    }

    /** There are enough slots for the transaction, or nobody's transactions are left to drop. */
    ghost predicate Suffices(tx: Tx, locals: set<Address>, limit: nat) {
      SlotSum(all) + NumSlots(tx) <= limit || forall x :: x in all ==> x.sender in locals
    }

    /** The transaction takes its rival's place, joins the queue, or is turned away. */
    ghost predicate Takes(tx: Tx, priceBump: nat, r: AddResult, pending1: ListMap, queue1: ListMap, all1: set<Tx>) {
      var p, q := ListOf(pending, tx.sender), ListOf(queue, tx.sender);
      && Decided(tx, p, q, priceBump, r, ListOf(pending1, tx.sender), ListOf(queue1, tx.sender))
      && SameElsewhere(pending, pending1, tx.sender) && SameElsewhere(queue, queue1, tx.sender)
      && all1 == if r.Rejected? then all else all - Rivals(tx, p, q) + {tx}
    }
  }

  lemma RoomIsCheapest(room: Room, pending0: ListMap, queue0: ListMap, all0: set<Tx>, full: bool, h: seq<Tx>,
                       locals: set<Address>, slots: int)
    requires PriceHeap(h) && (forall x :: x in all0 ==> x in h)
    requires room.From(pending0, queue0, all0, full, Popped(h, all0, locals), slots)
    ensures room.Cheapest(all0, locals)
  {
    hide PriceHeap, Popped, Consistent, CutAll, QueuesRest;
    LeavingCheapest(h, all0, locals, slots);
  }

  lemma RoomSuffices(room: Room, pending0: ListMap, queue0: ListMap, all0: set<Tx>, h: seq<Tx>, locals: set<Address>, tx: Tx, limit: nat)
    requires PriceHeap(h) && (forall x :: x in all0 ==> x in h) && RepeatsLast(Popped(h, all0, locals))
    requires room.From(pending0, queue0, all0, true, Popped(h, all0, locals), SlotSum(all0) - limit + NumSlots(tx))
    ensures room.Suffices(tx, locals, limit)
  {
    hide PriceHeap, Popped, Consistent, CutAll, QueuesRest, SlotSum, RepeatsLast, Cut;
    var s, slots := Popped(h, all0, locals), SlotSum(all0) - limit + NumSlots(tx);
    EnoughUnlessRepeated(s, slots);
    LeavingCheapest(h, all0, locals, slots);
    SlotSumMinus(all0, room.gone);
    forall x | x in all0 && x.sender !in locals
      ensures x in Members(s)
    {
      PoppedMembers(h, all0, locals, x);
    }
  }

  lemma AddHandled(before: set<Tx>, tx: Tx, r: AddResult, room: Room, priceBump: nat, pending1: ListMap, queue1: ListMap, after: set<Tx>)
    requires r == Rejected(AlreadyKnown) <==> tx in before
    requires r.Rejected? && r.error != ReplaceUnderpriced ==> after == before
    requires Placeable(r) ==> room.all <= before && room.Takes(tx, priceBump, r, pending1, queue1, after)
    ensures Handled(before, tx, r, after)
  {
  }

  lemma NoneDirty()
    ensures Dirties([], [], {})
  {
  }

  /** What an answer says about the known transactions before and after. */
  ghost predicate Handled(before: set<Tx>, tx: Tx, r: AddResult, after: set<Tx>) {
    && (r == Rejected(AlreadyKnown) <==> tx in before)
    && (r.Added? ==> tx in after && after - {tx} <= before)
    && (r.Rejected? ==> after <= before)
    && (r.Rejected? && r.error != ReplaceUnderpriced ==> after == before)
  }

  /** The senders of the transactions that were added without replacing another. */
  ghost predicate Dirties(txs: seq<Tx>, results: seq<AddResult>, dirty: set<Address>)
    requires |results| == |txs|
  {
    forall a :: a in dirty <==> exists i :: 0 <= i < |txs| && txs[i].sender == a && results[i] == Added(false)
  }

  lemma DirtiesStep(txs: seq<Tx>, i: nat, results: seq<AddResult>, dirty: set<Address>, r: AddResult)
    requires i < |txs| && |results| == i && Dirties(txs[..i], results, dirty)
    ensures Dirties(txs[..i + 1], results + [r], if r == Added(false) then dirty + {txs[i].sender} else dirty)
  {
    var longer, dirty' := results + [r], if r == Added(false) then dirty + {txs[i].sender} else dirty;
    forall a
      ensures a in dirty' <==> exists j :: 0 <= j < i + 1 && txs[..i + 1][j].sender == a && longer[j] == Added(false)
    {
      if a in dirty {
        var j :| 0 <= j < i && txs[..i][j].sender == a && results[j] == Added(false);
        assert txs[..i + 1][j].sender == a && longer[j] == Added(false);
      }
      if j :| 0 <= j < i && txs[..i + 1][j].sender == a && longer[j] == Added(false) {
        assert txs[..i][j].sender == a && results[j] == Added(false);
      }
      assert txs[..i + 1][i] == txs[i] && longer[i] == r;
    }
  }

  class TxPool {
    const config: Config
    const all: Lookup
    const priced: PricedList
    const pendingNonces: TxNoncer
    var pending: ListMap
    var queue: ListMap
    var locals: set<Address>
    var gasPrice: nat
    var currentState: State
    var currentMaxGas: nat
    var istanbul: bool

    // Known transactions that an operation has taken out of a list and not yet placed or dropped.
    ghost var flight: ListMap
    // Transactions that an operation has taken off the price heap and not yet removed.
    ghost var dropped: set<Tx>

    /** The lookup counts its slots, and the price heap has an entry for everything in it. */
    ghost predicate PricedOk()
      reads `dropped, all, priced
    {
      priced.all == all && all.Valid() && priced.Valid() && priced.Tracks(dropped)
    }

    /** Holds whenever the lock is held. */
    ghost predicate Busy()
      reads `pending, `queue, `flight, `dropped, all, priced
    {
      && PricedOk()
      && Consistent(pending, queue, flight, all.txs)
      && config.Sane()
    }

    ghost predicate Idle()
      reads `flight
    {
      forall a :: ListOf(flight, a) == map[]
    }

    /** Nothing is in flight or on its way out. */
    ghost predicate Rest()
      reads `pending, `queue, `flight, `dropped, all, priced
    {
      Busy() && Idle() && dropped == {}
    }

    /** Every pending transaction can be executed at the head state. */
    ghost predicate AllReady()
      reads `pending, `currentState, `currentMaxGas
    {
      forall a :: Ready(ListOf(pending, a), currentState.nonce(a), currentState.balance(a), currentMaxGas)
    }

    /** Holds whenever the lock is released. */
    ghost predicate Valid()
      reads this, all, priced
    {
      Rest() && AllReady()
    }

    constructor (config: Config, locals: set<Address>, gasPrice: nat, state: State, maxGas: nat, istanbul: bool)
      requires config.Sane()
      ensures Valid() && GapFreeAll() && pending == map[] && queue == map[]
      ensures currentState == state && currentMaxGas == maxGas && this.istanbul == istanbul
      ensures fresh(all) && fresh(priced) && fresh(pendingNonces) && all.txs == {}
    {
      this.config, this.locals, this.gasPrice := config, locals, gasPrice;
      this.istanbul := istanbul;
      currentState, currentMaxGas := state, maxGas;
      var lookup := new Lookup();
      all := lookup;
      priced := new PricedList(lookup);
      pendingNonces := new TxNoncer(state.nonce);
      pending, queue, flight, dropped := map[], map[], map[], {};
    }

    // ----- Taking transactions out of the lookup, and putting them into the queue -----

    method Know(tx: Tx)
      requires PricedOk() && tx !in all.txs
      modifies all, priced
      ensures PricedOk() && all.txs == old(all.txs) + {tx}
    {
      hide PriceHeap, SlotSum;
      all.Add(tx);
      priced.Put(tx);
    }

    method Unknow(tx: Tx, notify: bool)
      requires PricedOk() && tx in all.txs
      modifies all, priced
      ensures PricedOk() && all.txs == old(all.txs) - {tx}
    {
      hide PriceHeap, SlotSum;
      all.Remove(tx);
      if notify {
        priced.Removed(1);
      }
    }

    ghost method Undrop(tx: Tx)
      requires PricedOk() && tx !in all.txs
      modifies `dropped
      ensures PricedOk() && dropped == old(dropped) - {tx}
    {
      dropped := dropped - {tx};
    }

    /** Tells the price heap how many of its entries have gone stale. */
    method Notify(count: nat)
      requires Busy()
      modifies priced
      ensures Busy()
    {
      hide PriceHeap, Consistent, Config.Sane;
      priced.Removed(count);
    }

    /** Enters a transaction into the lookup, in place of the one it replaces in the list, if any. */
    method Register(tx: Tx, l: NonceMap)
      requires PricedOk() && (tx.nonce in l ==> l[tx.nonce] in all.txs)
      modifies all, priced
      ensures PricedOk()
      ensures all.txs == (if tx.nonce in l then old(all.txs) - {l[tx.nonce]} else old(all.txs)) + {tx}
    {
      hide PricedOk;
      if tx.nonce in l {
        Unknow(l[tx.nonce], true);
      }
      if tx !in all.txs {
        Know(tx);
      }
    }

    /** Removes transactions that have just been taken out of an account's list from the lookup. */
    method Forget(a: Address, drops: NonceMap)
      requires Busy() && drops == ListOf(flight, a)
      modifies `flight, all
      ensures Busy() && ListOf(flight, a) == map[] && SameElsewhere(old(flight), flight, a)
    {
      hide Consistent, ListOf, PriceHeap, SlotSum;
      var rest := drops;
      while rest != map[]
        invariant Busy() && rest == ListOf(flight, a) && SameElsewhere(old(flight), flight, a)
        decreases rest.Keys
      {
        var n :| n in rest;
        ForgetStep(pending, queue, flight, all.txs, a, n);
        all.Remove(rest[n]);
        rest := rest - {n};
        flight := WithList(flight, a, rest);
      }
    }

    /** Puts a transaction into its sender's queue, unless the one with its nonce there pays as well. */
    method EnqueueTx(tx: Tx) returns (accepted: bool, replaced: bool)
      requires Busy() && tx.nonce !in ListOf(pending, tx.sender)
      requires if tx in all.txs then Has(ListOf(flight, tx.sender), tx) else tx.nonce !in ListOf(flight, tx.sender)
      modifies `queue, `flight, all, priced
      ensures Busy()
      ensures var q := ListOf(old(queue), tx.sender);
              && accepted == (tx.nonce in q ==> Outbids(tx, q[tx.nonce], config.priceBump))
              && replaced == (accepted && tx.nonce in q)
              && ListOf(queue, tx.sender) == (if accepted then q[tx.nonce := tx] else q)
      ensures SameElsewhere(old(queue), queue, tx.sender) && SameElsewhere(old(flight), flight, tx.sender)
      ensures ListOf(flight, tx.sender) == ListOf(old(flight), tx.sender) - (if accepted then {tx.nonce} else {})
      ensures var q := ListOf(old(queue), tx.sender);
              all.txs == if !accepted then old(all.txs)
                         else (if tx.nonce in q then old(all.txs) - {q[tx.nonce]} else old(all.txs)) + {tx}
    {
      hide Consistent, ListOf, Outbids, PricedOk, WithList, Has, Config.Sane;
      var a, q := tx.sender, ListOf(queue, tx.sender);
      if tx.nonce in q && !Outbids(tx, q[tx.nonce], config.priceBump) {
        return false, false;
      }
      ghost var before := all.txs;
      QueuedIsKnown(pending, queue, flight, all.txs, a);
      Register(tx, q);
      EnqueueStep(pending, queue, flight, before, tx, all.txs);
      queue := WithList(queue, a, q[tx.nonce := tx]);
      flight := WithList(flight, a, ListOf(flight, a) - {tx.nonce});
      return true, tx.nonce in q;
    }

    /** Puts transactions that have just been taken out of the pending list of `a` into its queue. */
    method EnqueueAll(a: Address, txs: NonceMap)
      requires Busy() && txs == ListOf(flight, a)
      modifies `queue, `flight, all, priced
      ensures Busy() && ListOf(flight, a) == map[] && ListOf(queue, a) == ListOf(old(queue), a) + txs
      ensures all.txs == old(all.txs)
      ensures SameElsewhere(old(queue), queue, a) && SameElsewhere(old(flight), flight, a)
    {
      hide Consistent, ListOf, Outbids, PricedOk;
      var rest := txs;
      ghost var q := ListOf(queue, a);
      assert q + (txs - rest.Keys) == q;
      while rest != map[]
        invariant Busy() && rest == ListOf(flight, a) && rest.Keys <= txs.Keys
        invariant (forall n :: n in rest ==> rest[n] == txs[n]) && all.txs == old(all.txs)
        invariant ListOf(queue, a) == q + (txs - rest.Keys)
        invariant SameElsewhere(old(queue), queue, a) && SameElsewhere(old(flight), flight, a)
        decreases rest.Keys
      {
        var n :| n in rest;
        FlightIsApart(pending, queue, flight, all.txs, a, n);
        var accepted, _ := EnqueueTx(rest[n]);
        QueueGrows(q, txs, rest, n);
        rest := rest - {n};
      }
      assert txs - rest.Keys == txs;
    }

    /** Takes a pending transaction that has left the lookup out of its list and postpones
        everything after it. */
    method Postpone(tx: Tx, ghost before: set<Tx>)
      requires PricedOk() && Idle() && config.Sane()
      requires Consistent(pending, queue, flight, before) && all.txs == before - {tx}
      requires Has(ListOf(pending, tx.sender), tx)
      modifies `pending, `queue, `flight, all, priced, pendingNonces
      ensures Busy() && Idle() && all.txs == old(all.txs)
      ensures SameElsewhere(old(pending), pending, tx.sender) && SameElsewhere(old(queue), queue, tx.sender)
      ensures ListOf(pending, tx.sender) == Below(ListOf(old(pending), tx.sender), tx.nonce)
      ensures ListOf(queue, tx.sender) == ListOf(old(queue), tx.sender) + After(ListOf(old(pending), tx.sender), tx.nonce)
      ensures pendingNonces.Nonce(tx.sender) == Min(old(pendingNonces.Nonce(tx.sender)), tx.nonce)
      ensures forall b :: b != tx.sender ==> pendingNonces.Nonce(b) == old(pendingNonces.Nonce(b))
    {
      hide Consistent, ListOf, PricedOk, Below, After;
      var a, n, p := tx.sender, tx.nonce, ListOf(pending, tx.sender);
      RemovePendingStep(pending, queue, flight, before, tx);
      pending := WithList(pending, a, Below(p, n));
      flight := WithList(flight, a, After(p, n));
      EnqueueAll(a, After(p, n));
      pendingNonces.SetIfLower(a, n);
    }

    /** Removes one transaction; what follows it in the pending list goes back to the queue. */
    method RemoveTx(tx: Tx, outOfBound: bool)
      requires Busy() && Idle()
      modifies `pending, `queue, `flight, `dropped, all, priced, pendingNonces
      ensures Busy() && Idle() && dropped == old(dropped) - {tx} && all.txs == old(all.txs) - {tx}
      ensures SameElsewhere(old(pending), pending, tx.sender) && SameElsewhere(old(queue), queue, tx.sender)
      ensures forall b :: b != tx.sender ==> pendingNonces.Nonce(b) == old(pendingNonces.Nonce(b))
      ensures RemovedFrom(ListOf(old(pending), tx.sender), ListOf(old(queue), tx.sender), old(pendingNonces.Nonce(tx.sender)), tx,
                          ListOf(pending, tx.sender), ListOf(queue, tx.sender), pendingNonces.Nonce(tx.sender))
    {
      hide Consistent, ListOf, PricedOk, Below, After;
      var a, n := tx.sender, tx.nonce;
      ghost var before := all.txs;
      KnownPlace(pending, queue, flight, all.txs, tx);
      if tx !in all.txs {
        Undrop(tx);
        return;
      }
      Unknow(tx, outOfBound);
      Undrop(tx);
      var p, q := ListOf(pending, a), ListOf(queue, a);
      if n in p {
        Postpone(tx, before);
      } else {
        RemoveQueuedStep(pending, queue, flight, before, tx);
        queue := WithList(queue, a, q - {n});
      }
    }

    // ----- Promotion -----

    /** Drops part of the queue of `a` from the pool. */
    method DropQueued(a: Address, keep: NonceMap, drops: NonceMap)
      requires Busy() && Idle() && Splits(ListOf(queue, a), keep, drops)
      modifies `queue, `flight, all
      ensures Busy() && Idle() && ListOf(queue, a) == keep && SameElsewhere(old(queue), queue, a)
    {
      hide Consistent, ListOf, PricedOk, Splits;
      TakeQueuedStep(pending, queue, flight, all.txs, a, keep, drops);
      queue := WithList(queue, a, keep);
      flight := WithList(flight, a, drops);
      Forget(a, drops);
    }

    /** Adds an in-flight transaction to the pending list of its sender. Its nonce is free there,
        so the list neither rejects it nor replaces anything. */
    method PromoteTx(tx: Tx)
      requires Busy() && Has(ListOf(flight, tx.sender), tx)
      modifies `pending, `flight, pendingNonces
      ensures Busy() && tx.nonce !in ListOf(old(pending), tx.sender)
      ensures ListOf(pending, tx.sender) == ListOf(old(pending), tx.sender)[tx.nonce := tx]
      ensures ListOf(flight, tx.sender) == ListOf(old(flight), tx.sender) - {tx.nonce}
      ensures SameElsewhere(old(pending), pending, tx.sender) && SameElsewhere(old(flight), flight, tx.sender)
      ensures pendingNonces.Nonce(tx.sender) == tx.nonce + 1
      ensures forall b :: b != tx.sender ==> pendingNonces.Nonce(b) == old(pendingNonces.Nonce(b))
    {
      hide Consistent, ListOf, PricedOk;
      var a := tx.sender;
      PromoteStep(pending, queue, flight, all.txs, a, tx.nonce);
      pending := WithList(pending, a, ListOf(pending, a)[tx.nonce := tx]);
      flight := WithList(flight, a, ListOf(flight, a) - {tx.nonce});
      pendingNonces.Set(a, tx.nonce + 1);
    }

    /** Promotes the in-flight transactions of `a` by increasing nonce. */
    method PromoteAll(a: Address, run: NonceMap) returns (promoted: seq<Tx>)
      requires Busy() && run == ListOf(flight, a)
      modifies `pending, `flight, pendingNonces
      ensures Busy() && ListOf(flight, a) == map[] && ListOf(pending, a) == ListOf(old(pending), a) + run
      ensures SameElsewhere(old(pending), pending, a) && SameElsewhere(old(flight), flight, a)
      ensures NextNonce(run, old(pendingNonces.Nonce(a)), pendingNonces.Nonce(a))
      ensures forall b :: b != a ==> pendingNonces.Nonce(b) == old(pendingNonces.Nonce(b))
      ensures IsFlat(promoted, run)
    {
      hide Busy, Consistent, ListOf, PricedOk, Remains, NextNonce, IsFlat;
      var rest := run;
      promoted := [];
      NoneListedYet(run);
      ghost var p, next := ListOf(pending, a), pendingNonces.Nonce(a);
      RemainsStart(p, run, next);
      while rest != map[]
        invariant Busy() && rest == ListOf(flight, a) && Remains(run, rest)
        invariant NextNonce(run - rest.Keys, next, pendingNonces.Nonce(a))
        invariant forall b :: b != a ==> pendingNonces.Nonce(b) == old(pendingNonces.Nonce(b))
        invariant ListOf(pending, a) == p + (run - rest.Keys) && IsFlat(promoted, run - rest.Keys)
        invariant SameElsewhere(old(pending), pending, a) && SameElsewhere(old(flight), flight, a)
        decreases rest.Keys
      {
        ghost var least := LeastNonce(rest);
        var n :| n in rest && forall k :: k in rest ==> n <= k;
        RemainsStep(p, run, rest, n, next);
        FlightOwned(a, n);
        RemainsListed(run, rest, n, promoted);
        PromoteTx(rest[n]);
        promoted, rest := promoted + [rest[n]], rest - {n};
      }
      assert run - rest.Keys == run;
    }

    lemma FlightOwned(a: Address, n: nat)
      requires Busy() && n in ListOf(flight, a)
      ensures var tx := ListOf(flight, a)[n]; tx.sender == a && tx.nonce == n && tx in all.txs
      ensures n !in ListOf(pending, a) && n !in ListOf(queue, a)
    {
      FlightIsApart(pending, queue, flight, all.txs, a, n);
    }

    lemma FlightApart(a: Address)
      requires Busy()
      ensures Own(a, ListOf(flight, a)) && ListOf(flight, a).Keys !! ListOf(pending, a).Keys
    {
      hide Busy;
      forall n | n in ListOf(flight, a)
        ensures n !in ListOf(pending, a) && ListOf(flight, a)[n].nonce == n && ListOf(flight, a)[n].sender == a
      {
        FlightOwned(a, n);
      }
    }

    /** Drops what is stale or cannot be paid for from the queue of `a`. */
    method PruneQueue(a: Address) returns (count: nat)
      requires Busy() && Idle()
      modifies `queue, `flight, all
      ensures Busy() && Idle() && SameElsewhere(old(queue), queue, a)
      ensures ListOf(queue, a) == Executable(ListOf(old(queue), a), currentState.nonce(a), currentState.balance(a), currentMaxGas)
    {
      hide Consistent, PricedOk, Splits, From, Below, AllPayable, Unpayable, ListOf;
      var nonce, balance := currentState.nonce(a), currentState.balance(a);
      var q := ListOf(queue, a);
      var recent, olds := From(q, nonce), Below(q, nonce);
      ListSplits(q, nonce, 0, 0, 0);
      DropQueued(a, recent, olds);
      ListSplits(recent, 0, balance, currentMaxGas, 0);
      var drops := Unpayable(recent, balance, currentMaxGas);
      DropQueued(a, AllPayable(recent, balance, currentMaxGas), drops);
      count := |olds| + |drops|;
    }

    /** Promotes the run of queued transactions that starts at the pending nonce of `a`. */
    method PromoteReady(a: Address) returns (promoted: seq<Tx>)
      requires Busy() && Idle()
      modifies `pending, `queue, `flight, pendingNonces
      ensures Busy() && Idle()
      ensures var q, next := ListOf(old(queue), a), old(pendingNonces.Nonce(a));
              && ListOf(pending, a) == ListOf(old(pending), a) + ReadyRun(q, next)
              && ListOf(queue, a) == NotReady(q, next)
              && NextNonce(ReadyRun(q, next), next, pendingNonces.Nonce(a)) && IsFlat(promoted, ReadyRun(q, next))
      ensures GrownBy(old(pending), pending, promoted)
      ensures SameElsewhere(old(pending), pending, a) && SameElsewhere(old(queue), queue, a)
      ensures forall b :: b != a ==> pendingNonces.Nonce(b) == old(pendingNonces.Nonce(b))
    {
      hide Consistent, PricedOk, NextNonce, Splits, ReadyRun, NotReady, ListOf, IsFlat, GrownBy;
      var q := ListOf(queue, a);
      var next := pendingNonces.Get(a);
      ListSplits(q, next, 0, 0, 0);
      var ready, later := ReadyRun(q, next), NotReady(q, next);
      TakeQueuedStep(pending, queue, flight, all.txs, a, later, ready);
      queue := WithList(queue, a, later);
      flight := WithList(flight, a, ready);
      FlightApart(a);
      promoted := PromoteAll(a, ready);
      GrownByRun(old(pending), pending, a, ready, promoted);
    }

    /** How many queued transactions an account may keep: local ones as many as they have. */
    function QueueLimit(a: Address): Option<nat>
      reads `locals
    {
      if a in locals then None else Some(config.accountQueue)
    }

    /** Drops the highest queued nonces of a remote account beyond its allowance. */
    method CapQueue(a: Address) returns (count: nat)
      requires Busy() && Idle()
      modifies `queue, `flight, all
      ensures Busy() && Idle() && SameElsewhere(old(queue), queue, a)
      ensures ListOf(queue, a) == Within(ListOf(old(queue), a), QueueLimit(a))
    {
      hide Consistent, PricedOk, Splits, Lowest, Beyond, ListOf;
      if a in locals {
        return 0;
      }
      var q := ListOf(queue, a);
      ListSplits(q, 0, 0, 0, config.accountQueue);
      var caps := Beyond(q, config.accountQueue);
      DropQueued(a, Lowest(q, config.accountQueue), caps);
      count := |caps|;
    }

    /** Prunes the queue of `a`, promotes what is ready, and caps what remains. */
    method PromoteAccount(a: Address) returns (promoted: seq<Tx>)
      requires Busy() && Idle()
      modifies `pending, `queue, `flight, all, priced, pendingNonces
      ensures Busy() && Idle()
      ensures Promoted(ListOf(old(pending), a), ListOf(old(queue), a), old(pendingNonces.Nonce(a)),
                       currentState.nonce(a), currentState.balance(a), currentMaxGas, QueueLimit(a),
                       ListOf(pending, a), ListOf(queue, a), pendingNonces.Nonce(a))
      ensures GrownBy(old(pending), pending, promoted)
      ensures IsFlat(promoted, ReadyRun(Executable(ListOf(old(queue), a), currentState.nonce(a), currentState.balance(a), currentMaxGas),
                                        old(pendingNonces.Nonce(a))))
      ensures SameElsewhere(old(pending), pending, a) && SameElsewhere(old(queue), queue, a)
      ensures forall b :: b != a ==> pendingNonces.Nonce(b) == old(pendingNonces.Nonce(b))
    {
      hide Consistent, PricedOk, NextNonce, Executable, ReadyRun, NotReady, Lowest, GrownBy, IsFlat;
      if a !in queue {
        NothingToPromote(ListOf(pending, a), pendingNonces.Nonce(a), currentState.nonce(a), currentState.balance(a), currentMaxGas,
                         QueueLimit(a));
        NothingPromoted(pendingNonces.Nonce(a), currentState.nonce(a), currentState.balance(a), currentMaxGas);
        GrownByNone(pending);
        return [];
      }
      hide ListOf;
      var pruned := PruneQueue(a);
      promoted := PromoteReady(a);
      var capped := CapQueue(a);
      Notify(pruned + capped);
    }

    // ----- The nonces of every account over a whole run -----

    /** Between runs, each account's pending nonces are exactly those from its state nonce up to
        its virtual nonce, and nothing below that is queued. */
    ghost predicate GapFreeAll()
      reads `pending, `queue, `currentState, pendingNonces
    {
      forall a :: Exact(ListOf(pending, a), ListOf(queue, a), currentState.nonce(a), pendingNonces.Nonce(a))
    }

    ghost predicate AllPromoting(state0: Address -> nat, next0: Address -> nat)
      reads `pending, `queue, `currentState, pendingNonces
    {
      forall a :: Promoting(ListOf(pending, a), ListOf(queue, a), state0(a), next0(a),
                            currentState.nonce(a), pendingNonces.Nonce(a))
    }

    ghost predicate AllPaidUp()
      reads `pending, `currentState, `currentMaxGas, pendingNonces
    {
      forall a :: PaidUp(ListOf(pending, a), currentState.nonce(a), pendingNonces.Nonce(a), currentState.balance(a), currentMaxGas)
    }

    ghost predicate QueuedAbove(a: Address)
      reads `queue, pendingNonces
    {
      forall n :: n in ListOf(queue, a) ==> pendingNonces.Nonce(a) <= n
    }

    ghost predicate AllSettling()
      reads `pending, `queue, `currentState, pendingNonces
    {
      forall a :: Settling(ListOf(pending, a), ListOf(queue, a), currentState.nonce(a), pendingNonces.Nonce(a))
    }

    /** Promotion of one account, with what it means for the nonces of all. */
    method PromoteTracked(a: Address, ghost state0: Address -> nat, ghost next0: Address -> nat)
      returns (promoted: seq<Tx>)
      requires Busy() && Idle()
      modifies `pending, `queue, `flight, all, priced, pendingNonces
      ensures Busy() && Idle()
      ensures old(AllPromoting(state0, next0)) ==> AllPromoting(state0, next0) && QueuedAbove(a)
      ensures old(AllPromoting(state0, next0) && AllPaidUp()) ==> AllPaidUp()
      ensures old(AllReady()) ==> AllReady()
      ensures GrownBy(old(pending), pending, promoted)
      ensures forall b :: b != a && old(QueuedAbove(b)) ==> QueuedAbove(b)
      ensures Promoted(ListOf(old(pending), a), ListOf(old(queue), a), old(pendingNonces.Nonce(a)),
                       currentState.nonce(a), currentState.balance(a), currentMaxGas, QueueLimit(a),
                       ListOf(pending, a), ListOf(queue, a), pendingNonces.Nonce(a))
      ensures SameElsewhere(old(pending), pending, a) && SameElsewhere(old(queue), queue, a)
      ensures forall b :: b != a ==> pendingNonces.Nonce(b) == old(pendingNonces.Nonce(b))
    {
      hide Busy, Promoting, PaidUp, Promoted, Ready, ListOf, GrownBy, IsFlat;
      ghost var state, balance := currentState.nonce(a), currentState.balance(a);
      promoted := PromoteAccount(a);
      ghost var p, q, next := old(ListOf(pending, a)), old(ListOf(queue, a)), old(pendingNonces.Nonce(a));
      ghost var p', q', next' := ListOf(pending, a), ListOf(queue, a), pendingNonces.Nonce(a);
      if old(AllReady()) {
        PromotedReady(p, q, next, state, balance, currentMaxGas, QueueLimit(a), p', q', next');
      }
      if old(AllPromoting(state0, next0)) {
        PromotionKeeps(p, q, state0(a), next0(a), state, next, balance, currentMaxGas, QueueLimit(a), p', q', next');
        if old(AllPaidUp()) {
          PromotionKeepsPaid(p, q, state0(a), next0(a), state, next, balance, currentMaxGas, QueueLimit(a), p', q', next');
        }
      }
    }

    /** Promotes account by account; no other account is touched. The result lists exactly the
        transactions that have become pending. */
    method PromoteExecutables(accounts: seq<Address>, ghost state0: Address -> nat, ghost next0: Address -> nat)
      returns (promoted: seq<Tx>)
      requires Busy() && Idle()
      modifies `pending, `queue, `flight, all, priced, pendingNonces
      ensures Busy() && Idle()
      ensures old(AllPromoting(state0, next0)) ==> AllPromoting(state0, next0) && forall a :: a in accounts ==> QueuedAbove(a)
      ensures old(AllPromoting(state0, next0) && AllPaidUp()) ==> AllPaidUp()
      ensures old(AllReady()) ==> AllReady()
      ensures GrownBy(old(pending), pending, promoted)
      ensures forall a :: a !in accounts ==>
                ListOf(pending, a) == ListOf(old(pending), a) && ListOf(queue, a) == ListOf(old(queue), a)
                && pendingNonces.Nonce(a) == old(pendingNonces.Nonce(a))
      ensures Distinct(accounts) ==> forall a :: a in accounts ==>
                Promoted(ListOf(old(pending), a), ListOf(old(queue), a), old(pendingNonces.Nonce(a)),
                         currentState.nonce(a), currentState.balance(a), currentMaxGas, QueueLimit(a),
                         ListOf(pending, a), ListOf(queue, a), pendingNonces.Nonce(a))
      ensures forall a :: a in accounts ==> pendingNonces.Nonce(a) !in ListOf(queue, a)
    {
      hide Busy, AllPromoting, AllPaidUp, AllReady, QueuedAbove, ListOf, Promoted, GrownBy;
      promoted := [];
      GrownByNone(pending);
      for i := 0 to |accounts|
        invariant Busy() && Idle()
        invariant old(AllPromoting(state0, next0)) ==> AllPromoting(state0, next0)
        invariant old(AllPromoting(state0, next0)) ==> forall k :: 0 <= k < i ==> QueuedAbove(accounts[k])
        invariant old(AllPromoting(state0, next0) && AllPaidUp()) ==> AllPaidUp()
        invariant old(AllReady()) ==> AllReady()
        invariant GrownBy(old(pending), pending, promoted)
        invariant forall a :: a !in accounts[..i] ==>
                    ListOf(pending, a) == ListOf(old(pending), a) && ListOf(queue, a) == ListOf(old(queue), a)
                    && pendingNonces.Nonce(a) == old(pendingNonces.Nonce(a))
        invariant Distinct(accounts) ==> forall k :: 0 <= k < i ==>
                    Promoted(ListOf(old(pending), accounts[k]), ListOf(old(queue), accounts[k]), old(pendingNonces.Nonce(accounts[k])),
                             currentState.nonce(accounts[k]), currentState.balance(accounts[k]), currentMaxGas, QueueLimit(accounts[k]),
                             ListOf(pending, accounts[k]), ListOf(queue, accounts[k]), pendingNonces.Nonce(accounts[k]))
        invariant forall k :: 0 <= k < i ==> pendingNonces.Nonce(accounts[k]) !in ListOf(queue, accounts[k])
      {
        var a := accounts[i];
        ghost var before := pending;
        ghost var p, q, next := ListOf(pending, a), ListOf(queue, a), pendingNonces.Nonce(a);
        var more := PromoteTracked(a, state0, next0);
        GrownByBoth(old(pending), before, pending, promoted, more);
        promoted := promoted + more;
        PromotionExhausts(p, q, next, currentState.nonce(a), currentState.balance(a), currentMaxGas, QueueLimit(a),
                          ListOf(pending, a), ListOf(queue, a), pendingNonces.Nonce(a));
      }
    }

    // ----- Demotion -----

    /** Drops part of the pending list of `a` from the pool. */
    method DropPending(a: Address, keep: NonceMap, drops: NonceMap)
      requires Busy() && Idle() && Splits(ListOf(pending, a), keep, drops)
      modifies `pending, `flight, all
      ensures Busy() && Idle() && ListOf(pending, a) == keep && SameElsewhere(old(pending), pending, a)
    {
      hide Consistent, ListOf, PricedOk, Splits;
      TakePendingStep(pending, queue, flight, all.txs, a, keep, drops);
      pending := WithList(pending, a, keep);
      flight := WithList(flight, a, drops);
      Forget(a, drops);
    }

    /** Moves part of the pending list of `a` back to its queue. */
    method RequeuePending(a: Address, keep: NonceMap, back: NonceMap)
      requires Busy() && Idle() && Splits(ListOf(pending, a), keep, back)
      modifies `pending, `queue, `flight, all, priced
      ensures Busy() && Idle() && ListOf(pending, a) == keep && ListOf(queue, a) == ListOf(old(queue), a) + back
      ensures SameElsewhere(old(pending), pending, a) && SameElsewhere(old(queue), queue, a)
    {
      hide Consistent, ListOf, PricedOk, Splits;
      TakePendingStep(pending, queue, flight, all.txs, a, keep, back);
      pending := WithList(pending, a, keep);
      flight := WithList(flight, a, back);
      EnqueueAll(a, back);
    }

    /** Drops what is mined or cannot be paid for any more, and queues what that leaves stranded. */
    method DemoteAccount(a: Address)
      requires Busy() && Idle()
      modifies `pending, `queue, `flight, all, priced
      ensures Busy() && Idle()
      ensures Demoted(ListOf(old(pending), a), ListOf(old(queue), a), currentState.nonce(a), currentState.balance(a), currentMaxGas,
                      ListOf(pending, a), ListOf(queue, a))
      ensures SameElsewhere(old(pending), pending, a) && SameElsewhere(old(queue), queue, a)
    {
      hide Consistent, ListOf, PricedOk, From, Below, AllPayable, Unpayable, PayablePrefix, Stranded, Splits;
      var nonce, balance := currentState.nonce(a), currentState.balance(a);
      var p := ListOf(pending, a);
      var recent, olds := From(p, nonce), Below(p, nonce);
      ListSplits(p, nonce, 0, 0, 0);
      DropPending(a, recent, olds);
      var drops := Unpayable(recent, balance, currentMaxGas);
      ListSplits(recent, 0, balance, currentMaxGas, 0);
      DropPending(a, AllPayable(recent, balance, currentMaxGas), drops);
      Notify(|olds| + |drops|);
      StrictSplits(recent, balance, currentMaxGas);
      RequeuePending(a, PayablePrefix(recent, balance, currentMaxGas), Stranded(recent, balance, currentMaxGas));
      var gapped := ListOf(pending, a);
      if gapped != map[] && nonce !in gapped {
        SplitsAll(gapped);
        RequeuePending(a, map[], gapped);
      }
    }

    /** Demotes account by account, in any order. */
    method DemoteAll()
      requires Busy() && Idle()
      modifies `pending, `queue, `flight, all, priced
      ensures Busy() && Idle()
      ensures forall a :: Demoted(ListOf(old(pending), a), ListOf(old(queue), a), currentState.nonce(a), currentState.balance(a),
                                  currentMaxGas, ListOf(pending, a), ListOf(queue, a))
    {
      hide Busy, Demoted;
      var rest := pending.Keys;
      forall a | a !in rest
        ensures Demoted(ListOf(pending, a), ListOf(queue, a), currentState.nonce(a), currentState.balance(a), currentMaxGas,
                        ListOf(pending, a), ListOf(queue, a))
      {
        NothingToDemote(ListOf(queue, a), currentState.nonce(a), currentState.balance(a), currentMaxGas);
      }
      hide ListOf;
      while rest != {}
        invariant Busy() && Idle()
        invariant forall a :: a in rest ==> ListOf(pending, a) == ListOf(old(pending), a) && ListOf(queue, a) == ListOf(old(queue), a)
        invariant forall a :: a !in rest ==>
                    Demoted(ListOf(old(pending), a), ListOf(old(queue), a), currentState.nonce(a), currentState.balance(a),
                            currentMaxGas, ListOf(pending, a), ListOf(queue, a))
      {
        var a :| a in rest;
        rest := rest - {a};
        DemoteAccount(a);
      }
    }

    /** Demotion, with what it means for the nonces of all accounts. */
    method DemoteUnexecutables(ghost state0: Address -> nat, ghost next0: Address -> nat)
      requires Busy() && Idle()
      modifies `pending, `queue, `flight, all, priced
      ensures Busy() && Idle() && AllReady()
      ensures forall a :: Demoted(ListOf(old(pending), a), ListOf(old(queue), a), currentState.nonce(a), currentState.balance(a),
                                  currentMaxGas, ListOf(pending, a), ListOf(queue, a))
      ensures old(AllPromoting(state0, next0) && AllPaidUp() && forall a :: QueuedAbove(a)) ==> AllSettling()
    {
      hide Busy, Idle, Promoting, PaidUp, Settling, Demoted, Ready, ListOf;
      DemoteAll();
      forall a
        ensures Ready(ListOf(pending, a), currentState.nonce(a), currentState.balance(a), currentMaxGas)
      {
        DemotedReady(ListOf(old(pending), a), ListOf(old(queue), a), currentState.nonce(a), currentState.balance(a), currentMaxGas,
                     ListOf(pending, a), ListOf(queue, a));
      }
      if old(AllPromoting(state0, next0) && AllPaidUp() && forall a :: QueuedAbove(a)) {
        forall a
          ensures Settling(ListOf(pending, a), ListOf(queue, a), currentState.nonce(a), pendingNonces.Nonce(a))
        {
          assert old(QueuedAbove(a));
          DemotedSettles(ListOf(old(pending), a), ListOf(old(queue), a), state0(a), next0(a), currentState.nonce(a),
                         pendingNonces.Nonce(a), currentState.balance(a), currentMaxGas, ListOf(pending, a), ListOf(queue, a));
        }
      }
    }

    // ----- Truncation of the pending lists -----

    /** Drops the last pending transaction of an account that has more. */
    method TakeTail(a: Address) returns (ghost last: nat)
      requires Busy() && Idle() && |ListOf(pending, a)| >= 2
      modifies `pending, `flight, all, priced, pendingNonces
      ensures Busy() && Idle() && SameElsewhere(old(pending), pending, a)
      ensures IsLast(ListOf(old(pending), a), last) && ListOf(pending, a) == ListOf(old(pending), a) - {last}
      ensures pendingNonces.Nonce(a) == Min(old(pendingNonces.Nonce(a)), last)
      ensures forall b :: b != a ==> pendingNonces.Nonce(b) == old(pendingNonces.Nonce(b))
    {
      hide Busy, Idle, ListOf, Lowest, Beyond, Splits, Own;
      var p := ListOf(pending, a);
      last := GreatestNonce(p);
      var n :| n in p && forall k :: k in p ==> k <= n;
      last := n;
      CapByOne(p, n);
      ListSplits(p, 0, 0, 0, |p| - 1);
      DropPending(a, Lowest(p, |p| - 1), Beyond(p, |p| - 1));
      pendingNonces.SetIfLower(a, n);
      Notify(1);
    }

    method DropTail(a: Address) returns (ghost last: nat)
      requires Busy() && Idle() && |ListOf(pending, a)| >= 2
      modifies `pending, `flight, all, priced, pendingNonces
      ensures Busy() && Idle() && SameElsewhere(old(pending), pending, a)
      ensures IsLast(ListOf(old(pending), a), last) && ListOf(pending, a) == ListOf(old(pending), a) - {last}
      ensures old(AllSettling()) ==> AllSettling()
    {
      hide Busy, Idle, ListOf, Settling;
      last := TakeTail(a);
      SizeWithout(old(ListOf(pending, a)), last);
      if old(AllSettling()) {
        TailSettles(old(ListOf(pending, a)), ListOf(queue, a), currentState.nonce(a), old(pendingNonces.Nonce(a)), last);
      }
    }

    /** Takes one transaction off every account in `group`. */
    method DropRound(group: seq<Address>, ghost m0: ListMap, ghost height: nat)
      requires Busy() && Idle() && Distinct(group) && height >= 2
      requires LevelAt(m0, pending, group, height) && Trimmed(m0, pending)
      modifies `pending, `flight, all, priced, pendingNonces
      ensures Busy() && Idle() && Trimmed(m0, pending) && LevelAt(m0, pending, group, height - 1)
      ensures Count(pending) == Count(old(pending)) - |group|
      ensures old(AllSettling()) ==> AllSettling()
    {
      hide Busy, ListOf, TrimmedList, Count, AllSettling;
      for i := 0 to |group|
        invariant Busy() && Idle() && Trimmed(m0, pending)
        invariant forall k :: 0 <= k < |group| ==> |ListOf(pending, group[k])| == if k < i then height - 1 else height
        invariant forall a :: a !in group ==> ListOf(pending, a) == ListOf(m0, a)
        invariant Count(pending) == Count(old(pending)) - i
        invariant old(AllSettling()) ==> AllSettling()
      {
        ghost var before := pending;
        ghost var last := DropTail(group[i]);
        TailTrimmed(m0, before, pending, group[i], last);
      }
    }

    /** Takes transactions off every account in `group`, round by round, until the pool is within
        its limit or the accounts are down to `floor`. */
    method LevelDown(group: seq<Address>, floor: nat, count: nat, ghost m0: ListMap, ghost height: nat)
      returns (left: nat, ghost level: nat)
      requires Busy() && Idle() && Distinct(group) && group != [] && 1 <= floor <= height
      requires LevelAt(m0, pending, group, height) && Trimmed(m0, pending) && count == Count(pending)
      modifies `pending, `flight, all, priced, pendingNonces
      ensures Busy() && Idle() && Trimmed(m0, pending) && LevelAt(m0, pending, group, level)
      ensures floor <= level <= height && left == Count(pending)
      ensures left <= config.globalSlots || level == floor
      ensures count > config.globalSlots ==> left + |group| > config.globalSlots
      ensures old(AllSettling()) ==> AllSettling()
    {
      hide Busy, ListOf, TrimmedList, Count, AllSettling, Trimmed;
      left, level := count, height;
      while left > config.globalSlots && |ListOf(pending, group[|group| - 1])| > floor
        invariant Busy() && Idle() && Trimmed(m0, pending) && LevelAt(m0, pending, group, level)
        invariant floor <= level <= height && left == Count(pending)
        invariant count > config.globalSlots ==> left + |group| > config.globalSlots
        invariant old(AllSettling()) ==> AllSettling()
        decreases level
      {
        DropRound(group, m0, level);
        left, level := left - |group|, level - 1;
      }
    }

    /** Shrinks the pending lists to the global limit, penalising the largest senders first and
        equally. The next offender is one with the most transactions; ties are broken anyhow. Before
        the last transactions of the accounts in `cut` went, the pool was still above its limit. */
    method TruncatePending() returns (ghost level: nat, ghost cut: seq<Address>)
      requires Busy() && Idle()
      modifies `pending, `flight, all, priced, pendingNonces
      ensures Busy() && Idle()
      ensures Truncated(old(pending), pending, locals, config.accountSlots, level)
      ensures Count(old(pending)) <= config.globalSlots ==> pending == old(pending)
      ensures Count(pending) <= config.globalSlots
              || forall a :: a !in locals ==> |ListOf(pending, a)| <= config.accountSlots
      ensures Count(old(pending)) > config.globalSlots ==> Count(pending) + |cut| > config.globalSlots
      ensures Distinct(cut) && Offending(old(pending), locals, config.accountSlots, cut)
      ensures old(AllSettling()) ==> AllSettling()
    {
      hide Count, AllSettling, TrimmedList, ListOf, Trimmed, LevelAt, Spammers, Truncated, Distinct, Consistent, PricedOk, Offending;
      ghost var m0 := pending;
      TrimmedStart(m0);
      SpammersStart(m0, locals, config.accountSlots);
      level, cut := Count(m0), [];
      NoOffenders(m0, locals, config.accountSlots);
      var count := CountAll(pending);
      if count <= config.globalSlots {
        NothingTruncated(m0, locals, config.accountSlots);
        return;
      }
      var spammers, offenders := Heavy(pending, locals, config.accountSlots), [];
      while count > config.globalSlots && spammers != {}
        invariant Busy() && Idle() && count == Count(pending) && Distinct(offenders)
        invariant Trimmed(m0, pending) && Spammers(m0, locals, config.accountSlots, offenders, spammers)
        invariant count > config.globalSlots ==> LevelAt(m0, pending, offenders, level)
        invariant count > config.globalSlots ==> forall a :: a in spammers ==> |ListOf(m0, a)| <= level
        invariant count > config.globalSlots && offenders != [] ==> config.accountSlots <= level
        invariant count <= config.globalSlots ==> Truncated(m0, pending, locals, config.accountSlots, level)
        invariant count + |cut| > config.globalSlots && Distinct(cut) && Offending(m0, locals, config.accountSlots, cut)
        invariant old(AllSettling()) ==> AllSettling()
        decreases spammers
      {
        SpammerUntouched(m0, pending, locals, config.accountSlots, offenders, spammers, level);
        ghost var most := Heaviest(pending, spammers);
        var a :| a in spammers && forall b :: b in spammers ==> |ListOf(pending, b)| <= |ListOf(pending, a)|;
        var threshold := |ListOf(pending, a)|;
        if offenders != [] {
          SpammersOffend(m0, locals, config.accountSlots, offenders, spammers);
          cut := offenders;
          count, level := LevelDown(offenders, threshold, count, m0, level);
        } else {
          LevelOfNone(m0, pending, level, threshold);
          level := threshold;
        }
        SpammersJoin(m0, locals, config.accountSlots, offenders, spammers, a);
        if count > config.globalSlots {
          LevelJoin(m0, pending, offenders, a, level);
        } else {
          LevelIsTruncated(m0, pending, locals, config.accountSlots, offenders, spammers, level);
        }
        offenders, spammers := offenders + [a], spammers - {a};
      }
      if count > config.globalSlots {
        if offenders != [] {
          SpammersOffend(m0, locals, config.accountSlots, offenders, spammers);
          cut := offenders;
          count, level := LevelDown(offenders, config.accountSlots, count, m0, level);
        } else {
          LevelOfNone(m0, pending, level, config.accountSlots);
          level := config.accountSlots;
        }
        LevelIsTruncated(m0, pending, locals, config.accountSlots, offenders, {}, level);
        TruncatedBound(m0, pending, locals, config.accountSlots, level);
      }
    }

    // ----- Truncation of the queue -----

    /** Removes the queued transaction of `a` with nonce `n`; nothing else changes. */
    method RemoveQueued(a: Address, n: nat)
      requires Busy() && Idle() && n in ListOf(queue, a)
      modifies `pending, `queue, `flight, `dropped, all, priced, pendingNonces
      ensures Busy() && Idle() && (old(dropped) == {} ==> dropped == {})
      ensures ListOf(queue, a) == ListOf(old(queue), a) - {n} && SameElsewhere(old(queue), queue, a)
      ensures Count(queue) == Count(old(queue)) - 1
      ensures SameLists(old(pending), pending) && forall b :: pendingNonces.Nonce(b) == old(pendingNonces.Nonce(b))
    {
      hide Consistent, ListOf, PricedOk, Count;
      var tx := ListOf(queue, a)[n];
      QueuedPlace(pending, queue, flight, all.txs, a, n);
      SizeWithout(ListOf(queue, a), n);
      RemoveTx(tx, true);
      CountChange(old(queue), queue, a);
    }

    /** Removes all queued transactions of an account, by increasing nonce. */
    method ClearQueue(a: Address)
      requires Busy() && Idle()
      modifies `pending, `queue, `flight, `dropped, all, priced, pendingNonces
      ensures Busy() && Idle() && (old(dropped) == {} ==> dropped == {})
      ensures ListOf(queue, a) == map[] && SameElsewhere(old(queue), queue, a)
      ensures Count(queue) == Count(old(queue)) - |ListOf(old(queue), a)|
      ensures SameLists(old(pending), pending) && forall b :: pendingNonces.Nonce(b) == old(pendingNonces.Nonce(b))
    {
      hide Busy, ListOf, Count;
      while ListOf(queue, a) != map[]
        invariant Busy() && Idle() && (old(dropped) == {} ==> dropped == {})
        invariant SameElsewhere(old(queue), queue, a)
        invariant Count(queue) == Count(old(queue)) - |ListOf(old(queue), a)| + |ListOf(queue, a)|
        invariant SameLists(old(pending), pending) && forall b :: pendingNonces.Nonce(b) == old(pendingNonces.Nonce(b))
        decreases |ListOf(queue, a)|
      {
        var q := ListOf(queue, a);
        ghost var least := LeastNonce(q);
        var n :| n in q && forall k :: k in q ==> n <= k;
        SizeWithout(q, n);
        RemoveQueued(a, n);
      }
    }

    /** Removes the last `count` queued transactions of an account. */
    method TrimQueue(a: Address, count: nat)
      requires Busy() && Idle() && count <= |ListOf(queue, a)|
      modifies `pending, `queue, `flight, `dropped, all, priced, pendingNonces
      ensures Busy() && Idle() && (old(dropped) == {} ==> dropped == {})
      ensures TrimmedList(ListOf(old(queue), a), ListOf(queue, a)) && SameElsewhere(old(queue), queue, a)
      ensures Count(queue) == Count(old(queue)) - count
      ensures SameLists(old(pending), pending) && forall b :: pendingNonces.Nonce(b) == old(pendingNonces.Nonce(b))
    {
      ghost var q0 := ListOf(queue, a);
      assert TrimmedList(q0, q0);
      hide Busy, ListOf, Count, TrimmedList;
      var drop := count;
      while drop > 0
        invariant Busy() && Idle() && (old(dropped) == {} ==> dropped == {}) && 0 <= drop <= |ListOf(queue, a)|
        invariant TrimmedList(q0, ListOf(queue, a)) && SameElsewhere(old(queue), queue, a)
        invariant Count(queue) == Count(old(queue)) - (count - drop)
        invariant SameLists(old(pending), pending) && forall b :: pendingNonces.Nonce(b) == old(pendingNonces.Nonce(b))
      {
        var q := ListOf(queue, a);
        ghost var last := GreatestNonce(q);
        var n :| n in q && forall k :: k in q ==> k <= n;
        SizeWithout(q, n);
        TrimLast(q0, q, n);
        RemoveQueued(a, n);
        drop := drop - 1;
      }
    }

    /** Drops the whole queue of an account, or as much of its end as there is to drop. */
    method DropFrom(a: Address, drop: nat) returns (left: nat)
      requires Rest() && drop > 0
      modifies `pending, `queue, `flight, `dropped, all, priced, pendingNonces
      ensures Rest() && SameElsewhere(old(queue), queue, a) && TrimmedList(ListOf(old(queue), a), ListOf(queue, a))
      ensures left <= drop && Count(queue) == Count(old(queue)) - (drop - left) && (left > 0 ==> ListOf(queue, a) == map[])
      ensures SameLists(old(pending), pending) && forall b :: pendingNonces.Nonce(b) == old(pendingNonces.Nonce(b))
    {
      hide Busy, Count, TrimmedList, ListOf;
      var size := |ListOf(queue, a)|;
      TrimmedNone(ListOf(queue, a));
      if size <= drop {
        ClearQueue(a);
        left := drop - size;
      } else {
        TrimQueue(a, drop);
        left := 0;
      }
    }

    /** Shrinks the queue to the global limit by dropping whole remote accounts, those with the latest
        heartbeat first, and then the last transactions of one more. */
    method TruncateQueue(beats: Address -> int)
      requires Rest()
      modifies `pending, `queue, `flight, `dropped, all, priced, pendingNonces
      ensures Rest()
      ensures Count(old(queue)) <= config.globalQueue ==> queue == old(queue)
      ensures Count(old(queue)) > config.globalQueue ==>
                Count(queue) == config.globalQueue || forall a :: a !in locals ==> ListOf(queue, a) == map[]
      ensures Trimmed(old(queue), queue) && forall a :: a in locals ==> ListOf(queue, a) == ListOf(old(queue), a)
      ensures LatestFirst(old(queue), queue, locals, beats)
      ensures SameLists(old(pending), pending) && forall b :: pendingNonces.Nonce(b) == old(pendingNonces.Nonce(b))
    {
      hide Rest, Count, TrimmedList, ListOf, Shrinking;
      var queued := CountAll(queue);
      var rest, drop := queue.Keys - locals, if queued <= config.globalQueue then 0 else queued - config.globalQueue;
      ShrinkingStart(queue, locals, beats, drop > 0);
      while drop > 0 && rest != {}
        invariant Rest() && 0 <= drop && (Count(old(queue)) > config.globalQueue ==> Count(queue) == config.globalQueue + drop)
        invariant Count(old(queue)) <= config.globalQueue ==> drop == 0 && queue == old(queue)
        invariant Shrinking(old(queue), queue, locals, beats, rest, drop > 0)
        invariant SameLists(old(pending), pending) && forall b :: pendingNonces.Nonce(b) == old(pendingNonces.Nonce(b))
        decreases rest
      {
        ghost var before := queue;
        ghost var latest := Greatest(rest, beats);
        var a :| a in rest && forall b :: b in rest ==> beats(b) <= beats(a);
        drop := DropFrom(a, drop);
        ShrinkingStep(old(queue), before, queue, locals, beats, rest, a, drop > 0);
        rest := rest - {a};
      }
      ShrinkingEnds(old(queue), queue, locals, beats, rest, drop > 0);
    }

    // ----- A whole run -----

    /** Sets the virtual nonce of every account with pending transactions to the one after the last. */
    method UpdateNonces()
      requires Rest()
      modifies pendingNonces
      ensures Rest()
      ensures old(AllSettling()) ==> GapFreeAll()
    {
      assert NoEmpty(pending);
      hide Busy, Settling, Exact, NextNonce, ListOf;
      pendingNonces.SetAfter(pending);
      if old(AllSettling()) {
        forall a ensures Exact(ListOf(pending, a), ListOf(queue, a), currentState.nonce(a), pendingNonces.Nonce(a)) {
          SettledIsExact(ListOf(pending, a), ListOf(queue, a), currentState.nonce(a), old(pendingNonces.Nonce(a)), pendingNonces.Nonce(a));
        }
      }
    }

    // ----- Adding transactions -----

    /** Why a transaction is invalid or unwelcome, if it is. */
    function ValidationError(tx: Tx, local: bool): Option<PoolError>
      reads this
    {
      if tx.size > TX_MAX_SIZE then Some(OversizedData)
      else if tx.value < 0 then Some(NegativeValue)
      else if currentMaxGas < tx.gas then Some(GasLimit)
      else if !tx.signed then Some(InvalidSender)
      else if !local && tx.sender !in locals && gasPrice > tx.gasPrice then Some(Underpriced)
      else if currentState.nonce(tx.sender) > tx.nonce then Some(NonceTooLow)
      else if currentState.balance(tx.sender) < tx.Cost() then Some(InsufficientFunds)
      else match IntrinsicGas.Intrinsic(tx.data, tx.creation, true, istanbul)
        case GasOverflow => Some(GasUintOverflow)
        case Gas(intrinsic) => if tx.gas < intrinsic then Some(IntrinsicGasTooLow) else None
    }

    /** Validation looks at nothing but the transaction and the head state. */
    lemma ValidationOnly(tx: Tx, local: bool)
      ensures ValidationError(tx, local) !in {Some(ReplaceUnderpriced), Some(AlreadyKnown)}
    {
    }

    lemma ValidIsReady(tx: Tx, local: bool)
      requires ValidationError(tx, local) == None
      ensures currentState.nonce(tx.sender) <= tx.nonce
      ensures Payable(tx, currentState.balance(tx.sender), currentMaxGas)
    {
    }

    /** Removes transactions that the price heap has already let go. */
    method RemoveAll(txs: seq<Tx>)
      requires Busy() && Idle() && dropped == Members(txs)
      modifies `pending, `queue, `flight, `dropped, all, priced, pendingNonces
      ensures Rest() && all.txs == old(all.txs) - Members(txs)
      ensures CutAll(old(pending), pending, Members(txs))
      ensures old(AllReady()) ==> AllReady()
      ensures old(GapFreeAll()) ==> GapFreeAll()
    {
      hide Busy, ListOf, Ready, Exact, RemovedFrom, CutAll, AllOwn, Members;
      NoMembers<Tx>();
      CutStart(pending);
      PendingOwn();
      for i := 0 to |txs|
        invariant Busy() && Idle() && dropped <= Members(txs[i..]) && all.txs == old(all.txs) - Members(txs[..i])
        invariant CutAll(old(pending), pending, Members(txs[..i]))
        invariant old(AllReady()) ==> AllReady()
        invariant old(GapFreeAll()) ==> GapFreeAll()
      {
        var tx, a := txs[i], txs[i].sender;
        ghost var before, p, q, next := pending, ListOf(pending, a), ListOf(queue, a), pendingNonces.Nonce(a);
        RemoveTx(tx, false);
        RemovedCuts(old(pending), before, pending, Members(txs[..i]), q, next, tx, ListOf(queue, a), pendingNonces.Nonce(a));
        if old(AllReady()) {
          RemovedReady(p, q, next, tx, ListOf(pending, a), ListOf(queue, a), pendingNonces.Nonce(a),
                       currentState.nonce(a), currentState.balance(a), currentMaxGas);
        }
        if old(GapFreeAll()) {
          RemovedExact(p, q, next, tx, ListOf(pending, a), ListOf(queue, a), pendingNonces.Nonce(a), currentState.nonce(a));
        }
        MembersStep(txs, i);
      }
      assert txs[..|txs|] == txs && txs[|txs|..] == [];
    }

    lemma PendingOwn()
      requires Busy()
      ensures AllOwn(pending)
    {
      hide PricedOk;
      OwnLists(pending, queue, flight, all.txs);
    }

    /** Makes room by dropping the cheapest remote transactions, as many as it takes to pay for the
        slots in heap entries. */
    method MakeRoom(slots: int) returns (ghost gone: set<Tx>)
      requires Rest() && slots >= 0
      modifies `pending, `queue, `flight, `dropped, all, priced, pendingNonces
      ensures Rest() && all.txs == old(all.txs) - gone
      ensures gone == Leaving(Popped(old(priced.items), old(all.txs), locals), slots)
      ensures CutAll(old(pending), pending, gone)
      ensures old(AllReady()) ==> AllReady()
      ensures old(GapFreeAll()) ==> GapFreeAll()
    {
      hide Consistent, ListOf, PriceHeap, SlotSum, AllReady, GapFreeAll, Popped, Cut, CutAll;
      var drop := priced.Discard(slots, locals);
      gone := Members(drop);
      dropped := gone;
      RemoveAll(drop);
    }

    /** Puts `tx` in the place of the pending transaction with its nonce, if it pays enough more. */
    method ReplacePending(tx: Tx) returns (ok: bool)
      requires Rest() && tx !in all.txs && tx.nonce in ListOf(pending, tx.sender)
      modifies `pending, all, priced
      ensures Rest()
      ensures ok == Outbids(tx, ListOf(old(pending), tx.sender)[tx.nonce], config.priceBump)
      ensures !ok ==> pending == old(pending) && all.txs == old(all.txs)
      ensures ok ==> SameElsewhere(old(pending), pending, tx.sender)
      ensures ok ==> all.txs == old(all.txs) - {ListOf(old(pending), tx.sender)[tx.nonce]} + {tx}
      ensures ok ==> ListOf(pending, tx.sender) == ListOf(old(pending), tx.sender)[tx.nonce := tx]
    {
      hide Consistent, ListOf, PricedOk, Outbids;
      var p := ListOf(pending, tx.sender);
      if !Outbids(tx, p[tx.nonce], config.priceBump) {
        return false;
      }
      ReplaceStep(pending, queue, flight, all.txs, tx);
      pending := WithList(pending, tx.sender, p[tx.nonce := tx]);
      Unknow(p[tx.nonce], true);
      Know(tx);
      ok := true;
    }

    predicate Full()
      reads all
    {
      |all.txs| >= config.globalSlots + config.globalQueue
    }

    /** The slots by which the pool would exceed its limit with one more transaction. */
    ghost function Excess(tx: Tx): int
      reads all
    {
      SlotSum(all.txs) - (config.globalSlots + config.globalQueue) + NumSlots(tx)
    }

    /** In a full pool, a remote transaction that is no dearer than the cheapest known one is
        refused; otherwise the cheapest remote ones make room for it. */
    method Admit(tx: Tx, local: bool) returns (refused: bool, ghost gone: set<Tx>)
      requires Rest()
      modifies `pending, `queue, `flight, `dropped, all, priced, pendingNonces
      ensures Rest() && all.txs == old(all.txs) - gone && CutAll(old(pending), pending, gone)
      ensures refused <==> old(Full()) && !local && tx.sender !in locals &&
                           forall x :: x in old(all.txs) ==> tx.gasPrice <= x.gasPrice
      ensures refused || !old(Full()) ==> gone == {} && pending == old(pending) && queue == old(queue)
      ensures !refused && old(Full()) ==> gone == Leaving(Popped(old(priced.items), old(all.txs), locals), old(Excess(tx)))
      ensures old(AllReady()) ==> AllReady()
      ensures old(GapFreeAll()) ==> GapFreeAll()
    {
      hide Consistent, AllReady, GapFreeAll, PriceHeap, Popped, Leaving, CutAll, SlotSum, ListOf;
      gone := {};
      CutStart(pending);
      if !Full() {
        return false, gone;
      }
      if !local {
        refused := priced.Underpriced(tx, locals);
        if refused {
          return;
        }
      }
      SlotSumBound(all.txs);
      gone := MakeRoom(all.slots - (config.globalSlots + config.globalQueue) + NumSlots(tx));
      refused := false;
    }

    /** Puts an unknown transaction into the list where it belongs. */
    method Decide(tx: Tx) returns (r: AddResult)
      requires Rest() && tx !in all.txs
      modifies `pending, `queue, `flight, all, priced
      ensures Rest()
      ensures Decided(tx, ListOf(old(pending), tx.sender), ListOf(old(queue), tx.sender), config.priceBump, r,
                      ListOf(pending, tx.sender), ListOf(queue, tx.sender))
      ensures SameElsewhere(old(pending), pending, tx.sender) && SameElsewhere(old(queue), queue, tx.sender)
      ensures all.txs == if r.Rejected? then old(all.txs)
                         else old(all.txs) - Rivals(tx, ListOf(old(pending), tx.sender), ListOf(old(queue), tx.sender)) + {tx}
    {
      hide Busy, ListOf, Outbids;
      if tx.nonce in ListOf(pending, tx.sender) {
        var ok := ReplacePending(tx);
        r := if ok then Added(true) else Rejected(ReplaceUnderpriced);
      } else {
        var ok, replaced := EnqueueTx(tx);
        r := if ok then Added(replaced) else Rejected(ReplaceUnderpriced);
      }
    }

    /** A valid transaction keeps the pending lists executable and without gaps. */
    method Place(tx: Tx) returns (r: AddResult)
      requires Rest() && tx !in all.txs
      requires currentState.nonce(tx.sender) <= tx.nonce && Payable(tx, currentState.balance(tx.sender), currentMaxGas)
      modifies `pending, `queue, `flight, all, priced
      ensures Rest()
      ensures Decided(tx, ListOf(old(pending), tx.sender), ListOf(old(queue), tx.sender), config.priceBump, r,
                      ListOf(pending, tx.sender), ListOf(queue, tx.sender))
      ensures SameElsewhere(old(pending), pending, tx.sender) && SameElsewhere(old(queue), queue, tx.sender)
      ensures all.txs == if r.Rejected? then old(all.txs)
                         else old(all.txs) - Rivals(tx, ListOf(old(pending), tx.sender), ListOf(old(queue), tx.sender)) + {tx}
      ensures r.Rejected? ==> r.error == ReplaceUnderpriced
      ensures old(AllReady()) ==> AllReady()
      ensures old(GapFreeAll()) ==> GapFreeAll()
    {
      hide Rest, ListOf, Ready, Exact, Payable, Outbids, Rivals;
      var a := tx.sender;
      PlacedKeeps(ListOf(pending, a), ListOf(queue, a), tx, currentState.nonce(a), pendingNonces.Nonce(a),
                  currentState.balance(a), currentMaxGas);
      r := Decide(tx);
    }

    /** Lets a transaction in, if need be by making room; `room` is the pool then. */
    method EnterRoom(tx: Tx, local: bool) returns (refused: bool, ghost room: Room)
      requires Rest()
      modifies `pending, `queue, `flight, `dropped, all, priced, pendingNonces
      ensures Rest() && room == Room(room.gone, pending, queue, all.txs) && room.all <= old(all.txs)
      ensures refused <==> old(Full()) && !local && tx.sender !in locals &&
                           forall x :: x in old(all.txs) ==> tx.gasPrice <= x.gasPrice
      ensures refused ==> all.txs == old(all.txs) && pending == old(pending) && queue == old(queue)
      ensures !refused ==>
                && room.From(old(pending), old(queue), old(all.txs), old(Full()),
                             Popped(old(priced.items), old(all.txs), locals), old(Excess(tx)))
                && room.Cheapest(old(all.txs), locals)
                && (old(Full()) && RepeatsLast(Popped(old(priced.items), old(all.txs), locals)) ==>
                      room.Suffices(tx, locals, config.globalSlots + config.globalQueue))
      ensures old(AllReady()) ==> AllReady()
      ensures old(GapFreeAll()) ==> GapFreeAll()
    {
      hide Consistent, AllReady, GapFreeAll, ListOf, Popped, Leaving, CutAll, QueuesRest, SlotSum, PriceHeap, RepeatsLast, Room.Cheapest,
           Room.Suffices;
      IdleConsistent(pending, queue, flight, all.txs);
      ghost var gone;
      refused, gone := Admit(tx, local);
      room := Room(gone, pending, queue, all.txs);
      if refused {
        return;
      }
      IdleConsistent(pending, queue, flight, all.txs);
      RestIsQueued(old(pending), old(queue), old(all.txs), pending, queue, all.txs, gone);
      RoomIsCheapest(room, old(pending), old(queue), old(all.txs), old(Full()), old(priced.items), locals, old(Excess(tx)));
      if old(Full()) && RepeatsLast(Popped(old(priced.items), old(all.txs), locals)) {
        RoomSuffices(room, old(pending), old(queue), old(all.txs), old(priced.items), locals, tx,
                     config.globalSlots + config.globalQueue);
      }
    }

    /** Makes room for a valid transaction if the pool is full, and places it. `room` is the pool
        in between. */
    method Accept(tx: Tx, local: bool) returns (r: AddResult, ghost room: Room)
      requires Rest() && tx !in all.txs
      requires currentState.nonce(tx.sender) <= tx.nonce && Payable(tx, currentState.balance(tx.sender), currentMaxGas)
      modifies `pending, `queue, `flight, `dropped, `locals, all, priced, pendingNonces
      ensures Rest()
      ensures r == Rejected(Underpriced) <==>
                old(Full()) && !local && tx.sender !in old(locals) && forall x :: x in old(all.txs) ==> tx.gasPrice <= x.gasPrice
      ensures r == Rejected(Underpriced) ==> all.txs == old(all.txs) && pending == old(pending) && queue == old(queue)
      ensures r.Rejected? ==> r.error in {Underpriced, ReplaceUnderpriced}
      ensures room.all <= old(all.txs)
      ensures r != Rejected(Underpriced) ==>
                && room.From(old(pending), old(queue), old(all.txs), old(Full()),
                             Popped(old(priced.items), old(all.txs), old(locals)), old(Excess(tx)))
                && room.Takes(tx, config.priceBump, r, pending, queue, all.txs)
                && room.Cheapest(old(all.txs), old(locals))
                && (old(Full()) && RepeatsLast(Popped(old(priced.items), old(all.txs), old(locals))) ==>
                      room.Suffices(tx, old(locals), config.globalSlots + config.globalQueue))
      ensures locals == if local && r.Added? && tx.nonce !in ListOf(room.pending, tx.sender) then old(locals) + {tx.sender}
                        else old(locals)
      ensures old(AllReady()) ==> AllReady()
      ensures old(GapFreeAll()) ==> GapFreeAll()
    {
      hide Consistent, AllReady, GapFreeAll, Decided, ListOf, Rivals, Payable, Popped, SlotSum, PriceHeap, RepeatsLast, Room.From,
           Room.Cheapest, Room.Suffices;
      var refused;
      refused, room := EnterRoom(tx, local);
      if refused {
        return Rejected(Underpriced), room;
      }
      r := Place(tx);
      DecidedPlace(tx, ListOf(room.pending, tx.sender), ListOf(room.queue, tx.sender), config.priceBump, r,
                   ListOf(pending, tx.sender), ListOf(queue, tx.sender));
      if local && r.Added? && tx.nonce !in ListOf(pending, tx.sender) {
        locals := locals + {tx.sender};
      }
    }

    /** Validates a transaction and puts it into the pool: in the place of its rival, or else into the
        queue. A full pool first drops the cheapest remote transactions. */
    method Add(tx: Tx, local: bool) returns (r: AddResult, ghost room: Room)
      requires Rest()
      modifies `pending, `queue, `flight, `dropped, `locals, all, priced, pendingNonces
      ensures Rest()
      ensures Handled(old(all.txs), tx, r, all.txs)
      ensures tx !in old(all.txs) && old(ValidationError(tx, local)).Some? ==>
                r == Rejected(old(ValidationError(tx, local)).value)
      ensures tx !in old(all.txs) && old(ValidationError(tx, local)).None? ==>
                (r == Rejected(Underpriced) <==>
                 old(Full()) && !local && tx.sender !in old(locals) &&
                 forall x :: x in old(all.txs) ==> tx.gasPrice <= x.gasPrice)
      ensures r.Rejected? && r.error != ReplaceUnderpriced ==>
                all.txs == old(all.txs) && pending == old(pending) && queue == old(queue)
      ensures Placeable(r) ==>
                && room.From(old(pending), old(queue), old(all.txs), old(Full()),
                             Popped(old(priced.items), old(all.txs), old(locals)), old(Excess(tx)))
                && room.Takes(tx, config.priceBump, r, pending, queue, all.txs)
                && room.Cheapest(old(all.txs), old(locals))
                && (old(Full()) && RepeatsLast(Popped(old(priced.items), old(all.txs), old(locals))) ==>
                      room.Suffices(tx, old(locals), config.globalSlots + config.globalQueue))
      ensures locals == if local && r.Added? && tx.nonce !in ListOf(room.pending, tx.sender) then old(locals) + {tx.sender}
                        else old(locals)
      ensures old(AllReady()) ==> AllReady()
      ensures old(GapFreeAll()) ==> GapFreeAll()
    {
      hide Consistent, Idle, AllReady, GapFreeAll, Room.From, Room.Takes, Room.Cheapest, Room.Suffices, ListOf, Payable, Popped, PriceHeap,
           RepeatsLast, SlotSum;
      room := Room({}, pending, queue, all.txs);
      if tx in all.txs {
        return Rejected(AlreadyKnown), room;
      }
      var invalid := ValidationError(tx, local);
      if invalid.Some? {
        ValidationOnly(tx, local);
        return Rejected(invalid.value), room;
      }
      ValidIsReady(tx, local);
      r, room := Accept(tx, local);
      AddHandled(old(all.txs), tx, r, room, config.priceBump, pending, queue, all.txs);
    }

    /** Adds transactions one by one; `dirty` are the senders of those that are new to the queue.
        `known` are the transactions known before each of them, and after the last. */
    method AddTxs(txs: seq<Tx>, local: bool) returns (results: seq<AddResult>, dirty: set<Address>, ghost known: seq<set<Tx>>)
      requires Rest()
      modifies `pending, `queue, `flight, `dropped, `locals, all, priced, pendingNonces
      ensures Rest()
      ensures old(AllReady()) ==> AllReady()
      ensures old(GapFreeAll()) ==> GapFreeAll()
      ensures txs == [] ==> forall b :: pendingNonces.Nonce(b) == old(pendingNonces.Nonce(b))
      ensures txs == [] ==> pending == old(pending) && queue == old(queue)
      ensures |results| == |txs| && Dirties(txs, results, dirty)
      ensures |known| == |txs| + 1 && known[0] == old(all.txs) && known[|txs|] == all.txs
      ensures forall i :: 0 <= i < |txs| ==> Handled(known[i], txs[i], results[i], known[i + 1])
    {
      hide Rest, AllReady, GapFreeAll, Room.From, Room.Takes, Room.Cheapest, Room.Suffices, Handled, Dirties, ListOf, Popped, RepeatsLast,
           Full, Excess, ValidationError, Placeable;
      results, dirty, known := [], {}, [all.txs];
      NoneDirty();
      for i := 0 to |txs|
        invariant |results| == i && Dirties(txs[..i], results, dirty)
        invariant |known| == i + 1 && known[0] == old(all.txs) && known[i] == all.txs
        invariant forall k :: 0 <= k < i ==> Handled(known[k], txs[k], results[k], known[k + 1])
        invariant Rest()
        invariant old(AllReady()) ==> AllReady()
        invariant old(GapFreeAll()) ==> GapFreeAll()
        invariant i == 0 ==> forall b :: pendingNonces.Nonce(b) == old(pendingNonces.Nonce(b))
        invariant i == 0 ==> pending == old(pending) && queue == old(queue)
      {
        var r, room := Add(txs[i], local);
        DirtiesStep(txs, i, results, dirty, r);
        results := results + [r];
        known := known + [all.txs];
        if r == Added(false) {
          dirty := dirty + {txs[i].sender};
        }
      }
      assert txs[..|txs|] == txs;
    }

    /** Raises or lowers the price threshold; no remote transaction below it remains. */
    method SetGasPrice(price: nat)
      requires Valid()
      modifies `gasPrice, `pending, `queue, `flight, `dropped, all, priced, pendingNonces
      ensures Valid() && gasPrice == price
      ensures forall tx :: tx in all.txs <==> tx in old(all.txs) && (tx.sender in locals || price <= tx.gasPrice)
      ensures old(GapFreeAll()) ==> GapFreeAll()
    {
      hide Consistent, AllReady, GapFreeAll, PriceHeap;
      gasPrice := price;
      var drop := priced.Cap(price, locals);
      dropped := Members(drop);
      RemoveAll(drop);
    }

    /** Drops the queues of remote accounts that have been idle for too long. */
    method ClearIdle(idle: set<Address>)
      requires Rest()
      modifies `pending, `queue, `flight, `dropped, all, priced, pendingNonces
      ensures Rest()
      ensures Cleared(old(queue), queue, idle, locals, {})
      ensures SameLists(old(pending), pending) && forall b :: pendingNonces.Nonce(b) == old(pendingNonces.Nonce(b))
    {
      hide Busy, ListOf, Count, Cleared;
      var rest := (queue.Keys * idle) - locals;
      ClearedStart(queue, idle, locals);
      while rest != {}
        invariant Rest() && SameLists(old(pending), pending)
        invariant forall b :: pendingNonces.Nonce(b) == old(pendingNonces.Nonce(b))
        invariant Cleared(old(queue), queue, idle, locals, rest) && rest <= idle - locals
        decreases rest
      {
        var a :| a in rest;
        ghost var before := queue;
        ClearQueue(a);
        ClearedStep(old(queue), before, queue, idle, locals, rest, a);
        rest := rest - {a};
      }
    }

    method Evict(idle: set<Address>)
      requires Valid()
      modifies `pending, `queue, `flight, `dropped, all, priced, pendingNonces
      ensures Valid()
      ensures Cleared(old(queue), queue, idle, locals, {})
      ensures SameLists(old(pending), pending)
      ensures old(GapFreeAll()) ==> GapFreeAll()
    {
      hide Rest, ListOf, Ready, Exact;
      ClearIdle(idle);
      if old(GapFreeAll()) {
        forall a ensures Exact(ListOf(pending, a), ListOf(queue, a), currentState.nonce(a), pendingNonces.Nonce(a)) {
          ExactPart(ListOf(pending, a), ListOf(old(queue), a), ListOf(queue, a), currentState.nonce(a), pendingNonces.Nonce(a));
        }
      }
    }

    /** Brings both lists within their limits and the virtual nonces up to date. */
    method Shrink(beats: Address -> int)
      requires Rest() && AllReady()
      modifies `pending, `queue, `flight, `dropped, all, priced, pendingNonces
      ensures Valid()
      ensures Count(pending) <= config.globalSlots
              || forall a :: a !in locals ==> |ListOf(pending, a)| <= config.accountSlots
      ensures Count(queue) <= config.globalQueue || forall a :: a !in locals ==> ListOf(queue, a) == map[]
      ensures Trimmed(old(pending), pending) && Trimmed(old(queue), queue)
      ensures old(AllSettling()) ==> GapFreeAll()
    {
      hide Busy, ListOf, Ready, Settling, Exact, Count, TrimmedList;
      ghost var level, cut := TruncatePending();
      forall a ensures Ready(ListOf(pending, a), currentState.nonce(a), currentState.balance(a), currentMaxGas) {
        TrimmedReady(ListOf(old(pending), a), ListOf(pending, a), currentState.nonce(a), currentState.balance(a), currentMaxGas);
      }
      ShrinkQueue(beats);
      UpdateNonces();
    }

    method ShrinkQueue(beats: Address -> int)
      requires Rest() && AllReady()
      modifies `pending, `queue, `flight, `dropped, all, priced, pendingNonces
      ensures Rest() && AllReady() && Count(pending) == Count(old(pending)) && SameLists(old(pending), pending)
      ensures Count(queue) <= config.globalQueue || forall a :: a !in locals ==> ListOf(queue, a) == map[]
      ensures Trimmed(old(queue), queue)
      ensures old(AllSettling()) ==> AllSettling()
    {
      hide Busy, ListOf, Ready, Settling, Count, TrimmedList;
      TruncateQueue(beats);
      CountSameLists(old(pending), pending);
      if old(AllSettling()) {
        forall a ensures Settling(ListOf(pending, a), ListOf(queue, a), currentState.nonce(a), pendingNonces.Nonce(a)) {
          TrimmedSettles(ListOf(pending, a), ListOf(old(queue), a), ListOf(queue, a), currentState.nonce(a), pendingNonces.Nonce(a));
        }
      }
    }

    /** Moves the pool to the state of a new head and adds the transactions of abandoned blocks again;
        `known` are the transactions known before each of them, and after the last. */
    method Reset(req: ResetRequest) returns (results: seq<AddResult>, ghost known: seq<set<Tx>>)
      requires Rest()
      modifies `pending, `queue, `flight, `dropped, `locals, `currentState, `currentMaxGas, `istanbul, all, priced, pendingNonces
      ensures Rest()
      ensures !req.ok ==> currentState == old(currentState) && currentMaxGas == old(currentMaxGas)
      ensures !req.ok ==> forall b :: pendingNonces.Nonce(b) == old(pendingNonces.Nonce(b))
      ensures !req.ok ==> all.txs == old(all.txs) && istanbul == old(istanbul) && results == []
      ensures req.ok ==> currentState == req.state && currentMaxGas == req.maxGas && istanbul == req.istanbul
      ensures req.ok ==>
                && |results| == |req.reinject|
                && |known| == |req.reinject| + 1 && known[0] == old(all.txs) && known[|req.reinject|] == all.txs
                && forall i :: 0 <= i < |req.reinject| ==> Handled(known[i], req.reinject[i], results[i], known[i + 1])
      ensures req.ok && req.reinject == [] ==> forall b :: pendingNonces.Nonce(b) == req.state.nonce(b)
      ensures !req.ok || req.reinject == [] ==> pending == old(pending) && queue == old(queue)
    {
      hide Rest, AllReady, GapFreeAll, Handled, Dirties;
      results, known := [], [];
      if !req.ok {
        return;
      }
      currentState := req.state;
      pendingNonces.Restart(req.state.nonce);
      currentMaxGas := req.maxGas;
      var dirty;
      results, dirty, known := AddTxs(req.reinject, false);
      istanbul := req.istanbul;
    }

    /** A run without a new head: promotes the dirty accounts and shrinks the pool. */
    method RunPromotion(dirty: seq<Address>, beats: Address -> int)
      requires Valid()
      modifies `pending, `queue, `flight, `dropped, all, priced, pendingNonces
      ensures Valid()
      ensures Count(pending) <= config.globalSlots
              || forall a :: a !in locals ==> |ListOf(pending, a)| <= config.accountSlots
      ensures Count(queue) <= config.globalQueue || forall a :: a !in locals ==> ListOf(queue, a) == map[]
      ensures old(GapFreeAll()) ==> GapFreeAll() && forall a :: a in dirty ==> pendingNonces.Nonce(a) !in ListOf(queue, a)
    {
      hide Busy, AllReady, Exact, Promoting, Settling, ListOf, Count, Promoted, TrimmedList;
      ghost var state := currentState.nonce;
      if GapFreeAll() {
        forall a ensures Promoting(ListOf(pending, a), ListOf(queue, a), state(a), state(a), state(a), pendingNonces.Nonce(a)) {
          ExactIsPromoting(ListOf(pending, a), ListOf(queue, a), state(a), pendingNonces.Nonce(a), 0);
        }
      }
      var promoted := PromoteExecutables(dirty, state, state);
      if old(GapFreeAll()) {
        forall a
          ensures Exact(ListOf(pending, a), ListOf(queue, a), state(a), pendingNonces.Nonce(a))
          ensures Settling(ListOf(pending, a), ListOf(queue, a), state(a), pendingNonces.Nonce(a))
        {
          PromotingIsExact(ListOf(pending, a), ListOf(queue, a), state(a), pendingNonces.Nonce(a));
          ExactSettles(ListOf(pending, a), ListOf(queue, a), state(a), pendingNonces.Nonce(a));
        }
      }
      ghost var p0, q0, next0 := pending, queue, pendingNonces.View();
      assert old(GapFreeAll()) ==> forall a :: Exact(ListOf(p0, a), ListOf(q0, a), state(a), next0(a));
      Shrink(beats);
      if old(GapFreeAll()) {
        forall a | a in dirty
          ensures pendingNonces.Nonce(a) !in ListOf(queue, a)
        {
          StillExhausted(ListOf(p0, a), ListOf(q0, a), state(a), next0(a), ListOf(pending, a), ListOf(queue, a), pendingNonces.Nonce(a));
        }
      }
    }

    /** Each account's pending nonces are those from an earlier state nonce up to its virtual nonce of
        then, and virtual nonces have started over from the state. */
    ghost predicate StartedOver(state0: Address -> nat, next0: Address -> nat)
      reads `pending, `queue, `currentState, pendingNonces
    {
      forall a :: Exact(ListOf(pending, a), ListOf(queue, a), state0(a), next0(a))
                  && state0(a) <= currentState.nonce(a) == pendingNonces.Nonce(a)
    }

    /** The nonce that follows the pending ones is queued exactly for the accounts whose queued
        transactions continued pending ones that outlast the reset. */
    ghost predicate OnlyContinued(pending0: ListMap, queue0: ListMap, next0: Address -> nat)
      reads `pending, `queue, `currentState, `currentMaxGas
    {
      forall a, end :: EndsAt(ListOf(pending, a), currentState.nonce(a), end) ==>
        (end in ListOf(queue, a) <==>
         Continues(ListOf(pending0, a), ListOf(queue0, a), currentState.nonce(a), next0(a), currentState.balance(a), currentMaxGas))
    }

    /** Promotes every account with a queue. */
    method PromoteQueues(ghost state0: Address -> nat, ghost next0: Address -> nat)
      requires Busy() && Idle()
      modifies `pending, `queue, `flight, all, priced, pendingNonces
      ensures Busy() && Idle()
      ensures old(AllPromoting(state0, next0)) ==> AllPromoting(state0, next0) && forall a :: QueuedAbove(a)
      ensures old(AllPromoting(state0, next0) && AllPaidUp()) ==> AllPaidUp()
      ensures forall a :: Promoted(ListOf(old(pending), a), ListOf(old(queue), a), old(pendingNonces.Nonce(a)),
                                   currentState.nonce(a), currentState.balance(a), currentMaxGas, QueueLimit(a),
                                   ListOf(pending, a), ListOf(queue, a), pendingNonces.Nonce(a))
    {
      hide Busy, Idle, AllReady, AllPromoting, AllPaidUp, Promoted, ListOf;
      var accounts := Enumerate(queue.Keys);
      var promoted := PromoteExecutables(accounts, state0, next0);
      forall a | a !in accounts
        ensures ListOf(old(queue), a) == map[]
        ensures Promoted(ListOf(old(pending), a), ListOf(old(queue), a), old(pendingNonces.Nonce(a)),
                         currentState.nonce(a), currentState.balance(a), currentMaxGas, QueueLimit(a),
                         ListOf(pending, a), ListOf(queue, a), pendingNonces.Nonce(a))
      {
        NoList(old(queue), a);
        NothingToPromote(ListOf(pending, a), pendingNonces.Nonce(a), currentState.nonce(a), currentState.balance(a), currentMaxGas,
                         QueueLimit(a));
      }
    }

    /** The part of a reset that looks at every list: promotes what the new state allows and
        demotes what it forbids. */
    method Revalidate(ghost state0: Address -> nat, ghost next0: Address -> nat)
      requires Rest()
      modifies `pending, `queue, `flight, `dropped, all, priced, pendingNonces
      ensures Rest() && AllReady()
      ensures old(AllPromoting(state0, next0) && AllPaidUp()) ==> AllSettling()
      ensures old(StartedOver(state0, next0)) ==> OnlyContinued(old(pending), old(queue), next0)
    {
      hide PricedOk, Consistent, Idle, AllReady, AllPromoting, AllPaidUp, AllSettling, Promoted, Demoted, Continues, EndsAt, Exact, ListOf,
           QueuedAbove;
      PromoteQueues(state0, next0);
      ghost var p1, q1, next1 := pending, queue, pendingNonces.View();
      DemoteUnexecutables(state0, next0);
      if old(StartedOver(state0, next0)) {
        forall a, end | EndsAt(ListOf(pending, a), currentState.nonce(a), end)
          ensures end in ListOf(queue, a) <==>
                  Continues(ListOf(old(pending), a), ListOf(old(queue), a), currentState.nonce(a), next0(a),
                            currentState.balance(a), currentMaxGas)
        {
          ResetLeaves(ListOf(old(pending), a), ListOf(old(queue), a), state0(a), next0(a), currentState.nonce(a),
                      currentState.balance(a), currentMaxGas, QueueLimit(a), ListOf(p1, a), ListOf(q1, a), next1(a),
                      ListOf(pending, a), ListOf(queue, a), end);
        }
      }
    }

    /** A reset, with what it means for the nonces of all accounts. */
    method ResetTracked(req: ResetRequest) returns (ghost next0: Address -> nat)
      requires Valid()
      modifies `pending, `queue, `flight, `dropped, `locals, `currentState, `currentMaxGas, `istanbul, all, priced, pendingNonces
      ensures Rest() && currentState == if req.ok then req.state else old(currentState)
      ensures req.ok ==> currentMaxGas == req.maxGas && forall a :: next0(a) == old(pendingNonces.Nonce(a))
      ensures old(GapFreeAll()) && req.Extends(old(currentState)) ==>
                AllPromoting(old(currentState.nonce), next0) && AllPaidUp()
      ensures old(GapFreeAll()) && req.ok && req.Extends(old(currentState)) ==>
                StartedOver(old(currentState.nonce), next0) && pending == old(pending) && queue == old(queue)
    {
      hide Busy, Ready, Exact, Promoting, PaidUp, ListOf;
      ghost var state0 := currentState.nonce;
      next0 := if req.ok then pendingNonces.View() else state0;
      var results, known := Reset(req);
      if old(GapFreeAll()) && req.Extends(old(currentState)) {
        forall a
          ensures Promoting(ListOf(pending, a), ListOf(queue, a), state0(a), next0(a), currentState.nonce(a), pendingNonces.Nonce(a))
          ensures PaidUp(ListOf(pending, a), currentState.nonce(a), pendingNonces.Nonce(a), currentState.balance(a), currentMaxGas)
        {
          ExactIsPromoting(ListOf(pending, a), ListOf(queue, a), state0(a), old(pendingNonces.Nonce(a)), currentState.nonce(a));
          ReadyIsPaidUp(ListOf(pending, a), currentState.nonce(a), pendingNonces.Nonce(a), currentState.balance(a), currentMaxGas);
        }
      }
    }

    /** A run with a new head. When it extends the chain, a queued transaction follows right behind the
        pending ones only where it did so before and the pending ones have outlasted the reset. */
    method RunReset(req: ResetRequest, beats: Address -> int)
      requires Valid()
      modifies `pending, `queue, `flight, `dropped, `locals, `currentState, `currentMaxGas, `istanbul, all, priced, pendingNonces
      ensures Valid() && currentState == if req.ok then req.state else old(currentState)
      ensures Count(pending) <= config.globalSlots
              || forall a :: a !in locals ==> |ListOf(pending, a)| <= config.accountSlots
      ensures Count(queue) <= config.globalQueue || forall a :: a !in locals ==> ListOf(queue, a) == map[]
      ensures old(GapFreeAll()) && req.Extends(old(currentState)) ==> GapFreeAll()
      ensures old(GapFreeAll()) && req.ok && req.Extends(old(currentState)) ==> forall a ::
                pendingNonces.Nonce(a) in ListOf(queue, a) ==>
                Continues(ListOf(old(pending), a), ListOf(old(queue), a), req.state.nonce(a), old(pendingNonces.Nonce(a)),
                          req.state.balance(a), req.maxGas)
    {
      hide Busy, ListOf, Count, AllPromoting, AllPaidUp, AllReady, StartedOver, Continues, EndsAt, TrimmedList, Exact, ExactTo;
      ghost var state0 := currentState.nonce;
      ghost var next0 := ResetTracked(req);
      Revalidate(state0, next0);
      ghost var p1, q1, next1 := pending, queue, pendingNonces.View();
      assert AllSettling() ==> forall a :: Settling(ListOf(p1, a), ListOf(q1, a), currentState.nonce(a), next1(a));
      Shrink(beats);
      if old(GapFreeAll()) && req.ok && req.Extends(old(currentState)) {
        forall a | pendingNonces.Nonce(a) in ListOf(queue, a)
          ensures Continues(ListOf(old(pending), a), ListOf(old(queue), a), req.state.nonce(a), old(pendingNonces.Nonce(a)),
                            req.state.balance(a), req.maxGas)
        {
          var end: nat :| ExactTo(ListOf(p1, a), ListOf(q1, a), currentState.nonce(a), next1(a), end);
          StillBehind(ListOf(p1, a), ListOf(q1, a), currentState.nonce(a), next1(a), end,
                      ListOf(pending, a), ListOf(queue, a), pendingNonces.Nonce(a));
        }
      }
    }

    // ----- Every reachable state -----

    /** One operation under the lock; `Reorg` is a background run with or without a new head. */
    method Step(op: PoolOp)
      requires Valid()
      modifies `pending, `queue, `flight, `dropped, `locals, `gasPrice, `currentState, `currentMaxGas, `istanbul,
               all, priced, pendingNonces
      ensures Valid()
      ensures old(GapFreeAll()) && (op.NewHead? ==> op.req.Extends(old(currentState))) ==> GapFreeAll()
      ensures currentState == if op.NewHead? && op.req.ok then op.req.state else old(currentState)
    {
      hide Rest, AllReady, GapFreeAll;
      match op
      case AddTxs(txs, local) => var _, _, _ := AddTxs(txs, local);
      case SetGasPrice(price) => SetGasPrice(price);
      case Evict(idle) => Evict(idle);
      case Promote(dirty, beats) => RunPromotion(dirty, beats);
      case NewHead(req, beats) => RunReset(req, beats);
    }

    /** Any sequence of operations. */
    method Run(ops: seq<PoolOp>)
      requires Valid()
      modifies `pending, `queue, `flight, `dropped, `locals, `gasPrice, `currentState, `currentMaxGas, `istanbul,
               all, priced, pendingNonces
      ensures Valid()
      ensures old(GapFreeAll()) && OnlyExtends(ops, old(currentState)) ==> GapFreeAll()
    {
      hide Valid, GapFreeAll;
      for i := 0 to |ops|
        invariant Valid()
        invariant old(GapFreeAll()) && OnlyExtends(ops, old(currentState)) ==>
                    GapFreeAll() && OnlyExtends(ops[i..], currentState)
      {
        assert ops[i..][1..] == ops[i + 1..];
        Step(ops[i]);
      }
    }
  }

  datatype PoolOp =
    | AddTxs(txs: seq<Tx>, local: bool)
    | SetGasPrice(price: nat)
    | Evict(idle: set<Address>)
    | Promote(dirty: seq<Address>, beats: Address -> int)
    | NewHead(req: ResetRequest, beats: Address -> int)

  /** Every reset in the run goes to a head on top of the one before. */
  ghost predicate OnlyExtends(ops: seq<PoolOp>, state: State) {
    ops == [] ||
    ((ops[0].NewHead? ==> ops[0].req.Extends(state)) &&
     OnlyExtends(ops[1..], if ops[0].NewHead? && ops[0].req.ok then ops[0].req.state else state))
  }
}
