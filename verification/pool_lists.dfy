/** The contents of the transaction pool as values: what it means for pending, queue and
    lookup to agree, and which nonces each account may hold where. */
module PoolLists {
  import opened Transactions
  import opened Collections
  import opened Options

  type ListMap = map<Address, NonceMap>

  function ListOf(m: ListMap, a: Address): NonceMap {
    if a in m then m[a] else map[]
  }

  ghost predicate NoEmpty(m: ListMap) {
    forall a :: a in m ==> m[a] != map[]
  }

  lemma NoList(m: ListMap, a: Address)
    requires a !in m
    ensures ListOf(m, a) == map[]
  {
  }

  /** Replaces the list of one account; an empty list is removed from the map. */
  function WithList(m: ListMap, a: Address, l: NonceMap): (r: ListMap)
    ensures ListOf(r, a) == l
    ensures forall b :: b != a ==> ListOf(r, b) == ListOf(m, b)
    ensures NoEmpty(m) ==> NoEmpty(r)
    ensures r.Keys == if l == map[] then m.Keys - {a} else m.Keys + {a}
  {
    if l == map[] then m - {a} else m[a := l]
  }

  predicate Has(l: NonceMap, tx: Tx) {
    tx.nonce in l && l[tx.nonce] == tx
  }

  /** Everything in `l` was sent by `a` and is stored under its own nonce. */
  ghost predicate Own(a: Address, l: NonceMap) {
    forall n :: n in l ==> l[n].nonce == n && l[n].sender == a
  }

  /** One account: `p` is pending, `q` queued, `f` known but for the moment in neither. */
  ghost predicate AccountOk(a: Address, p: NonceMap, q: NonceMap, f: NonceMap) {
    && Own(a, p) && Own(a, q) && Own(a, f)
    && p.Keys !! q.Keys && p.Keys !! f.Keys && q.Keys !! f.Keys
  }

  predicate InAny(p: NonceMap, q: NonceMap, f: NonceMap, tx: Tx) {
    Has(p, tx) || Has(q, tx) || Has(f, tx)
  }

  /** The known transactions `all` are the disjoint union of pending, queued and in-flight ones,
      and no account has the same nonce in two of them. */
  ghost predicate Consistent(pending: ListMap, queue: ListMap, flight: ListMap, all: set<Tx>) {
    && NoEmpty(pending) && NoEmpty(queue)
    && (forall a :: AccountOk(a, ListOf(pending, a), ListOf(queue, a), ListOf(flight, a)))
    && (forall tx :: tx in all <==>
                     InAny(ListOf(pending, tx.sender), ListOf(queue, tx.sender), ListOf(flight, tx.sender), tx))
  }

  /** Only the lists of `a` differ. */
  ghost predicate SameElsewhere(m: ListMap, m': ListMap, a: Address) {
    forall b :: b != a ==> ListOf(m', b) == ListOf(m, b)
  }

  /** A change of one account's lists that accounts for every transaction keeps consistency. */
  lemma AccountChange(pending: ListMap, queue: ListMap, flight: ListMap, all: set<Tx>, a: Address,
                      pending': ListMap, queue': ListMap, flight': ListMap, all': set<Tx>)
    requires Consistent(pending, queue, flight, all)
    requires NoEmpty(pending') && NoEmpty(queue')
    requires SameElsewhere(pending, pending', a) && SameElsewhere(queue, queue', a)
    requires SameElsewhere(flight, flight', a)
    requires AccountOk(a, ListOf(pending', a), ListOf(queue', a), ListOf(flight', a))
    requires forall tx: Tx :: tx.sender == a ==>
               (tx in all' <==> InAny(ListOf(pending', a), ListOf(queue', a), ListOf(flight', a), tx))
    requires forall tx: Tx :: tx.sender != a ==> (tx in all' <==> tx in all)
    ensures Consistent(pending', queue', flight', all')
  {
    hide InAny, AccountOk, ListOf;
  }

  lemma KnownOf(pending: ListMap, queue: ListMap, flight: ListMap, all: set<Tx>, a: Address)
    requires Consistent(pending, queue, flight, all)
    ensures AccountOk(a, ListOf(pending, a), ListOf(queue, a), ListOf(flight, a))
    ensures forall tx: Tx :: tx.sender == a ==>
              (tx in all <==> InAny(ListOf(pending, a), ListOf(queue, a), ListOf(flight, a), tx))
  {
    hide AccountOk, InAny;
  }

  lemma IdleConsistent(pending: ListMap, queue: ListMap, flight: ListMap, all: set<Tx>)
    requires Consistent(pending, queue, flight, all) && forall a :: ListOf(flight, a) == map[]
    ensures Consistent(pending, queue, map[], all)
  {
    assert forall a :: ListOf(flight, a) == ListOf(map[], a);
  }

  lemma QueuedIsKnown(pending: ListMap, queue: ListMap, flight: ListMap, all: set<Tx>, a: Address)
    requires Consistent(pending, queue, flight, all)
    ensures forall n :: n in ListOf(queue, a) ==> ListOf(queue, a)[n] in all && ListOf(queue, a)[n].nonce == n
    ensures forall n :: n in ListOf(pending, a) ==> ListOf(pending, a)[n] in all && ListOf(pending, a)[n].nonce == n
  {
    KnownOf(pending, queue, flight, all, a);
  }

  lemma FlightIsApart(pending: ListMap, queue: ListMap, flight: ListMap, all: set<Tx>, a: Address, n: nat)
    requires Consistent(pending, queue, flight, all) && n in ListOf(flight, a)
    ensures var tx := ListOf(flight, a)[n];
            && tx.sender == a && tx.nonce == n && tx in all && Has(ListOf(flight, a), tx)
            && n !in ListOf(pending, a) && n !in ListOf(queue, a)
  {
    KnownOf(pending, queue, flight, all, a);
  }

  lemma QueueGrows(q: NonceMap, txs: NonceMap, rest: NonceMap, n: nat)
    requires n in rest && rest.Keys <= txs.Keys && rest[n] == txs[n]
    ensures (q + (txs - rest.Keys))[n := rest[n]] == q + (txs - (rest - {n}).Keys)
  {
  }

  /** A known transaction with nothing in flight is pending or queued under its nonce, not both. */
  lemma KnownPlace(pending: ListMap, queue: ListMap, flight: ListMap, all: set<Tx>, tx: Tx)
    requires Consistent(pending, queue, flight, all) && ListOf(flight, tx.sender) == map[]
    ensures var p, q := ListOf(pending, tx.sender), ListOf(queue, tx.sender);
            && (tx in all <==> Has(p, tx) || Has(q, tx))
            && (tx in all && tx.nonce in p ==> Has(p, tx) && tx.nonce !in q)
            && (tx in all && tx.nonce !in p ==> Has(q, tx))
  {
    KnownOf(pending, queue, flight, all, tx.sender);
  }

  lemma QueuedPlace(pending: ListMap, queue: ListMap, flight: ListMap, all: set<Tx>, a: Address, n: nat)
    requires Consistent(pending, queue, flight, all) && n in ListOf(queue, a)
    ensures var tx := ListOf(queue, a)[n]; tx.sender == a && tx.nonce == n && n !in ListOf(pending, a)
  {
    KnownOf(pending, queue, flight, all, a);
  }

  /** What removing `tx` does to the lists and the next nonce of its sender. */
  ghost predicate RemovedFrom(p: NonceMap, q: NonceMap, next: nat, tx: Tx, p': NonceMap, q': NonceMap, next': nat) {
    if Has(p, tx) then p' == Below(p, tx.nonce) && q' == q + After(p, tx.nonce) && next' == Min(next, tx.nonce)
    else if Has(q, tx) then p' == p && q' == q - {tx.nonce} && next' == next
    else p' == p && q' == q && next' == next
  }

  lemma RemovePendingStep(pending: ListMap, queue: ListMap, flight: ListMap, all: set<Tx>, tx: Tx)
    requires Consistent(pending, queue, flight, all) && ListOf(flight, tx.sender) == map[]
    requires Has(ListOf(pending, tx.sender), tx)
    ensures var a, p := tx.sender, ListOf(pending, tx.sender);
            Consistent(WithList(pending, a, Below(p, tx.nonce)), queue, WithList(flight, a, After(p, tx.nonce)), all - {tx})
  {
    var a, p := tx.sender, ListOf(pending, tx.sender);
    KnownOf(pending, queue, flight, all, a);
    CutAccount(p, ListOf(queue, a), all, tx);
    hide AccountOk, InAny, Below, After;
    AccountChange(pending, queue, flight, all, a, WithList(pending, a, Below(p, tx.nonce)), queue,
                  WithList(flight, a, After(p, tx.nonce)), all - {tx});
  }

  lemma CutAccount(p: NonceMap, q: NonceMap, all: set<Tx>, tx: Tx)
    requires AccountOk(tx.sender, p, q, map[]) && Has(p, tx)
    requires forall x: Tx :: x.sender == tx.sender ==> (x in all <==> InAny(p, q, map[], x))
    ensures AccountOk(tx.sender, Below(p, tx.nonce), q, After(p, tx.nonce))
    ensures forall x: Tx :: x.sender == tx.sender ==>
              (x in all - {tx} <==> InAny(Below(p, tx.nonce), q, After(p, tx.nonce), x))
  {
    forall x: Tx | x.sender == tx.sender
      ensures x in all - {tx} <==> InAny(Below(p, tx.nonce), q, After(p, tx.nonce), x)
    {
    }
  }

  lemma RemoveQueuedStep(pending: ListMap, queue: ListMap, flight: ListMap, all: set<Tx>, tx: Tx)
    requires Consistent(pending, queue, flight, all) && ListOf(flight, tx.sender) == map[]
    requires Has(ListOf(queue, tx.sender), tx)
    ensures var a, q := tx.sender, ListOf(queue, tx.sender);
            Consistent(pending, WithList(queue, a, q - {tx.nonce}), flight, all - {tx})
  {
    var a, q := tx.sender, ListOf(queue, tx.sender);
    KnownOf(pending, queue, flight, all, a);
    assert AccountOk(a, ListOf(pending, a), q - {tx.nonce}, ListOf(flight, a));
    forall x: Tx | x.sender == a
      ensures x in all - {tx} <==> InAny(ListOf(pending, a), q - {tx.nonce}, ListOf(flight, a), x)
    {
    }
    hide AccountOk, InAny;
    AccountChange(pending, queue, flight, all, a, pending, WithList(queue, a, q - {tx.nonce}), flight, all - {tx});
  }

  /** `whole` falls apart into `keep` and `part`. */
  ghost predicate Splits(whole: NonceMap, keep: NonceMap, part: NonceMap) {
    keep.Keys !! part.Keys && whole == keep + part
  }

  lemma SplitQueued(a: Address, p: NonceMap, q: NonceMap, keep: NonceMap, part: NonceMap)
    requires AccountOk(a, p, q, map[]) && Splits(q, keep, part)
    ensures AccountOk(a, p, keep, part)
    ensures forall tx :: InAny(p, q, map[], tx) <==> InAny(p, keep, part, tx)
  {
    assert forall n :: n in keep ==> n in q && q[n] == keep[n];
    assert forall n :: n in part ==> n in q && q[n] == part[n];
  }

  lemma SplitPending(a: Address, p: NonceMap, q: NonceMap, keep: NonceMap, part: NonceMap)
    requires AccountOk(a, p, q, map[]) && Splits(p, keep, part)
    ensures AccountOk(a, keep, q, part)
    ensures forall tx :: InAny(p, q, map[], tx) <==> InAny(keep, q, part, tx)
  {
    assert forall n :: n in keep ==> n in p && p[n] == keep[n];
    assert forall n :: n in part ==> n in p && p[n] == part[n];
  }

  /** Part of a queued list is taken out of it. */
  lemma TakeQueuedStep(pending: ListMap, queue: ListMap, flight: ListMap, all: set<Tx>, a: Address, keep: NonceMap, part: NonceMap)
    requires Consistent(pending, queue, flight, all) && ListOf(flight, a) == map[]
    requires Splits(ListOf(queue, a), keep, part)
    ensures Consistent(pending, WithList(queue, a, keep), WithList(flight, a, part), all)
  {
    KnownOf(pending, queue, flight, all, a);
    SplitQueued(a, ListOf(pending, a), ListOf(queue, a), keep, part);
    hide Splits, AccountOk, InAny;
    AccountChange(pending, queue, flight, all, a, pending, WithList(queue, a, keep), WithList(flight, a, part), all);
  }

  /** Part of a pending list is taken out of it. */
  lemma TakePendingStep(pending: ListMap, queue: ListMap, flight: ListMap, all: set<Tx>, a: Address, keep: NonceMap, part: NonceMap)
    requires Consistent(pending, queue, flight, all) && ListOf(flight, a) == map[]
    requires Splits(ListOf(pending, a), keep, part)
    ensures Consistent(WithList(pending, a, keep), queue, WithList(flight, a, part), all)
  {
    KnownOf(pending, queue, flight, all, a);
    SplitPending(a, ListOf(pending, a), ListOf(queue, a), keep, part);
    hide Splits, AccountOk, InAny;
    AccountChange(pending, queue, flight, all, a, WithList(pending, a, keep), queue, WithList(flight, a, part), all);
  }

  /** An in-flight transaction becomes pending. */
  lemma PromoteStep(pending: ListMap, queue: ListMap, flight: ListMap, all: set<Tx>, a: Address, n: nat)
    requires Consistent(pending, queue, flight, all) && n in ListOf(flight, a)
    ensures var p, f := ListOf(pending, a), ListOf(flight, a);
            n !in p && Consistent(WithList(pending, a, p[n := f[n]]), queue, WithList(flight, a, f - {n}), all)
  {
    var p, f := ListOf(pending, a), ListOf(flight, a);
    KnownOf(pending, queue, flight, all, a);
    PromoteAccount(a, p, ListOf(queue, a), f, n);
    hide AccountOk, InAny;
    AccountChange(pending, queue, flight, all, a, WithList(pending, a, p[n := f[n]]), queue,
                  WithList(flight, a, f - {n}), all);
  }

  lemma PromoteAccount(a: Address, p: NonceMap, q: NonceMap, f: NonceMap, n: nat)
    requires AccountOk(a, p, q, f) && n in f
    ensures n !in p && AccountOk(a, p[n := f[n]], q, f - {n})
    ensures forall tx :: InAny(p, q, f, tx) <==> InAny(p[n := f[n]], q, f - {n}, tx)
  {
  }

  lemma {:induction false} LeastNonce(m: NonceMap) returns (least: nat)
    requires m != map[]
    ensures least in m && forall k :: k in m ==> least <= k
  {
    var n :| n in m;
    var rest := m - {n};
    assert forall k :: k in m ==> k == n || k in rest;
    least := n;
    if rest != map[] {
      assert rest.Keys == m.Keys - {n};
      var other := LeastNonce(rest);
      if other < n { least := other; }
    }
  }

  /** A pending transaction is replaced by one with the same nonce. */
  lemma ReplaceStep(pending: ListMap, queue: ListMap, flight: ListMap, all: set<Tx>, tx: Tx)
    requires Consistent(pending, queue, flight, all) && tx !in all
    requires tx.nonce in ListOf(pending, tx.sender)
    ensures var a, p := tx.sender, ListOf(pending, tx.sender);
            p[tx.nonce] in all &&
            Consistent(WithList(pending, a, p[tx.nonce := tx]), queue, flight, all - {p[tx.nonce]} + {tx})
  {
    var a, p := tx.sender, ListOf(pending, tx.sender);
    KnownOf(pending, queue, flight, all, a);
    ReplaceAccount(p, ListOf(queue, a), ListOf(flight, a), all, tx);
    hide AccountOk, InAny;
    AccountChange(pending, queue, flight, all, a, WithList(pending, a, p[tx.nonce := tx]), queue, flight,
                  all - {p[tx.nonce]} + {tx});
  }

  lemma ReplaceAccount(p: NonceMap, q: NonceMap, f: NonceMap, all: set<Tx>, tx: Tx)
    requires AccountOk(tx.sender, p, q, f) && tx !in all && tx.nonce in p
    requires forall x: Tx :: x.sender == tx.sender ==> (x in all <==> InAny(p, q, f, x))
    ensures p[tx.nonce] in all && p[tx.nonce].sender == tx.sender
    ensures AccountOk(tx.sender, p[tx.nonce := tx], q, f)
    ensures forall x: Tx :: x.sender == tx.sender ==>
              (x in all - {p[tx.nonce]} + {tx} <==> InAny(p[tx.nonce := tx], q, f, x))
  {
  }

  /** The ways in which the list operations split a list. */
  lemma ListSplits(m: NonceMap, n: nat, balance: int, maxGas: nat, count: nat)
    ensures Splits(m, From(m, n), Below(m, n))
    ensures Splits(m, AllPayable(m, balance, maxGas), Unpayable(m, balance, maxGas))
    ensures Splits(m, NotReady(m, n), ReadyRun(m, n))
    ensures Splits(m, Lowest(m, count), Beyond(m, count))
  {
    hide Payable, Rank, UnbrokenTo;
  }

  lemma StrictSplits(m: NonceMap, balance: int, maxGas: nat)
    ensures Splits(AllPayable(m, balance, maxGas), PayablePrefix(m, balance, maxGas), Stranded(m, balance, maxGas))
  {
    hide Payable;
    assert forall n :: n in PayablePrefix(m, balance, maxGas) ==> n in m && Payable(m[n], balance, maxGas);
  }

  lemma SplitsAll(m: NonceMap)
    ensures Splits(m, map[], m)
  {
  }

  lemma ForgetStep(pending: ListMap, queue: ListMap, flight: ListMap, all: set<Tx>, a: Address, n: nat)
    requires Consistent(pending, queue, flight, all) && n in ListOf(flight, a)
    ensures var f := ListOf(flight, a);
            f[n] in all && Consistent(pending, queue, WithList(flight, a, f - {n}), all - {f[n]})
  {
    var f := ListOf(flight, a);
    KnownOf(pending, queue, flight, all, a);
    var all' := all - {f[n]};
    forall tx: Tx | tx.sender == a
      ensures tx in all' <==> InAny(ListOf(pending, a), ListOf(queue, a), f - {n}, tx)
    {
    }
    AccountChange(pending, queue, flight, all, a, pending, queue, WithList(flight, a, f - {n}), all');
  }

  /** A transaction enters the queue, from flight or from outside, perhaps in place of another. */
  lemma EnqueueStep(pending: ListMap, queue: ListMap, flight: ListMap, all: set<Tx>, tx: Tx, all': set<Tx>)
    requires Consistent(pending, queue, flight, all)
    requires tx.nonce !in ListOf(pending, tx.sender)
    requires if tx in all then Has(ListOf(flight, tx.sender), tx) else tx.nonce !in ListOf(flight, tx.sender)
    requires var q := ListOf(queue, tx.sender);
             all' == (if tx.nonce in q then all - {q[tx.nonce]} else all) + {tx}
    ensures var a := tx.sender;
            Consistent(pending, WithList(queue, a, ListOf(queue, a)[tx.nonce := tx]),
                       WithList(flight, a, ListOf(flight, a) - {tx.nonce}), all')
  {
    var a := tx.sender;
    var q, f := ListOf(queue, a), ListOf(flight, a);
    KnownOf(pending, queue, flight, all, a);
    EnqueueAccount(ListOf(pending, a), q, f, all, tx, all');
    hide AccountOk, InAny;
    AccountChange(pending, queue, flight, all, a, pending, WithList(queue, a, q[tx.nonce := tx]),
                  WithList(flight, a, f - {tx.nonce}), all');
  }

  lemma EnqueueAccount(p: NonceMap, q: NonceMap, f: NonceMap, all: set<Tx>, tx: Tx, all': set<Tx>)
    requires AccountOk(tx.sender, p, q, f)
    requires forall x: Tx :: x.sender == tx.sender ==> (x in all <==> InAny(p, q, f, x))
    requires tx.nonce !in p && if tx in all then Has(f, tx) else tx.nonce !in f
    requires all' == (if tx.nonce in q then all - {q[tx.nonce]} else all) + {tx}
    ensures AccountOk(tx.sender, p, q[tx.nonce := tx], f - {tx.nonce})
    ensures forall x: Tx :: x.sender == tx.sender ==>
              (x in all' <==> InAny(p, q[tx.nonce := tx], f - {tx.nonce}, x))
    ensures forall x: Tx :: x.sender != tx.sender ==> (x in all' <==> x in all)
  {
  }

  // ----- Which nonces an account holds -----

  /** Lists of an account that were gap-free with nothing left to promote still are so after losing
      transactions from their ends. */
  lemma StillExhausted(p: NonceMap, q: NonceMap, state: nat, next: nat, p': NonceMap, q': NonceMap, next': nat)
    requires Exact(p, q, state, next) && next !in q && Exact(p', q', state, next')
    requires TrimmedList(p, p') && TrimmedList(q, q')
    ensures next' !in q'
  {
    assert next < next' ==> next in p';
  }

  /** Between runs: pending is exactly [state, next), and nothing below `next` is queued. */
  ghost predicate Exact(p: NonceMap, q: NonceMap, state: nat, next: nat) {
    && state <= next
    && (forall n :: n in p <==> state <= n < next)
    && (forall n :: n in q ==> next <= n)
  }

  /** During a run, before demotion: pending is what was there before, [state0, next0), and what
      has been promoted on top of the current state, [state, next). */
  ghost predicate Promoting(p: NonceMap, q: NonceMap, state0: nat, next0: nat, state: nat, next: nat) {
    && state0 <= next0 && state0 <= state <= next && (state < next ==> next0 <= state)
    && (forall n :: n in p <==> state0 <= n < next0 || state <= n < next)
    && (forall n :: n in q ==> next0 <= n && (next <= n || n < state))
  }

  /** During a run, after demotion: pending is [state, end) for some end not below `next`. */
  ghost predicate ExactTo(p: NonceMap, q: NonceMap, state: nat, next: nat, end: nat) {
    && state <= next <= end
    && (forall n :: n in p <==> state <= n < end)
    && (forall n :: n in q ==> end <= n)
  }

  ghost predicate Settling(p: NonceMap, q: NonceMap, state: nat, next: nat) {
    exists end: nat :: ExactTo(p, q, state, next, end)
  }

  /** What is left of a queue once stale and unpayable transactions are dropped. */
  function Executable(q: NonceMap, state: nat, balance: int, maxGas: nat): NonceMap {
    AllPayable(From(q, state), balance, maxGas)
  }

  /** The nonce after the promoted run, or the old one when nothing was promoted. */
  ghost predicate NextNonce(run: NonceMap, before: nat, after: nat) {
    if run == map[] then after == before
    else after > 0 && after - 1 in run && forall n :: n in run ==> n < after
  }

  lemma NextOfLast(p: NonceMap, before: nat, last: nat)
    ensures last in p && (forall n :: n in p ==> n <= last) ==> NextNonce(p, before, last + 1)
    ensures p == map[] ==> NextNonce(p, before, before)
  {
  }

  /** What a queue may keep: all of it, or its lowest nonces up to a limit. */
  function Within(q: NonceMap, limit: Option<nat>): (r: NonceMap)
    ensures r.Keys <= q.Keys
  {
    if limit.None? then q else Lowest(q, limit.value)
  }

  /** What promotion does to the lists and the next nonce of one account. */
  ghost predicate Promoted(p: NonceMap, q: NonceMap, next: nat, state: nat, balance: int, maxGas: nat, limit: Option<nat>,
                           p': NonceMap, q': NonceMap, next': nat)
  {
    var e := Executable(q, state, balance, maxGas);
    && p' == p + ReadyRun(e, next)
    && q' == Within(NotReady(e, next), limit)
    && NextNonce(ReadyRun(e, next), next, next')
  }

  /** After a promotion, what could be promoted next is not in the queue. */
  lemma PromotionExhausts(p: NonceMap, q: NonceMap, next: nat, state: nat, balance: int, maxGas: nat, limit: Option<nat>,
                          p': NonceMap, q': NonceMap, next': nat)
    requires Promoted(p, q, next, state, balance, maxGas, limit, p', q', next')
    ensures next' !in q'
  {
    var e := Executable(q, state, balance, maxGas);
    hide Executable, Within;
    NotReadyNext(e, next, next');
  }

  lemma NotReadyNext(e: NonceMap, next: nat, next': nat)
    requires NextNonce(ReadyRun(e, next), next, next')
    ensures next' !in NotReady(e, next)
  {
    if next' in e {
      var least := LeastNonce(e);
      assert UnbrokenTo(e, least);
      assert next in e ==> least in ReadyRun(e, next);
      assert ReadyRun(e, next) != map[] ==> UnbrokenTo(e, next' - 1) && UnbrokenTo(e, next');
    }
  }

  lemma NothingPromoted(next: nat, state: nat, balance: int, maxGas: nat)
    ensures IsFlat([], ReadyRun(Executable(map[], state, balance, maxGas), next))
  {
    var none: NonceMap := map[];
    assert Executable(none, state, balance, maxGas) == none;
  }

  lemma NothingToPromote(p: NonceMap, next: nat, state: nat, balance: int, maxGas: nat, limit: Option<nat>)
    ensures Promoted(p, map[], next, state, balance, maxGas, limit, p, map[], next)
  {
    var none: NonceMap := map[];
    assert Executable(none, state, balance, maxGas) == none;
    assert ReadyRun(none, next) == none;
  }

  lemma ReadyIsInterval(q: NonceMap, next: nat, next': nat)
    requires forall n :: n in q ==> next <= n
    requires NextNonce(ReadyRun(q, next), next, next')
    ensures next <= next' && forall n :: n in ReadyRun(q, next) <==> next <= n < next'
    ensures forall n :: n in NotReady(q, next) ==> next' <= n && n in q
    ensures next < next' ==> next in q
  {
    var run := ReadyRun(q, next);
    if run != map[] {
      assert UnbrokenTo(q, next' - 1);
      var j :| j in q && j <= next;
      assert j == next;
      forall n | next <= n < next' ensures n in run {
        assert n in q;
        assert UnbrokenTo(q, n);
      }
    } else if next in q {
      assert next in q && next <= next;
      assert UnbrokenTo(q, next);
    }
  }

  lemma ExecutablePart(q: NonceMap, state: nat, balance: int, maxGas: nat)
    ensures forall n :: n in Executable(q, state, balance, maxGas) ==> n in q && state <= n
  {
  }

  /** Promotion of one account, before any demotion. */
  lemma PromotionKeeps(p: NonceMap, q: NonceMap, state0: nat, next0: nat, state: nat, next: nat,
                       balance: int, maxGas: nat, limit: Option<nat>, p': NonceMap, q': NonceMap, next': nat)
    requires Promoting(p, q, state0, next0, state, next)
    requires Promoted(p, q, next, state, balance, maxGas, limit, p', q', next')
    ensures Promoting(p', q', state0, next0, state, next')
    ensures forall n :: n in q' ==> next' <= n
  {
    hide Executable, Within, ReadyRun, NotReady, NextNonce;
    var e := Executable(q, state, balance, maxGas);
    ExecutablePart(q, state, balance, maxGas);
    ReadyIsInterval(e, next, next');
    forall n | n in q' ensures next' <= n && n in q {
      assert n in NotReady(e, next);
    }
  }

  /** Whatever stands at or above the state nonce and below the next one can be paid for. */
  ghost predicate PaidUp(p: NonceMap, state: nat, next: nat, balance: int, maxGas: nat) {
    forall n :: n in p && state <= n < next ==> Payable(p[n], balance, maxGas)
  }

  lemma PromotionKeepsPaid(p: NonceMap, q: NonceMap, state0: nat, next0: nat, state: nat, next: nat,
                           balance: int, maxGas: nat, limit: Option<nat>, p': NonceMap, q': NonceMap, next': nat)
    requires Promoting(p, q, state0, next0, state, next) && PaidUp(p, state, next, balance, maxGas)
    requires Promoted(p, q, next, state, balance, maxGas, limit, p', q', next')
    ensures PaidUp(p', state, next', balance, maxGas)
  {
    var e := Executable(q, state, balance, maxGas);
    assert forall n :: n in e ==> n in q && state <= n && Payable(e[n], balance, maxGas);
    hide Executable, Payable;
    ReadyIsInterval(e, next, next');
    var run := ReadyRun(e, next);
    assert forall n :: n in run ==> n in e && run[n] == e[n];
    hide ReadyRun, NextNonce;
  }

  lemma {:induction false} FirstUnpayable(p: NonceMap, state: nat, end: nat, balance: int, maxGas: nat)
    returns (cut: nat)
    requires state <= end && forall n :: n in p <==> state <= n < end
    ensures state <= cut <= end
    ensures forall n :: state <= n < cut ==> Payable(p[n], balance, maxGas)
    ensures cut < end ==> !Payable(p[cut], balance, maxGas)
    decreases end
  {
    if state == end {
      cut := end;
    } else {
      var q := p - {end - 1};
      assert forall n :: n in q ==> q[n] == p[n];
      cut := FirstUnpayable(q, state, end - 1, balance, maxGas);
      if cut == end - 1 && Payable(p[cut], balance, maxGas) {
        cut := end;
      }
    }
  }

  /** The payable prefix of an interval is an interval; what it strands lies above it. */
  lemma PrefixOfInterval(p: NonceMap, state: nat, end: nat, balance: int, maxGas: nat) returns (cut: nat)
    requires state <= end && forall n :: n in p <==> state <= n < end
    ensures state <= cut <= end
    ensures forall n :: n in PayablePrefix(p, balance, maxGas) <==> state <= n < cut
    ensures forall n :: n in Stranded(p, balance, maxGas) ==> cut < n < end
    ensures (forall n :: n in p ==> Payable(p[n], balance, maxGas)) <==> cut == end
  {
    cut := FirstUnpayable(p, state, end, balance, maxGas);
    hide Payable;
    var prefix := PayablePrefix(p, balance, maxGas);
    forall n ensures n in prefix <==> state <= n < cut {
      if n in prefix && cut < end { assert cut in p; }
    }
  }

  /** Demotion of one account turns what promotion left into one interval from the state nonce. */
  lemma DemotionSettles(p: NonceMap, q: NonceMap, state0: nat, next0: nat, state: nat, next: nat,
                        balance: int, maxGas: nat)
    requires Promoting(p, q, state0, next0, state, next)
    requires forall n :: n in q ==> next <= n
    requires forall n :: n in p && state <= n < next ==> Payable(p[n], balance, maxGas)
    ensures var kept := From(p, state);
            && Settling(PayablePrefix(kept, balance, maxGas), q + Stranded(kept, balance, maxGas), state, next)
            && (PayablePrefix(kept, balance, maxGas) != map[] ==> state in PayablePrefix(kept, balance, maxGas))
  {
    var kept := From(p, state);
    var end := if state < next then next else if next0 < state then state else next0;
    assert forall n :: n in kept <==> state <= n < end;
    assert state < next ==> forall n :: n in kept ==> Payable(kept[n], balance, maxGas);
    hide Payable, From;
    var cut := PrefixOfInterval(kept, state, end, balance, maxGas);
    hide PayablePrefix, Stranded;
    var prefix, stranded := PayablePrefix(kept, balance, maxGas), Stranded(kept, balance, maxGas);
    assert ExactTo(prefix, q + stranded, state, next, cut);
    if prefix != map[] {
      var n :| n in prefix;
    }
  }

  /** What demotion does to the lists of one account: stale and unpayable transactions are gone,
      what they strand is queued again, and so is everything if the state nonce is not pending. */
  ghost predicate Demoted(p: NonceMap, q: NonceMap, state: nat, balance: int, maxGas: nat, p': NonceMap, q': NonceMap) {
    var prefix := PayablePrefix(From(p, state), balance, maxGas);
    var back := q + Stranded(From(p, state), balance, maxGas);
    if prefix != map[] && state !in prefix then p' == map[] && q' == back + prefix
    else p' == prefix && q' == back
  }

  lemma NothingToDemote(q: NonceMap, state: nat, balance: int, maxGas: nat)
    ensures Demoted(map[], q, state, balance, maxGas, map[], q)
  {
    assert From(map[], state) == map[];
    assert PayablePrefix(map[], balance, maxGas) == map[];
    assert Stranded(map[], balance, maxGas) == map[];
  }

  lemma DemotedSettles(p: NonceMap, q: NonceMap, state0: nat, next0: nat, state: nat, next: nat,
                       balance: int, maxGas: nat, p': NonceMap, q': NonceMap)
    requires Promoting(p, q, state0, next0, state, next) && PaidUp(p, state, next, balance, maxGas)
    requires forall n :: n in q ==> next <= n
    requires Demoted(p, q, state, balance, maxGas, p', q')
    ensures Settling(p', q', state, next)
  {
    DemotionSettles(p, q, state0, next0, state, next, balance, maxGas);
  }

  /** Dropping the last pending transaction of an account that keeps others. */
  lemma TailSettles(p: NonceMap, q: NonceMap, state: nat, next: nat, last: nat)
    requires Settling(p, q, state, next)
    requires last in p && (forall n :: n in p ==> n <= last) && p - {last} != map[]
    ensures Settling(p - {last}, q, state, Min(next, last))
  {
    var end: nat :| ExactTo(p, q, state, next, end);
    assert last < end;
    assert end - 1 in p;
    var n :| n in p - {last};
    assert ExactTo(p - {last}, q, state, Min(next, last), last);
  }

  lemma QueueShrinkSettles(p: NonceMap, q: NonceMap, q': NonceMap, state: nat, next: nat)
    requires Settling(p, q, state, next) && q'.Keys <= q.Keys
    ensures Settling(p, q', state, next)
  {
    var end: nat :| ExactTo(p, q, state, next, end);
    assert ExactTo(p, q', state, next, end);
  }

  lemma SettledIsExact(p: NonceMap, q: NonceMap, state: nat, next: nat, next': nat)
    requires Settling(p, q, state, next) && NextNonce(p, next, next')
    ensures Exact(p, q, state, next')
  {
    var end: nat :| ExactTo(p, q, state, next, end);
    if p == map[] {
      assert state !in p;
    } else {
      assert next' - 1 in p;
      assert end - 1 in p;
    }
  }

  lemma ExactSettles(p: NonceMap, q: NonceMap, state: nat, next: nat)
    requires Exact(p, q, state, next)
    ensures Settling(p, q, state, next)
  {
    assert ExactTo(p, q, state, next, next);
  }

  /** Removing a pending transaction sends everything after it back to the queue. */
  lemma RemovalKeepsExact(p: NonceMap, q: NonceMap, state: nat, next: nat, nonce: nat)
    requires Exact(p, q, state, next) && nonce in p
    ensures Exact(Below(p, nonce), q + After(p, nonce), state, Min(next, nonce))
  {
  }

  /** `rest` is what remains of `run` once its first nonces have been dealt with. */
  ghost predicate Remains(run: NonceMap, rest: NonceMap) {
    && rest.Keys <= run.Keys && (forall n :: n in rest ==> rest[n] == run[n])
    && (forall n, k :: n in run && n !in rest && k in rest ==> n < k)
  }

  lemma RemainsStart(p: NonceMap, run: NonceMap, next: nat)
    ensures Remains(run, run) && NextNonce(run - run.Keys, next, next) && p + (run - run.Keys) == p
  {
  }

  lemma RemainsStep(p: NonceMap, run: NonceMap, rest: NonceMap, n: nat, before: nat)
    requires Remains(run, rest) && n in rest && forall k :: k in rest ==> n <= k
    ensures Remains(run, rest - {n})
    ensures NextNonce(run - (rest - {n}).Keys, before, n + 1)
    ensures (p + (run - rest.Keys))[n := rest[n]] == p + (run - (rest - {n}).Keys)
  {
    assert n in run - (rest - {n}).Keys;
    QueueGrows(p, run, rest, n);
  }

  lemma RemainsListed(run: NonceMap, rest: NonceMap, n: nat, s: seq<Tx>)
    requires Remains(run, rest) && n in rest && (forall k :: k in rest ==> n <= k) && rest[n].nonce == n
    requires IsFlat(s, run - rest.Keys)
    ensures IsFlat(s + [rest[n]], run - (rest - {n}).Keys)
  {
    var taken, one: NonceMap := run - rest.Keys, map[n := rest[n]];
    assert IsFlat([rest[n]], one);
    FlatConcat(s, taken, [rest[n]], one);
    assert taken + one == run - (rest - {n}).Keys;
  }

  lemma NoneListedYet(run: NonceMap)
    ensures IsFlat([], run - run.Keys)
  {
  }

  /** `m` has the transactions of `m0`, and besides them exactly those of `more`. */
  ghost predicate GrownBy(m0: ListMap, m: ListMap, more: seq<Tx>) {
    forall tx: Tx ::
      && (Has(ListOf(m0, tx.sender), tx) ==> Has(ListOf(m, tx.sender), tx))
      && (tx in more <==> Has(ListOf(m, tx.sender), tx) && !Has(ListOf(m0, tx.sender), tx))
  }

  lemma GrownByNone(m: ListMap)
    ensures GrownBy(m, m, [])
  {
  }

  lemma GrownByRun(m: ListMap, m': ListMap, a: Address, run: NonceMap, s: seq<Tx>)
    requires SameElsewhere(m, m', a) && ListOf(m', a) == ListOf(m, a) + run && Own(a, run) && run.Keys !! ListOf(m, a).Keys
    requires IsFlat(s, run)
    ensures GrownBy(m, m', s)
  {
    hide ListOf;
  }

  lemma GrownByBoth(m0: ListMap, m: ListMap, m': ListMap, s: seq<Tx>, t: seq<Tx>)
    requires GrownBy(m0, m, s) && GrownBy(m, m', t)
    ensures GrownBy(m0, m', s + t)
  {
    hide ListOf, Has;
  }

  // ----- Sizes, and what truncation may do -----

  /** The number of transactions in all lists together. */
  ghost function Count(m: ListMap): nat {
    CountOver(m, m.Keys)
  }

  ghost function CountOver(m: ListMap, accounts: set<Address>): nat {
    if accounts == {} then 0 else var a :| a in accounts; |ListOf(m, a)| + CountOver(m, accounts - {a})
  }

  lemma {:induction false} CountWithout(m: ListMap, accounts: set<Address>, a: Address)
    requires a in accounts
    ensures CountOver(m, accounts) == |ListOf(m, a)| + CountOver(m, accounts - {a})
  {
    var b :| b in accounts && CountOver(m, accounts) == |ListOf(m, b)| + CountOver(m, accounts - {b});
    if b != a {
      CountWithout(m, accounts - {b}, a);
      CountWithout(m, accounts - {a}, b);
      assert accounts - {b} - {a} == accounts - {a} - {b};
    }
  }

  lemma {:induction false} CountSame(m: ListMap, m': ListMap, accounts: set<Address>)
    requires forall a :: a in accounts ==> |ListOf(m, a)| == |ListOf(m', a)|
    ensures CountOver(m, accounts) == CountOver(m', accounts)
  {
    if accounts != {} {
      var a :| a in accounts;
      CountWithout(m, accounts, a);
      CountWithout(m', accounts, a);
      CountSame(m, m', accounts - {a});
    }
  }

  /** Accounts without transactions do not count. */
  lemma {:induction false} CountMore(m: ListMap, accounts: set<Address>)
    requires m.Keys <= accounts
    ensures CountOver(m, accounts) == Count(m)
  {
    if a :| a in accounts && a !in m {
      CountWithout(m, accounts, a);
      CountMore(m, accounts - {a});
    } else {
      assert accounts == m.Keys;
    }
  }

  lemma CountChange(m: ListMap, m': ListMap, a: Address)
    requires SameElsewhere(m, m', a)
    ensures Count(m') == Count(m) - |ListOf(m, a)| + |ListOf(m', a)|
  {
    hide CountOver, Count, ListOf;
    var accounts := m.Keys + m'.Keys + {a};
    CountMore(m, accounts);
    CountMore(m', accounts);
    CountWithout(m, accounts, a);
    CountWithout(m', accounts, a);
    CountSame(m, m', accounts - {a});
  }

  /** `l` keeps the lowest nonces of `l0`. */
  ghost predicate TrimmedList(l0: NonceMap, l: NonceMap) {
    && l.Keys <= l0.Keys && (forall n :: n in l ==> l[n] == l0[n])
    && (forall i, j :: i in l && j in l0 && j !in l ==> i < j)
  }

  lemma TrimLast(l0: NonceMap, l: NonceMap, last: nat)
    requires TrimmedList(l0, l) && last in l && forall k :: k in l ==> k <= last
    ensures TrimmedList(l0, l - {last})
  {
  }

  // ----- What a run with a reset leaves in the queue -----

  /** Pending is the interval from the state nonce up to `end`. */
  ghost predicate EndsAt(p: NonceMap, state: nat, end: nat) {
    state <= end && forall n :: n in p <==> state <= n < end
  }

  /** The old pending transactions outlast the new state nonce and can all be paid for, and so can
      the queued one that continues them. */
  ghost predicate Continues(p: NonceMap, q: NonceMap, state: nat, next: nat, balance: int, maxGas: nat) {
    && state < next && next in q && Payable(q[next], balance, maxGas)
    && forall n :: state <= n < next ==> n in p && Payable(p[n], balance, maxGas)
  }

  /** Nothing is promoted if the state nonce is below everything in the queue. */
  lemma PromotesNothing(p: NonceMap, q: NonceMap, state: nat, balance: int, maxGas: nat, limit: Option<nat>,
                        p': NonceMap, q': NonceMap, next': nat)
    requires Promoted(p, q, state, state, balance, maxGas, limit, p', q', next') && forall n :: n in q ==> state < n
    ensures p' == p && q' == Within(Executable(q, state, balance, maxGas), limit)
  {
    var e := Executable(q, state, balance, maxGas);
    ExecutablePart(q, state, balance, maxGas);
    hide Executable;
    assert ReadyRun(e, state) == map[];
    assert NotReady(e, state) == e;
    assert p + map[] == p;
  }

  lemma LeastWithin(q: NonceMap, limit: Option<nat>, n: nat)
    requires (limit.Some? ==> limit.value > 0) && forall k :: k in q ==> n <= k
    ensures n in Within(q, limit) <==> n in q
  {
    assert NoncesBelow(q, n) == {};
  }

  lemma InExecutable(q: NonceMap, state: nat, balance: int, maxGas: nat, n: nat)
    ensures n in Executable(q, state, balance, maxGas) <==> n in q && state <= n && Payable(q[n], balance, maxGas)
  {
  }

  /** The new state nonce is below the old virtual nonce: pending transactions outlast the reset. */
  lemma ResetWithin(p: NonceMap, q: NonceMap, state0: nat, next: nat, state: nat, balance: int, maxGas: nat, limit: Option<nat>,
                    p': NonceMap, q': NonceMap, next': nat, p'': NonceMap, q'': NonceMap, end: nat)
    requires Exact(p, q, state0, next) && state0 <= state < next && (limit.Some? ==> limit.value > 0)
    requires Promoted(p, q, state, state, balance, maxGas, limit, p', q', next')
    requires Demoted(p', q', state, balance, maxGas, p'', q'') && EndsAt(p'', state, end)
    ensures end in q'' <==> Continues(p, q, state, next, balance, maxGas)
  {
    hide Payable, PayablePrefix, Stranded, Executable, Within, Promoted;
    PromotesNothing(p, q, state, balance, maxGas, limit, p', q', next');
    ExecutablePart(q, state, balance, maxGas);
    InExecutable(q, state, balance, maxGas, next);
    LeastWithin(Executable(q, state, balance, maxGas), limit, next);
    var kept := From(p, state);
    var cut := PrefixOfInterval(kept, state, next, balance, maxGas);
    var prefix := PayablePrefix(kept, balance, maxGas);
    assert prefix != map[] ==> state in prefix by {
      if n :| n in prefix {
        assert state <= n < cut;
      }
    }
    assert p'' == prefix && q'' == q' + Stranded(kept, balance, maxGas);
    SameEnd(p'', state, end, cut);
    assert (forall n :: state <= n < next ==> n in p && Payable(p[n], balance, maxGas)) <==> cut == next by {
      assert forall n :: state <= n < next ==> n in kept && kept[n] == p[n];
      assert forall n :: n in kept ==> state <= n < next;
    }
    assert end in q'' <==> cut == next && next in q';
  }

  lemma SameEnd(p: NonceMap, state: nat, end: nat, cut: nat)
    requires EndsAt(p, state, end) && EndsAt(p, state, cut)
    ensures end == cut
  {
    assert end < cut ==> end in p;
    assert cut < end ==> cut in p;
  }

  /** The new state nonce has reached the old virtual nonce: only what was promoted is pending. */
  lemma ResetBeyond(p: NonceMap, q: NonceMap, state0: nat, next: nat, state: nat, balance: int, maxGas: nat, limit: Option<nat>,
                    p': NonceMap, q': NonceMap, next': nat, p'': NonceMap, q'': NonceMap, end: nat)
    requires Exact(p, q, state0, next) && next <= state
    requires Promoted(p, q, state, state, balance, maxGas, limit, p', q', next')
    requires Demoted(p', q', state, balance, maxGas, p'', q'') && EndsAt(p'', state, end)
    ensures end !in q''
  {
    hide Payable, PayablePrefix, Stranded, Executable, Within, ReadyRun, NotReady, NextNonce;
    var e := Executable(q, state, balance, maxGas);
    ExecutablePart(q, state, balance, maxGas);
    ReadyIsInterval(e, state, next');
    PromotionExhausts(p, q, state, state, balance, maxGas, limit, p', q', next');
    var kept := From(p', state);
    assert kept == ReadyRun(e, state);
    ReadyIsPayable(q, state, state, balance, maxGas);
    var cut := PrefixOfInterval(kept, state, next', balance, maxGas);
    assert Stranded(kept, balance, maxGas) == map[];
    assert end == next' by { SameEnd(p'', state, end, next'); }
  }

  lemma ReadyIsPayable(q: NonceMap, next: nat, state: nat, balance: int, maxGas: nat)
    ensures var run := ReadyRun(Executable(q, state, balance, maxGas), next);
            forall n :: n in run ==> Payable(run[n], balance, maxGas)
  {
    hide Payable;
  }

  /** After a reset that extends the chain, the nonce that follows the pending ones is queued exactly
      if the pending transactions reach beyond the new state nonce and the queued one continues
      them: promotion starts at the state nonce and does not look further. */
  lemma ResetLeaves(p: NonceMap, q: NonceMap, state0: nat, next: nat, state: nat, balance: int, maxGas: nat, limit: Option<nat>,
                    p': NonceMap, q': NonceMap, next': nat, p'': NonceMap, q'': NonceMap, end: nat)
    requires Exact(p, q, state0, next) && state0 <= state && (limit.Some? ==> limit.value > 0)
    requires Promoted(p, q, state, state, balance, maxGas, limit, p', q', next')
    requires Demoted(p', q', state, balance, maxGas, p'', q'') && EndsAt(p'', state, end)
    ensures end in q'' <==> Continues(p, q, state, next, balance, maxGas)
  {
    hide Promoted, Demoted, Exact, EndsAt;
    if state < next {
      ResetWithin(p, q, state0, next, state, balance, maxGas, limit, p', q', next', p'', q'', end);
    } else {
      ResetBeyond(p, q, state0, next, state, balance, maxGas, limit, p', q', next', p'', q'', end);
    }
  }

  /** Shrinking the lists does not bring up a queued transaction behind the pending ones. */
  lemma StillBehind(p: NonceMap, q: NonceMap, state: nat, next: nat, end: nat, p': NonceMap, q': NonceMap, next': nat)
    requires ExactTo(p, q, state, next, end) && Exact(p', q', state, next') && TrimmedList(p, p') && TrimmedList(q, q')
    ensures EndsAt(p, state, end) && (next' in q' ==> end in q)
  {
    assert end < next' ==> end in p';
  }

  lemma AllPaid(m: NonceMap, state: nat, balance: int, maxGas: nat)
    requires forall n :: n in m ==> state <= n && Payable(m[n], balance, maxGas)
    ensures From(m, state) == m && PayablePrefix(m, balance, maxGas) == m && Stranded(m, balance, maxGas) == map[]
    ensures Executable(m, state, balance, maxGas) == m
  {
    hide Payable;
  }

  function Simple(nonce: nat): Tx {
    Tx(1, true, nonce, 1, 21000, 0, false, [], 100)
  }

  lemma SimpleIsPayable(nonce: nat)
    ensures Payable(Simple(nonce), 21000, 21000)
  {
  }

  /** Nonces 0 and 1 are pending and 2 is queued. A reset that leaves the state nonce at 0 changes
      nothing, and 2 stays queued right behind the pending ones. */
  lemma ResetLeavesExample()
    ensures var p: NonceMap, q: NonceMap := map[0 := Simple(0), 1 := Simple(1)], map[2 := Simple(2)];
            && Exact(p, q, 0, 2) && Promoted(p, q, 0, 0, 21000, 21000, Some(64), p, q, 0)
            && Demoted(p, q, 0, 21000, 21000, p, q) && EndsAt(p, 0, 2) && 2 in q
  {
    hide Payable, Simple, PayablePrefix, Stranded, Executable, From, Within;
    var p: NonceMap, q: NonceMap := map[0 := Simple(0), 1 := Simple(1)], map[2 := Simple(2)];
    SimpleIsPayable(0);
    SimpleIsPayable(1);
    SimpleIsPayable(2);
    AllPaid(p, 0, 21000, 21000);
    AllPaid(q, 0, 21000, 21000);
    assert ReadyRun(q, 0) == map[];
    assert NotReady(q, 0) == q;
    LeastWithin(q, Some(64), 2);
    OnlyWithin(q, Some(64), 2);
  }

  lemma OnlyWithin(q: NonceMap, limit: Option<nat>, n: nat)
    requires q.Keys == {n} && n in Within(q, limit)
    ensures Within(q, limit) == q
  {
  }

  /** Every list keeps its lowest nonces. */
  ghost predicate Trimmed(m0: ListMap, m: ListMap) {
    forall a :: TrimmedList(ListOf(m0, a), ListOf(m, a))
  }

  ghost predicate IsLast(l: NonceMap, n: nat) {
    n in l && forall k :: k in l ==> k <= n
  }

  /** Taking the last transaction off one list leaves every list trimmed. */
  lemma TailTrimmed(m0: ListMap, m: ListMap, m': ListMap, a: Address, last: nat)
    requires Trimmed(m0, m) && SameElsewhere(m, m', a)
    requires IsLast(ListOf(m, a), last) && ListOf(m', a) == ListOf(m, a) - {last}
    ensures Trimmed(m0, m') && |ListOf(m', a)| == |ListOf(m, a)| - 1 && Count(m') == Count(m) - 1
  {
    hide TrimmedList, ListOf, Count;
    TrimLast(ListOf(m0, a), ListOf(m, a), last);
    SizeWithout(ListOf(m, a), last);
    CountChange(m, m', a);
  }

  /** The accounts in `group` all hold `height` transactions; nobody else has lost any. */
  ghost predicate LevelAt(m0: ListMap, m: ListMap, group: seq<Address>, height: nat) {
    && (forall i :: 0 <= i < |group| ==> |ListOf(m, group[i])| == height <= |ListOf(m0, group[i])|)
    && (forall a :: a !in group ==> ListOf(m, a) == ListOf(m0, a))
  }

  /** What truncation may do: locals keep everything, nobody falls below the allowance, those who
      lose something all end at one level, and no other remote account is above that level. */
  ghost predicate Truncated(m0: ListMap, m: ListMap, locals: set<Address>, allowance: nat, level: nat) {
    && Trimmed(m0, m)
    && forall a ::
         if a in locals then ListOf(m, a) == ListOf(m0, a)
         else (ListOf(m, a) == ListOf(m0, a) && |ListOf(m, a)| <= level)
              || (|ListOf(m, a)| == level < |ListOf(m0, a)| && allowance <= level)
  }

  /** Remote accounts with more transactions than they are allowed to have. */
  ghost predicate Offending(m: ListMap, locals: set<Address>, allowance: nat, group: seq<Address>) {
    forall i :: 0 <= i < |group| ==> group[i] !in locals && |ListOf(m, group[i])| > allowance
  }

  lemma NoOffenders(m: ListMap, locals: set<Address>, allowance: nat)
    ensures Offending(m, locals, allowance, []) && Distinct<Address>([])
  {
  }

  lemma SpammersOffend(m0: ListMap, locals: set<Address>, allowance: nat, group: seq<Address>, rest: set<Address>)
    requires Spammers(m0, locals, allowance, group, rest)
    ensures Offending(m0, locals, allowance, group)
  {
  }

  /** The accounts that truncation looks at, and those it has dealt with. */
  ghost predicate Spammers(m0: ListMap, locals: set<Address>, allowance: nat, group: seq<Address>, rest: set<Address>) {
    && (forall i :: 0 <= i < |group| ==> group[i] !in locals && |ListOf(m0, group[i])| > allowance)
    && (forall a :: a in rest ==> a !in locals && a !in group && |ListOf(m0, a)| > allowance)
    && (forall a :: a !in locals && a !in group && a !in rest ==> |ListOf(m0, a)| <= allowance)
  }

  lemma LevelIsTruncated(m0: ListMap, m: ListMap, locals: set<Address>, allowance: nat,
                         group: seq<Address>, rest: set<Address>, level: nat)
    requires Trimmed(m0, m) && LevelAt(m0, m, group, level) && allowance <= level
    requires Spammers(m0, locals, allowance, group, rest)
    requires forall a :: a in rest ==> |ListOf(m0, a)| <= level
    ensures Truncated(m0, m, locals, allowance, level)
  {
    forall a ensures TrimmedList(ListOf(m0, a), ListOf(m, a)) { }
    forall a ensures if a in locals then ListOf(m, a) == ListOf(m0, a)
                     else (ListOf(m, a) == ListOf(m0, a) && |ListOf(m, a)| <= level)
                          || (|ListOf(m, a)| == level < |ListOf(m0, a)| && allowance <= level)
    {
      if a in group && |ListOf(m0, a)| == level {
        TrimmedAll(ListOf(m0, a), ListOf(m, a));
      }
    }
  }

  lemma TrimmedAll(l0: NonceMap, l: NonceMap)
    requires TrimmedList(l0, l) && |l| == |l0|
    ensures l == l0
  {
    assert l0.Keys == l.Keys + (l0.Keys - l.Keys);
    assert |l0.Keys - l.Keys| == 0;
  }

  method CountAll(m: ListMap) returns (n: nat)
    ensures n == Count(m)
  {
    n := 0;
    var rest := m.Keys;
    while rest != {}
      invariant rest <= m.Keys && n + CountOver(m, rest) == Count(m)
    {
      var a :| a in rest;
      CountWithout(m, rest, a);
      n, rest := n + |m[a]|, rest - {a};
    }
  }

  lemma ListBound(m: ListMap, a: Address)
    ensures |ListOf(m, a)| <= Count(m)
  {
    if a in m {
      CountWithout(m, m.Keys, a);
    }
  }

  lemma TrimmedStart(m: ListMap)
    ensures Trimmed(m, m) && LevelAt(m, m, [], Count(m))
    ensures forall a :: |ListOf(m, a)| <= Count(m)
  {
    forall a ensures |ListOf(m, a)| <= Count(m) { ListBound(m, a); }
  }

  function Heavy(m: ListMap, locals: set<Address>, allowance: nat): set<Address> {
    set a | a in m && a !in locals && |m[a]| > allowance
  }

  lemma SpammersStart(m: ListMap, locals: set<Address>, allowance: nat)
    ensures Spammers(m, locals, allowance, [], Heavy(m, locals, allowance)) && Distinct<Address>([])
  {
  }

  /** The next account joins the group. */
  lemma SpammersJoin(m0: ListMap, locals: set<Address>, allowance: nat, group: seq<Address>, rest: set<Address>, a: Address)
    requires Spammers(m0, locals, allowance, group, rest) && a in rest && Distinct(group)
    ensures Spammers(m0, locals, allowance, group + [a], rest - {a}) && Distinct(group + [a])
  {
    var g := group + [a];
    assert forall b :: b in g <==> b in group || b == a;
  }

  lemma LevelJoin(m0: ListMap, m: ListMap, group: seq<Address>, a: Address, level: nat)
    requires LevelAt(m0, m, group, level) && a !in group && |ListOf(m0, a)| == level
    ensures LevelAt(m0, m, group + [a], level)
  {
    var g := group + [a];
    assert forall b :: b in g <==> b in group || b == a;
  }

  lemma LevelOfNone(m0: ListMap, m: ListMap, level: nat, level': nat)
    requires LevelAt(m0, m, [], level)
    ensures LevelAt(m0, m, [], level')
  {
  }

  lemma NothingTruncated(m: ListMap, locals: set<Address>, allowance: nat)
    ensures Truncated(m, m, locals, allowance, Count(m))
  {
    TrimmedStart(m);
  }

  lemma TruncatedBound(m0: ListMap, m: ListMap, locals: set<Address>, allowance: nat, level: nat)
    requires Truncated(m0, m, locals, allowance, level)
    ensures forall a :: a !in locals ==> |ListOf(m, a)| <= level
  {
  }

  /** The same lists, whatever the maps that hold them. */
  ghost predicate SameLists(m: ListMap, m': ListMap) {
    forall a :: ListOf(m, a) == ListOf(m', a)
  }

  lemma TrimmedNone(l: NonceMap)
    ensures TrimmedList(l, map[])
  {
  }

  lemma SpammerUntouched(m0: ListMap, m: ListMap, locals: set<Address>, allowance: nat,
                         group: seq<Address>, rest: set<Address>, level: nat)
    requires Spammers(m0, locals, allowance, group, rest) && LevelAt(m0, m, group, level)
    ensures forall a :: a in rest ==> a !in group && ListOf(m, a) == ListOf(m0, a) && |ListOf(m, a)| > allowance
  {
  }

  lemma Heaviest(m: ListMap, accounts: set<Address>) returns (most: Address)
    requires accounts != {}
    ensures most in accounts && forall b :: b in accounts ==> |ListOf(m, b)| <= |ListOf(m, most)|
  {
    most := Greatest(accounts, (b: Address) => |ListOf(m, b)|);
  }

  /** If an account has lost something, all remote accounts with later heartbeats are empty. */
  ghost predicate LatestFirst(m0: ListMap, m: ListMap, locals: set<Address>, beats: Address -> int) {
    forall a, b :: ListOf(m, a) != ListOf(m0, a) && b !in locals && beats(a) < beats(b) ==> ListOf(m, b) == map[]
  }

  /** A queue on its way down: `rest` are the remote accounts that have not been looked at, and as
      long as there is more to drop, those that have been are empty. */
  ghost predicate Shrinking(m0: ListMap, m: ListMap, locals: set<Address>, beats: Address -> int, rest: set<Address>, more: bool) {
    && Trimmed(m0, m) && LatestFirst(m0, m, locals, beats) && rest !! locals
    && (forall a :: a in rest || a in locals ==> ListOf(m, a) == ListOf(m0, a))
    && (more ==> forall a :: a !in locals && a !in rest ==> ListOf(m, a) == map[])
  }

  lemma ShrinkingStart(m: ListMap, locals: set<Address>, beats: Address -> int, more: bool)
    ensures Shrinking(m, m, locals, beats, m.Keys - locals, more)
  {
    TrimmedStart(m);
  }

  lemma ShrinkingEnds(m0: ListMap, m: ListMap, locals: set<Address>, beats: Address -> int, rest: set<Address>, more: bool)
    requires Shrinking(m0, m, locals, beats, rest, more)
    ensures Trimmed(m0, m) && LatestFirst(m0, m, locals, beats) && forall a :: a in locals ==> ListOf(m, a) == ListOf(m0, a)
    ensures more && rest == {} ==> forall a :: a !in locals ==> ListOf(m, a) == map[]
  {
  }

  lemma ShrinkingStep(m0: ListMap, m: ListMap, m': ListMap, locals: set<Address>, beats: Address -> int,
                      rest: set<Address>, a: Address, more: bool)
    requires Shrinking(m0, m, locals, beats, rest, true) && a in rest && forall b :: b in rest ==> beats(b) <= beats(a)
    requires SameElsewhere(m, m', a) && TrimmedList(ListOf(m, a), ListOf(m', a)) && (more ==> ListOf(m', a) == map[])
    ensures Shrinking(m0, m', locals, beats, rest - {a}, more)
  {
    hide ListOf;
    assert ListOf(m, a) == map[] ==> ListOf(m', a) == map[];
    hide TrimmedList;
    forall x, b | ListOf(m', x) != ListOf(m0, x) && b !in locals && beats(x) < beats(b)
      ensures ListOf(m', b) == map[]
    {
      assert x != a ==> ListOf(m, x) != ListOf(m0, x);
      assert x == a ==> b !in rest;
    }
  }

  // ----- What can be executed at the head state -----

  /** Nothing in the list is stale or beyond the sender's means. */
  ghost predicate Ready(p: NonceMap, state: nat, balance: int, maxGas: nat) {
    forall n :: n in p ==> state <= n && Payable(p[n], balance, maxGas)
  }

  lemma PromotedReady(p: NonceMap, q: NonceMap, next: nat, state: nat, balance: int, maxGas: nat, limit: Option<nat>,
                      p': NonceMap, q': NonceMap, next': nat)
    requires Ready(p, state, balance, maxGas) && Promoted(p, q, next, state, balance, maxGas, limit, p', q', next')
    ensures Ready(p', state, balance, maxGas)
  {
    hide Payable, NextNonce;
    var e := Executable(q, state, balance, maxGas);
    assert Ready(e, state, balance, maxGas);
    hide Executable;
    var run := ReadyRun(e, next);
    assert forall n :: n in run ==> n in e && run[n] == e[n];
  }

  lemma DemotedReady(p: NonceMap, q: NonceMap, state: nat, balance: int, maxGas: nat, p': NonceMap, q': NonceMap)
    requires Demoted(p, q, state, balance, maxGas, p', q')
    ensures Ready(p', state, balance, maxGas)
  {
    hide Payable;
    var k := From(p, state);
    assert forall n :: n in k ==> state <= n;
    hide From;
    assert Ready(PayablePrefix(k, balance, maxGas), state, balance, maxGas);
  }

  /** What is left of a pending list when transactions are removed: all below the lowest of them. */
  ghost function CutBelow(p: NonceMap, gone: set<Tx>): NonceMap {
    map n | n in p && (forall tx :: tx in gone && Has(p, tx) ==> n < tx.nonce) :: p[n]
  }

  ghost predicate CutAll(m0: ListMap, m: ListMap, gone: set<Tx>) {
    forall a :: ListOf(m, a) == CutBelow(ListOf(m0, a), gone)
  }

  ghost predicate AllOwn(m: ListMap) {
    forall a :: Own(a, ListOf(m, a))
  }

  lemma CutBelowLowest(p: NonceMap, gone: set<Tx>, tx: Tx)
    requires tx in gone && Has(p, tx) && forall x :: x in gone && Has(p, x) ==> tx.nonce <= x.nonce
    ensures CutBelow(p, gone) == Below(p, tx.nonce)
  {
  }

  lemma CutBelowNone(p: NonceMap, gone: set<Tx>)
    requires forall x :: x in gone ==> !Has(p, x)
    ensures CutBelow(p, gone) == p
  {
  }

  lemma CutStart(m: ListMap)
    ensures CutAll(m, m, {})
  {
    forall a
      ensures CutBelow(ListOf(m, a), {}) == ListOf(m, a)
    {
      CutBelowNone(ListOf(m, a), {});
    }
  }

  lemma OwnLists(pending: ListMap, queue: ListMap, flight: ListMap, all: set<Tx>)
    requires Consistent(pending, queue, flight, all)
    ensures AllOwn(pending)
  {
  }

  lemma CutOther(p: NonceMap, gone: set<Tx>, tx: Tx)
    requires !Has(p, tx) || exists x :: x in gone && Has(p, x) && x.nonce <= tx.nonce
    ensures CutBelow(p, gone + {tx}) == CutBelow(p, gone)
  {
  }

  lemma CutMore(p: NonceMap, gone: set<Tx>, tx: Tx)
    requires Has(CutBelow(p, gone), tx)
    ensures CutBelow(p, gone + {tx}) == Below(CutBelow(p, gone), tx.nonce)
  {
  }

  lemma RemovedCuts(m0: ListMap, m: ListMap, m': ListMap, gone: set<Tx>, q: NonceMap, next: nat, tx: Tx, q': NonceMap, next': nat)
    requires CutAll(m0, m, gone) && AllOwn(m0) && SameElsewhere(m, m', tx.sender)
    requires RemovedFrom(ListOf(m, tx.sender), q, next, tx, ListOf(m', tx.sender), q', next')
    ensures CutAll(m0, m', gone + {tx})
  {
    hide ListOf, CutBelow, Below, After;
    forall a
      ensures ListOf(m', a) == CutBelow(ListOf(m0, a), gone + {tx})
    {
      var p := ListOf(m0, a);
      if a == tx.sender && Has(CutBelow(p, gone), tx) {
        CutMore(p, gone, tx);
      } else {
        if a == tx.sender {
          NotInCut(p, gone, tx);
        } else {
          assert Own(a, p);
        }
        CutOther(p, gone, tx);
      }
    }
  }

  lemma NotInCut(p: NonceMap, gone: set<Tx>, tx: Tx)
    requires !Has(CutBelow(p, gone), tx)
    ensures !Has(p, tx) || exists x :: x in gone && Has(p, x) && x.nonce <= tx.nonce
  {
  }

  /** The queues hold all that is known and not pending. */
  ghost predicate QueuesRest(pending0: ListMap, queue0: ListMap, pending: ListMap, queue: ListMap, gone: set<Tx>) {
    forall tx: Tx :: Has(ListOf(queue, tx.sender), tx) <==>
      && tx !in gone && !Has(ListOf(pending, tx.sender), tx)
      && (Has(ListOf(pending0, tx.sender), tx) || Has(ListOf(queue0, tx.sender), tx))
  }

  lemma RestIsQueued(pending0: ListMap, queue0: ListMap, all0: set<Tx>, pending: ListMap, queue: ListMap, all: set<Tx>, gone: set<Tx>)
    requires Consistent(pending0, queue0, map[], all0) && Consistent(pending, queue, map[], all) && all == all0 - gone
    ensures QueuesRest(pending0, queue0, pending, queue, gone)
  {
    forall tx: Tx
      ensures Has(ListOf(queue, tx.sender), tx) <==>
              tx !in gone && !Has(ListOf(pending, tx.sender), tx) &&
              (Has(ListOf(pending0, tx.sender), tx) || Has(ListOf(queue0, tx.sender), tx))
    {
      KnownOf(pending0, queue0, map[], all0, tx.sender);
      KnownOf(pending, queue, map[], all, tx.sender);
    }
  }

  lemma RemovedReady(p: NonceMap, q: NonceMap, next: nat, tx: Tx, p': NonceMap, q': NonceMap, next': nat,
                     state: nat, balance: int, maxGas: nat)
    requires Ready(p, state, balance, maxGas) && RemovedFrom(p, q, next, tx, p', q', next')
    ensures Ready(p', state, balance, maxGas)
  {
  }

  lemma RemovedExact(p: NonceMap, q: NonceMap, next: nat, tx: Tx, p': NonceMap, q': NonceMap, next': nat, state: nat)
    requires Exact(p, q, state, next) && RemovedFrom(p, q, next, tx, p', q', next')
    ensures Exact(p', q', state, next')
  {
    if Has(p, tx) { RemovalKeepsExact(p, q, state, next, tx.nonce); }
  }

  /** Without a reset, what promotion leaves is exact. */
  lemma PromotingIsExact(p: NonceMap, q: NonceMap, state: nat, next: nat)
    requires Promoting(p, q, state, state, state, next)
    ensures Exact(p, q, state, next)
  {
  }

  lemma ExactIsPromoting(p: NonceMap, q: NonceMap, state: nat, next: nat, state': nat)
    requires Exact(p, q, state, next)
    ensures Promoting(p, q, state, state, state, next)
    ensures state <= state' ==> Promoting(p, q, state, next, state', state')
  {
  }

  lemma PlacedKeeps(p: NonceMap, q: NonceMap, tx: Tx, state: nat, next: nat, balance: int, maxGas: nat)
    requires state <= tx.nonce && Payable(tx, balance, maxGas)
    ensures Ready(p, state, balance, maxGas) ==> Ready(p[tx.nonce := tx], state, balance, maxGas)
    ensures Exact(p, q, state, next) && tx.nonce in p ==> Exact(p[tx.nonce := tx], q, state, next)
    ensures Exact(p, q, state, next) && tx.nonce !in p ==> Exact(p, q[tx.nonce := tx], state, next)
  {
    hide Payable;
  }

  lemma ExactPart(p: NonceMap, q: NonceMap, q': NonceMap, state: nat, next: nat)
    requires Exact(p, q, state, next) && q'.Keys <= q.Keys
    ensures Exact(p, q', state, next)
  {
  }

  lemma TrimmedReady(p: NonceMap, p': NonceMap, state: nat, balance: int, maxGas: nat)
    requires Ready(p, state, balance, maxGas) && TrimmedList(p, p')
    ensures Ready(p', state, balance, maxGas)
  {
  }

  lemma TrimmedSettles(p: NonceMap, q: NonceMap, q': NonceMap, state: nat, next: nat)
    requires Settling(p, q, state, next) && TrimmedList(q, q')
    ensures Settling(p, q', state, next)
  {
    QueueShrinkSettles(p, q, q', state, next);
  }

  lemma CountSameLists(m: ListMap, m': ListMap)
    requires SameLists(m, m')
    ensures Count(m) == Count(m')
  {
    var accounts := m.Keys + m'.Keys;
    CountMore(m, accounts);
    CountMore(m', accounts);
    CountSame(m, m', accounts);
  }

  /** The idle remote accounts outside `rest` have lost their lists; nobody else has. */
  ghost predicate Cleared(m0: ListMap, m: ListMap, idle: set<Address>, locals: set<Address>, rest: set<Address>) {
    forall a :: ListOf(m, a) == if a in idle && a !in locals && a !in rest then map[] else ListOf(m0, a)
  }

  lemma ClearedStart(m: ListMap, idle: set<Address>, locals: set<Address>)
    ensures Cleared(m, m, idle, locals, (m.Keys * idle) - locals)
  {
  }

  lemma ClearedStep(m0: ListMap, m: ListMap, m': ListMap, idle: set<Address>, locals: set<Address>, rest: set<Address>, a: Address)
    requires Cleared(m0, m, idle, locals, rest) && a in rest && a in idle && a !in locals
    requires ListOf(m', a) == map[] && SameElsewhere(m, m', a)
    ensures Cleared(m0, m', idle, locals, rest - {a})
  {
    hide ListOf;
  }

  lemma ReadyIsPaidUp(p: NonceMap, state: nat, next: nat, balance: int, maxGas: nat)
    ensures Ready(p, state, balance, maxGas) ==> PaidUp(p, state, next, balance, maxGas)
    ensures next == state ==> PaidUp(p, state, next, balance, maxGas)
  {
  }

  // ----- Counting transactions -----

  ghost function TxsOf(l: NonceMap): (txs: set<Tx>)
    requires Keyed(l)
    ensures forall tx :: tx in txs <==> Has(l, tx)
  {
    set n | n in l :: l[n]
  }

  lemma {:induction false} TxsOfSize(l: NonceMap)
    requires Keyed(l)
    ensures |TxsOf(l)| == |l|
    decreases |l|
  {
    hide TxsOf;
    if n :| n in l {
      SizeWithout(l, n);
      TxsOfSize(l - {n});
      assert TxsOf(l) == TxsOf(l - {n}) + {l[n]};
      assert l[n] !in TxsOf(l - {n});
    } else {
      assert l == map[];
      assert TxsOf(l) == {};
    }
  }

  ghost function SentBy(all: set<Tx>, accounts: set<Address>): set<Tx> { set tx | tx in all && tx.sender in accounts }

  lemma SentByOne(pending: ListMap, queue: ListMap, flight: ListMap, all: set<Tx>, a: Address)
    requires Consistent(pending, queue, flight, all) && ListOf(flight, a) == map[]
    ensures |SentBy(all, {a})| == |ListOf(pending, a)| + |ListOf(queue, a)|
  {
    KnownOf(pending, queue, flight, all, a);
    hide Consistent, ListOf;
    SentSize(a, ListOf(pending, a), ListOf(queue, a), all);
  }

  lemma SentSize(a: Address, p: NonceMap, q: NonceMap, all: set<Tx>)
    requires AccountOk(a, p, q, map[]) && forall tx: Tx :: tx.sender == a ==> (tx in all <==> InAny(p, q, map[], tx))
    ensures |SentBy(all, {a})| == |p| + |q|
  {
    hide TxsOf;
    SentParts(a, p, q, all);
    TxsOfSize(p);
    TxsOfSize(q);
  }

  lemma SentParts(a: Address, p: NonceMap, q: NonceMap, all: set<Tx>)
    requires AccountOk(a, p, q, map[]) && forall tx: Tx :: tx.sender == a ==> (tx in all <==> InAny(p, q, map[], tx))
    ensures TxsOf(p) !! TxsOf(q) && SentBy(all, {a}) == TxsOf(p) + TxsOf(q)
  {
    hide TxsOf;
    forall tx ensures tx in SentBy(all, {a}) <==> tx in TxsOf(p) + TxsOf(q) {
      if tx.sender == a { assert tx in all <==> InAny(p, q, map[], tx); }
    }
  }

  lemma {:induction false} SentByMany(pending: ListMap, queue: ListMap, flight: ListMap, all: set<Tx>, accounts: set<Address>)
    requires Consistent(pending, queue, flight, all) && forall a :: ListOf(flight, a) == map[]
    ensures |SentBy(all, accounts)| == CountOver(pending, accounts) + CountOver(queue, accounts)
  {
    hide Consistent, ListOf, SentBy;
    if accounts == {} {
      SentByNone(all);
    } else {
      var a :| a in accounts;
      CountWithout(pending, accounts, a);
      CountWithout(queue, accounts, a);
      SentByOne(pending, queue, flight, all, a);
      SentByMany(pending, queue, flight, all, accounts - {a});
      SentBySplits(all, accounts, a);
    }
  }

  lemma SentByNone(all: set<Tx>)
    ensures SentBy(all, {}) == {}
  {
  }

  lemma SentBySplits(all: set<Tx>, accounts: set<Address>, a: Address)
    requires a in accounts
    ensures SentBy(all, accounts) == SentBy(all, accounts - {a}) + SentBy(all, {a})
    ensures SentBy(all, accounts - {a}) !! SentBy(all, {a})
  {
  }

  /** The lookup holds exactly as many transactions as the lists together. */
  lemma LookupSize(pending: ListMap, queue: ListMap, flight: ListMap, all: set<Tx>)
    requires Consistent(pending, queue, flight, all) && forall a :: ListOf(flight, a) == map[]
    ensures |all| == Count(pending) + Count(queue)
  {
    var accounts := pending.Keys + queue.Keys;
    AllSent(pending, queue, flight, all);
    SentByMany(pending, queue, flight, all, accounts);
    hide Consistent, ListOf;
    CountMore(pending, accounts);
    CountMore(queue, accounts);
  }

  lemma AllSent(pending: ListMap, queue: ListMap, flight: ListMap, all: set<Tx>)
    requires Consistent(pending, queue, flight, all) && forall a :: ListOf(flight, a) == map[]
    ensures SentBy(all, pending.Keys + queue.Keys) == all
  {
    forall tx | tx in all ensures tx.sender in pending.Keys + queue.Keys {
      KnownOf(pending, queue, flight, all, tx.sender);
    }
    hide Consistent;
  }
}
