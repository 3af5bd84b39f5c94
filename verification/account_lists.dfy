/** The two lists of one account as the objects the pool keeps: promotion and demotion carried out on
    them do to their contents what the pool's maps of nonces undergo. */
module AccountLists {
  import opened Options
  import opened PoolLists
  import opened Transactions
  import opened TxLists

  // ----- Adding the transactions of a listing one by one -----

  /** The transactions of `m` among the first `i` of its listing. */
  ghost function Part(s: seq<Tx>, i: nat, m: NonceMap): NonceMap {
    map n | n in m && (exists k :: 0 <= k < i && k < |s| && s[k].nonce == n) :: m[n]
  }

  lemma PartStep(s: seq<Tx>, i: nat, m: NonceMap, base: NonceMap)
    requires Keyed(m) && Lists(s, m) && i < |s| && m.Keys !! base.Keys
    ensures s[i].nonce !in base + Part(s, i, m)
    ensures base + Part(s, i + 1, m) == (base + Part(s, i, m))[s[i].nonce := s[i]]
  {
    assert s[i].nonce in m && m[s[i].nonce] == s[i] && s[i].nonce !in Part(s, i, m);
    assert Part(s, i + 1, m) == Part(s, i, m)[s[i].nonce := s[i]];
  }

  lemma PartEnds(s: seq<Tx>, m: NonceMap)
    requires Keyed(m) && Lists(s, m)
    ensures Part(s, 0, m) == map[] && Part(s, |s|, m) == m
  {
    forall n | n in m
      ensures n in Part(s, |s|, m)
    {
      var k :| 0 <= k < |s| && s[k] == m[n];
      assert s[k].nonce == n;
    }
  }

  lemma FlatLists(s: seq<Tx>, m: NonceMap)
    requires IsFlat(s, m)
    ensures Lists(s, m)
  {
  }

  /** The next nonce is the one after the last transaction of a sorted listing. */
  lemma AfterListing(s: seq<Tx>, m: NonceMap, before: nat)
    requires Keyed(m) && IsFlat(s, m)
    ensures NextNonce(m, before, if |s| == 0 then before else s[|s| - 1].nonce + 1)
  {
    if |s| > 0 {
      var last := s[|s| - 1].nonce;
      forall n | n in m
        ensures n <= last
      {
        var k :| 0 <= k < |s| && s[k] == m[n];
      }
    } else {
      assert forall n :: n !in m;
      assert m == map[];
    }
  }

  /** The nonces taken by the steps stay apart from those of the other list. */
  lemma StepsWithin(q: NonceMap, state: nat, balance: int, maxGas: nat, next: nat)
    requires Keyed(q)
    ensures var e := Executable(q, state, balance, maxGas);
            && Keyed(Below(q, state)) && Keyed(Unpayable(From(q, state), balance, maxGas)) && Keyed(ReadyRun(e, next))
            && ReadyRun(e, next).Keys <= q.Keys && forall count: nat :: Keyed(Beyond(NotReady(e, next), count))
  {
  }

  lemma PromotedApart(p: NonceMap, q: NonceMap, next: nat, state: nat, balance: int, maxGas: nat, limit: Option<nat>,
                      p': NonceMap, q': NonceMap, next': nat)
    requires Promoted(p, q, next, state, balance, maxGas, limit, p', q', next') && p.Keys !! q.Keys
    ensures p'.Keys !! q'.Keys
  {
    var e := Executable(q, state, balance, maxGas);
    assert e.Keys <= q.Keys && NotReady(e, next).Keys <= e.Keys - ReadyRun(e, next).Keys;
  }

  lemma DemotedWithin(p: NonceMap, state: nat, balance: int, maxGas: nat)
    requires Keyed(p)
    ensures var recent := From(p, state);
            && Keyed(Below(p, state)) && Keyed(Unpayable(recent, balance, maxGas))
            && Keyed(PayablePrefix(recent, balance, maxGas)) && Keyed(Stranded(recent, balance, maxGas))
            && PayablePrefix(recent, balance, maxGas).Keys <= p.Keys && Stranded(recent, balance, maxGas).Keys <= p.Keys
            && PayablePrefix(recent, balance, maxGas).Keys !! Stranded(recent, balance, maxGas).Keys
  {
  }

  lemma SplitSize(m: NonceMap, a: NonceMap, b: NonceMap)
    requires Splits(m, a, b)
    ensures |m| == |a| + |b|
  {
    assert m.Keys == a.Keys + b.Keys && a.Keys !! b.Keys;
    assert |m| == |m.Keys| && |a| == |a.Keys| && |b| == |b.Keys|;
  }

  lemma JoinedSize(a: NonceMap, b: NonceMap)
    requires a.Keys !! b.Keys
    ensures |a + b| == |a| + |b|
  {
    assert (a + b).Keys == a.Keys + b.Keys;
    assert |a + b| == |(a + b).Keys| && |a| == |a.Keys| && |b| == |b.Keys|;
  }

  lemma JoinedSizes(a: NonceMap, b: NonceMap, c: NonceMap)
    requires a.Keys !! b.Keys !! c.Keys
    ensures |a + b| == |a| + |b| && |a + b + c| == |a| + |b| + |c|
  {
    assert (a + b).Keys == a.Keys + b.Keys;
    JoinedSize(a, b);
    JoinedSize(a + b, c);
  }

  lemma QueueParts(q: NonceMap, next: nat, state: nat, balance: int, maxGas: nat, forwards: seq<Tx>, drops: seq<Tx>)
    requires Keyed(q) && Lists(forwards, Below(q, state)) && Lists(drops, Unpayable(From(q, state), balance, maxGas))
    ensures var e := Executable(q, state, balance, maxGas);
            |forwards| + |drops| + |ReadyRun(e, next)| + |NotReady(e, next)| == |q|
  {
    StepsWithin(q, state, balance, maxGas, next);
    hide Lists, Below, From, Unpayable, AllPayable, ReadyRun, NotReady, Lowest, Beyond, Keyed, Splits;
    var recent := From(q, state);
    var e := Executable(q, state, balance, maxGas);
    ListSplits(q, state, 0, 0, 0);
    ListSplits(recent, 0, balance, maxGas, 0);
    ListSplits(e, next, 0, 0, 0);
    SplitSize(q, recent, Below(q, state));
    SplitSize(recent, e, Unpayable(recent, balance, maxGas));
    SplitSize(e, NotReady(e, next), ReadyRun(e, next));
    ListsLength(forwards, Below(q, state));
    ListsLength(drops, Unpayable(recent, balance, maxGas));
  }

  /** What promotion drops and what it keeps add up. */
  lemma PromotedSizes(p: NonceMap, q: NonceMap, next: nat, state: nat, balance: int, maxGas: nat, limit: Option<nat>,
                      forwards: seq<Tx>, drops: seq<Tx>, caps: seq<Tx>)
    requires Keyed(q) && p.Keys !! q.Keys
    requires Lists(forwards, Below(q, state)) && Lists(drops, Unpayable(From(q, state), balance, maxGas))
    requires var later := NotReady(Executable(q, state, balance, maxGas), next);
             if limit.Some? then Lists(caps, Beyond(later, limit.value)) else caps == []
    ensures var e := Executable(q, state, balance, maxGas);
            |forwards| + |drops| + |caps| + |p + ReadyRun(e, next)| + |Within(NotReady(e, next), limit)| == |p| + |q|
  {
    StepsWithin(q, state, balance, maxGas, next);
    QueueParts(q, next, state, balance, maxGas, forwards, drops);
    hide Lists, Below, From, Unpayable, Executable, ReadyRun, NotReady, Lowest, Beyond, Keyed, Splits;
    var e := Executable(q, state, balance, maxGas);
    var later := NotReady(e, next);
    JoinedSize(p, ReadyRun(e, next));
    if limit.Some? {
      ListSplits(later, 0, 0, 0, limit.value);
      SplitSize(later, Lowest(later, limit.value), Beyond(later, limit.value));
      ListsLength(caps, Beyond(later, limit.value));
    }
  }

  lemma DemotedParts(p: NonceMap, state: nat, balance: int, maxGas: nat, olds: seq<Tx>, drops: seq<Tx>)
    requires Keyed(p) && Lists(olds, Below(p, state)) && Lists(drops, Unpayable(From(p, state), balance, maxGas))
    ensures var recent := From(p, state);
            |olds| + |drops| + |PayablePrefix(recent, balance, maxGas)| + |Stranded(recent, balance, maxGas)| == |p|
  {
    DemotedWithin(p, state, balance, maxGas);
    hide Lists, Below, From, Unpayable, AllPayable, PayablePrefix, Stranded, Keyed, Splits;
    var recent := From(p, state);
    ListSplits(p, state, 0, 0, 0);
    ListSplits(recent, 0, balance, maxGas, 0);
    StrictSplits(recent, balance, maxGas);
    SplitSize(p, recent, Below(p, state));
    SplitSize(recent, AllPayable(recent, balance, maxGas), Unpayable(recent, balance, maxGas));
    SplitSize(AllPayable(recent, balance, maxGas), PayablePrefix(recent, balance, maxGas), Stranded(recent, balance, maxGas));
    ListsLength(olds, Below(p, state));
    ListsLength(drops, Unpayable(recent, balance, maxGas));
  }

  /** What demotion drops and what it keeps add up. */
  lemma DemotedSizes(p: NonceMap, q: NonceMap, state: nat, balance: int, maxGas: nat, p': NonceMap, q': NonceMap,
                     olds: seq<Tx>, drops: seq<Tx>)
    requires Keyed(p) && p.Keys !! q.Keys && Demoted(p, q, state, balance, maxGas, p', q')
    requires Lists(olds, Below(p, state)) && Lists(drops, Unpayable(From(p, state), balance, maxGas))
    ensures |olds| + |drops| + |p'| + |q'| == |p| + |q|
  {
    DemotedWithin(p, state, balance, maxGas);
    DemotedParts(p, state, balance, maxGas, olds, drops);
    hide Lists, Below, From, Unpayable, PayablePrefix, Stranded, Keyed;
    var recent := From(p, state);
    var prefix, stranded := PayablePrefix(recent, balance, maxGas), Stranded(recent, balance, maxGas);
    JoinedSizes(q, stranded, prefix);
  }

  lemma ItemsKeyed(list: TxList)
    requires list.Valid()
    ensures Keyed(list.Items())
  {
  }

  lemma CapNone(m: NonceMap)
    requires Keyed(m)
    ensures Lowest(m, 0) == map[] && Beyond(m, 0) == m
  {
  }

  /** The pending and the queued transactions of one account, and its next nonce. */
  class Account {
    const pending: TxList
    const queue: TxList
    var next: nat

    ghost predicate Valid()
      reads this, pending, pending.txs, queue, queue.txs
    {
      && pending.strict && !queue.strict && pending != queue && pending.txs != queue.txs
      && pending.Valid() && queue.Valid()
    }

    /** No nonce is in both lists. */
    ghost predicate Apart()
      reads pending, pending.txs, queue, queue.txs
    {
      pending.Items().Keys !! queue.Items().Keys
    }

    constructor (next: nat)
      ensures Valid() && Apart() && pending.Items() == map[] && queue.Items() == map[] && this.next == next
      ensures fresh(pending) && fresh(pending.txs) && fresh(queue) && fresh(queue.txs)
    {
      pending := new TxList(true);
      queue := new TxList(false);
      this.next := next;
    }

    /** Moves a sorted run of transactions to the pending list. */
    method AddReady(ready: seq<Tx>, ghost run: NonceMap, priceBump: nat)
      requires Valid() && Keyed(run) && IsFlat(ready, run) && run.Keys !! pending.Items().Keys
      modifies this, pending, pending.txs
      ensures Valid() && pending.Items() == old(pending.Items()) + run && NextNonce(run, old(next), next)
      ensures queue.Items() == old(queue.Items())
    {
      hide IsFlat, Lists, NextNonce, Part, Keyed, TxList.Valid;
      FlatLists(ready, run);
      PartEnds(ready, run);
      for i := 0 to |ready|
        invariant Valid() && queue.Items() == old(queue.Items())
        invariant pending.Items() == old(pending.Items()) + Part(ready, i, run)
        invariant next == if i == 0 then old(next) else ready[i - 1].nonce + 1
      {
        var tx := ready[i];
        PartStep(ready, i, run, old(pending.Items()));
        var inserted, prior := pending.Add(tx, priceBump);
        next := tx.nonce + 1;
      }
      AfterListing(ready, run, old(next));
    }

    /** Puts transactions into the queue. */
    method Enqueue(txs: seq<Tx>, ghost m: NonceMap, priceBump: nat)
      requires Valid() && Keyed(m) && Lists(txs, m) && m.Keys !! queue.Items().Keys
      modifies queue, queue.txs
      ensures Valid() && queue.Items() == old(queue.Items()) + m && pending.Items() == old(pending.Items())
    {
      hide Lists, Part, Keyed, TxList.Valid;
      PartEnds(txs, m);
      for i := 0 to |txs|
        invariant Valid() && pending.Items() == old(pending.Items())
        invariant queue.Items() == old(queue.Items()) + Part(txs, i, m)
      {
        PartStep(txs, i, m, old(queue.Items()));
        var inserted, prior := queue.Add(txs[i], priceBump);
      }
    }

    /** Promotes what is executable; `limit` is what the queue may keep. The promoted transactions
        are returned by increasing nonce. */
    method Promote(state: nat, balance: int, maxGas: nat, limit: Option<nat>, priceBump: nat) returns (promoted: seq<Tx>, gone: nat)
      requires Valid() && Apart()
      modifies this, pending, pending.txs, queue, queue.txs
      ensures Valid() && Apart()
      ensures Promoted(old(pending.Items()), old(queue.Items()), old(next), state, balance, maxGas, limit,
                       pending.Items(), queue.Items(), next)
      ensures IsFlat(promoted, ReadyRun(Executable(old(queue.Items()), state, balance, maxGas), old(next)))
      ensures gone + |pending.Items()| + |queue.Items()| == old(|pending.Items()| + |queue.Items()|)
    {
      hide IsFlat, Lists, NextNonce, ReadyRun, NotReady, From, AllPayable, Lowest, Beyond, Below, Unpayable, Descending, Keyed,
           TxList.Valid;
      ItemsKeyed(queue);
      StepsWithin(queue.Items(), state, balance, maxGas, next);
      var forwards := queue.Forward(state);
      var drops, invalids := queue.Filter(balance, maxGas);
      promoted := queue.Ready(next);
      AddReady(promoted, ReadyRun(Executable(old(queue.Items()), state, balance, maxGas), old(next)), priceBump);
      var caps := [];
      if limit.Some? {
        caps := queue.Cap(limit.value);
      }
      PromotedApart(old(pending.Items()), old(queue.Items()), old(next), state, balance, maxGas, limit,
                    pending.Items(), queue.Items(), next);
      FlatLists(forwards, Below(old(queue.Items()), state));
      PromotedSizes(old(pending.Items()), old(queue.Items()), old(next), state, balance, maxGas, limit, forwards, drops, caps);
      gone := |forwards| + |drops| + |caps|;
    }

    /** Demotes what is not executable any more. */
    method Demote(state: nat, balance: int, maxGas: nat, priceBump: nat) returns (gone: nat)
      requires Valid() && Apart()
      modifies this, pending, pending.txs, queue, queue.txs
      ensures Valid() && Apart()
      ensures Demoted(old(pending.Items()), old(queue.Items()), state, balance, maxGas, pending.Items(), queue.Items())
      ensures next == old(next) && gone + |pending.Items()| + |queue.Items()| == old(|pending.Items()| + |queue.Items()|)
    {
      hide IsFlat, Lists, From, AllPayable, PayablePrefix, Stranded, Lowest, Beyond, Below, Unpayable, Descending, Keyed, TxList.Valid;
      ItemsKeyed(pending);
      DemotedWithin(pending.Items(), state, balance, maxGas);
      var olds := pending.Forward(state);
      var drops, invalids := pending.Filter(balance, maxGas);
      Enqueue(invalids, Stranded(From(old(pending.Items()), state), balance, maxGas), priceBump);
      if |pending.Items()| > 0 && state !in pending.Items() {
        CapNone(pending.Items());
        var gapped := pending.Cap(0);
        Enqueue(gapped, PayablePrefix(From(old(pending.Items()), state), balance, maxGas), priceBump);
      }
      FlatLists(olds, Below(old(pending.Items()), state));
      DemotedSizes(old(pending.Items()), old(queue.Items()), state, balance, maxGas, pending.Items(), queue.Items(), olds, drops);
      gone := |olds| + |drops|;
    }
  }
}
