/** The per-account transaction lists: a hash map with a heap of its nonces and a lazily
    kept sort cache, refining the plain nonce maps of `Transactions`. */
module TxLists {
  import opened Collections
  import opened Transactions
  import Heap = BinaryHeap
  import opened Options

  // ----- The nonce index -----

  predicate NonceLess(a: nat, b: nat) { a < b }

  /** The index is a heap of exactly the nonces of `m`, each once. */
  ghost predicate IndexOk(index: seq<nat>, m: NonceMap) {
    Heap.IsHeap(NonceLess, index) && multiset(index) == multiset(m.Keys)
  }

  lemma IndexMembers(index: seq<nat>, m: NonceMap)
    requires multiset(index) == multiset(m.Keys)
    ensures forall i :: 0 <= i < |index| ==> index[i] in m
    ensures forall n :: n in m ==> n in index
  {
    forall i | 0 <= i < |index| ensures index[i] in m { assert index[i] in multiset(index); }
    forall n | n in m ensures n in index { assert n in multiset(index); }
  }

  lemma IndexSize(index: seq<nat>, m: NonceMap)
    requires multiset(index) == multiset(m.Keys)
    ensures |index| == |m|
  {
    assert |index| == |multiset(index)| == |m.Keys|;
  }

  lemma IndexHas(index: seq<nat>, m: NonceMap, n: nat)
    requires IndexOk(index, m) && n in m
    ensures n in index
  {
    IndexMembers(index, m);
  }

  lemma FirstNonce(index: seq<nat>, m: NonceMap)
    requires IndexOk(index, m)
    ensures |index| > 0 ==> index[0] in m
    ensures forall n :: n in m ==> |index| > 0 && index[0] <= n
  {
    IndexMembers(index, m);
    forall n | n in m ensures |index| > 0 && index[0] <= n {
      var i :| 0 <= i < |index| && index[i] == n;
      Heap.RootIsLeast(NonceLess, index, i);
    }
  }

  function IndexPush(index: seq<nat>, ghost m: NonceMap, tx: Tx): (r: seq<nat>)
    requires IndexOk(index, m) && tx.nonce !in m
    ensures IndexOk(r, m[tx.nonce := tx])
  {
    assert multiset(m[tx.nonce := tx].Keys) == multiset(m.Keys) + multiset{tx.nonce};
    Heap.Push(NonceLess, index, tx.nonce)
  }

  lemma KeysWithout(m: NonceMap, n: nat)
    requires n in m
    ensures multiset((m - {n}).Keys) == multiset(m.Keys) - multiset{n}
  {
    assert (m - {n}).Keys == m.Keys - {n};
  }

  function IndexPop(index: seq<nat>, ghost m: NonceMap): (r: seq<nat>)
    requires IndexOk(index, m) && |index| > 0
    ensures |r| == |index| - 1 && IndexOk(r, m - {index[0]})
  {
    FirstNonce(index, m);
    KeysWithout(m, index[0]);
    Heap.Pop(NonceLess, index)
  }

  function IndexRemove(index: seq<nat>, ghost m: NonceMap, i: nat): (r: seq<nat>)
    requires IndexOk(index, m) && i < |index|
    ensures IndexOk(r, m - {index[i]})
  {
    IndexMembers(index, m);
    KeysWithout(m, index[i]);
    Heap.Remove(NonceLess, index, i)
  }

  function IndexInit(s: seq<nat>, ghost m: NonceMap): (r: seq<nat>)
    requires multiset(s) == multiset(m.Keys)
    ensures IndexOk(r, m)
  {
    Heap.Init(NonceLess, s)
  }

  method FindNonce(index: seq<nat>, nonce: nat) returns (i: nat)
    requires nonce in index
    ensures i < |index| && index[i] == nonce
  {
    i := 0;
    while index[i] != nonce
      invariant 0 <= i < |index| && nonce !in index[..i]
      decreases |index| - i
    {
      i := i + 1;
    }
  }

  // ----- Nonces in order -----

  ghost predicate Increasing(s: seq<nat>) {
    forall i, j :: 0 <= i < j < |s| ==> s[i] < s[j]
  }

  function SortNonces(index: seq<nat>, ghost m: NonceMap): (s: seq<nat>)
    requires IndexOk(index, m)
    ensures multiset(s) == multiset(m.Keys) && Increasing(s)
  {
    var s := SortBy((n: nat) => n, index);
    StrictNonces(s, m);
    s
  }

  lemma StrictNonces(s: seq<nat>, m: NonceMap)
    requires multiset(s) == multiset(m.Keys)
    requires forall i, j :: 0 <= i < j < |s| ==> s[i] <= s[j]
    ensures Increasing(s)
  {
    forall i, j | 0 <= i < j < |s| ensures s[i] < s[j] {
      assert s == s[..j] + s[j..];
      assert s[j] in multiset(s[j..]);
      assert multiset(s)[s[j]] <= 1;
      assert s[i] in s[..j];
    }
  }

  lemma {:induction false} PrefixSize(s: seq<nat>)
    requires Increasing(s)
    ensures |Members(s)| == |s|
  {
    if s != [] {
      var front, last := s[..|s| - 1], s[|s| - 1];
      PrefixSize(front);
      assert last !in front;
      assert s == front + [last];
      assert Members(s) == Members(front) + {last};
    }
  }

  /** In the increasing enumeration of its nonces, a list's nonce stands at its rank. */
  lemma RankInOrder(s: seq<nat>, m: NonceMap, i: nat)
    requires multiset(s) == multiset(m.Keys) && Increasing(s) && i < |s|
    ensures s[i] in m && Rank(m, s[i]) == i
  {
    IndexMembers(s, m);
    PrefixSize(s[..i]);
    forall j | j in m && j < s[i] ensures j in s[..i] {
      var k :| 0 <= k < |s| && s[k] == j;
      assert s[..i][k] == j;
    }
    assert NoncesBelow(m, s[i]) == Members(s[..i]);
  }

  ghost predicate Descending(s: seq<Tx>) {
    forall i, j :: 0 <= i < j < |s| ==> s[i].nonce > s[j].nonce
  }

  class SortedMap {
    var items: NonceMap
    var index: seq<nat>
    var cache: Option<seq<Tx>>

    /** The index holds exactly the stored nonces, and a cache, where there is one, is what a
        fresh sort would yield. */
    ghost predicate Valid()
      reads this
    {
      && Keyed(items)
      && IndexOk(index, items)
      && (cache.Some? ==> IsFlat(cache.value, items))
    }

    constructor ()
      ensures Valid() && items == map[]
    {
      items, index, cache := map[], [], None;
    }

    method Put(tx: Tx)
      requires Valid()
      modifies this
      ensures Valid() && items == old(items)[tx.nonce := tx]
    {
      if tx.nonce !in items {
        index := IndexPush(index, items, tx);
      } else {
        assert items[tx.nonce := tx].Keys == items.Keys;
      }
      items, cache := items[tx.nonce := tx], None;
    }

    /** Takes the transaction with the first nonce out of the map and the index. */
    method PopFirst() returns (tx: Tx)
      requires Keyed(items) && IndexOk(index, items) && |index| > 0
      modifies `items, `index
      ensures Keyed(items) && IndexOk(index, items) && |index| == |old(index)| - 1
      ensures tx.nonce == old(index[0]) && tx.nonce in old(items) && tx == old(items)[tx.nonce]
      ensures items == old(items) - {tx.nonce}
    {
      FirstNonce(index, items);
      tx := items[index[0]];
      items, index := items - {tx.nonce}, IndexPop(index, items);
    }

    method Forward(threshold: nat) returns (removed: seq<Tx>)
      requires Valid()
      modifies this
      ensures Valid() && items == From(old(items), threshold)
      ensures IsFlat(removed, Below(old(items), threshold))
    {
      hide IndexOk, IsFlat, Front, From, Below;
      removed := [];
      ghost var all, gone: NonceMap := items, map[];
      FrontStart(all);
      while |index| > 0 && index[0] < threshold
        invariant Keyed(items) && IndexOk(index, items) && cache == old(cache)
        invariant IsFlat(removed, gone) && Front(all, gone, items)
        invariant forall i :: i in gone ==> i < threshold
        decreases |index|
      {
        FirstNonce(index, items);
        FrontGrows(all, gone, items, index[0], removed);
        var tx := PopFirst();
        removed, gone := removed + [tx], gone[tx.nonce := tx];
      }
      FirstNonce(index, items);
      FrontIsBelow(all, gone, items, threshold);
      if cache.Some? {
        CacheShift(cache.value, all, gone, items, removed);
        cache := Some(cache.value[|removed|..]);
      }
    }

    /** Removes every transaction that `drop` selects; map order decides the order of the result. */
    method Filter(drop: Tx -> bool) returns (removed: seq<Tx>)
      requires Valid()
      modifies this
      ensures Valid() && items == WhereNot(old(items), drop)
      ensures Lists(removed, Where(old(items), drop))
    {
      removed := Iterate(Where(items, drop));
      if |removed| > 0 {
        items := WhereNot(items, drop);
        var kept := Iterate(items);
        index, cache := IndexInit(Nonces(kept, items), items), None;
      } else {
        NothingSelected(items, drop);
      }
    }

    /** Drops the transactions with the highest nonces, the highest first. */
    method Cap(threshold: nat) returns (drops: seq<Tx>)
      requires Valid()
      modifies this
      ensures Valid() && items == Lowest(old(items), threshold)
      ensures Lists(drops, Beyond(old(items), threshold))
      ensures Descending(drops)
    {
      hide Lowest, Beyond, IndexOk, IsFlat, Lists, Keyed, SortNonces, IndexInit;
      drops := [];
      LowestOfAll(items, threshold);
      if |items| <= threshold {
        return;
      }
      ghost var all := items;
      var order := SortNonces(index, items);
      IndexSize(order, items);
      items, drops := DropFromTop(order, items, threshold);
      CapIndex(order, all, threshold);
      LowestKeyed(all, threshold);
      index := IndexInit(order[..threshold], items);
      if cache.Some? {
        CacheCapped(cache.value, all, threshold, drops);
        cache := Some(cache.value[..|cache.value| - |drops|]);
      }
    }

    /** Removes the transaction with the given nonce, if there is one. */
    method Remove(nonce: nat) returns (found: bool)
      requires Valid()
      modifies this
      ensures Valid() && found == (nonce in old(items))
      ensures items == if found then old(items) - {nonce} else old(items)
    {
      if nonce !in items {
        return false;
      }
      hide IndexOk;
      IndexHas(index, items, nonce);
      var i := FindNonce(index, nonce);
      index := IndexRemove(index, items, i);
      items, cache := items - {nonce}, None;
      found := true;
    }

    /** Takes out the leading run of consecutive nonces, if it starts no later than `start`. */
    method Ready(start: nat) returns (ready: seq<Tx>)
      requires Valid()
      modifies this
      ensures Valid() && items == NotReady(old(items), start)
      ensures IsFlat(ready, ReadyRun(old(items), start))
    {
      hide IndexOk, IsFlat, Front, ReadyRun, NotReady;
      ready := [];
      FirstNonce(index, items);
      ghost var all, gone: NonceMap := items, map[];
      if |index| == 0 || index[0] > start {
        NothingReady(items, start);
        return;
      }
      FrontStart(all);
      ghost var first := index[0];
      var next := index[0];
      while |index| > 0 && index[0] == next
        invariant Keyed(items) && IndexOk(index, items)
        invariant first <= next && (first == next ==> items == all)
        invariant IsFlat(ready, gone) && Front(all, gone, items)
        invariant forall k :: k in gone <==> first <= k < next
        invariant forall k :: k in items ==> next <= k
        decreases |index|
      {
        FirstNonce(index, items);
        FrontGrows(all, gone, items, index[0], ready);
        var tx := PopFirst();
        ready, gone := ready + [tx], gone[tx.nonce := tx];
        next := next + 1;
      }
      FirstNonce(index, items);
      RunIsReady(all, gone, items, first, next, start);
      cache := None;
    }

    /** The nonce-sorted contents, from the cache when it is there. */
    method Flatten() returns (txs: seq<Tx>)
      requires Valid()
      modifies `cache
      ensures Valid() && IsFlat(txs, items)
    {
      if cache.None? {
        var all := Iterate(items);
        cache := Some(SortTxs(all, items));
      }
      txs := cache.value;
    }
  }

  /** `all` is `gone` followed by `rest`. */
  ghost predicate Front(all: NonceMap, gone: NonceMap, rest: NonceMap) {
    && Keyed(gone) && gone.Keys !! rest.Keys && all == gone + rest
    && forall i, j :: i in gone && j in rest ==> i < j
  }

  lemma FrontStart(all: NonceMap)
    ensures Front(all, map[], all) && IsFlat([], map[])
  {
  }

  lemma FrontIsBelow(all: NonceMap, gone: NonceMap, rest: NonceMap, threshold: nat)
    requires Front(all, gone, rest)
    requires forall i :: i in gone ==> i < threshold
    requires forall i :: i in rest ==> threshold <= i
    ensures gone == Below(all, threshold) && rest == From(all, threshold)
  {
  }

  lemma FrontGrows(all: NonceMap, gone: NonceMap, rest: NonceMap, n: nat, s: seq<Tx>)
    requires Keyed(rest) && Front(all, gone, rest) && IsFlat(s, gone)
    requires n in rest && forall k :: k in rest ==> n <= k
    ensures Front(all, gone[n := rest[n]], rest - {n}) && IsFlat(s + [rest[n]], gone[n := rest[n]])
  {
    var tx := rest[n];
    ListsMore(s, gone, tx);
    assert all == gone[n := tx] + (rest - {n});
  }

  lemma CacheShift(c: seq<Tx>, all: NonceMap, gone: NonceMap, rest: NonceMap, removed: seq<Tx>)
    requires Keyed(rest) && Front(all, gone, rest) && IsFlat(c, all) && IsFlat(removed, gone)
    ensures |removed| <= |c| && IsFlat(c[|removed|..], rest)
  {
    var s, t := FlatSplit(c, gone, rest);
    ListsLength(s, gone);
    ListsLength(removed, gone);
    assert c[|removed|..] == t;
  }

  lemma CacheCut(c: seq<Tx>, kept: NonceMap, gone: NonceMap, drops: seq<Tx>)
    requires Keyed(kept) && Keyed(gone) && IsFlat(c, kept + gone) && Lists(drops, gone)
    requires forall i, j :: i in kept && j in gone ==> i < j
    ensures |drops| <= |c| && IsFlat(c[..|c| - |drops|], kept)
  {
    var s, t := FlatSplit(c, kept, gone);
    ListsLength(t, gone);
    ListsLength(drops, gone);
    assert c[..|c| - |drops|] == s;
  }

  lemma LowestKeyed(m: NonceMap, count: nat)
    requires Keyed(m)
    ensures Keyed(Lowest(m, count))
  {
  }

  /** Capping a list cuts as many transactions off its cached listing as it drops. */
  lemma CacheCapped(c: seq<Tx>, m: NonceMap, count: nat, drops: seq<Tx>)
    requires Keyed(m) && IsFlat(c, m) && Lists(drops, Beyond(m, count))
    ensures |drops| <= |c| && IsFlat(c[..|c| - |drops|], Lowest(m, count))
  {
    hide Lowest, Beyond, IsFlat, Lists, Keyed;
    LowestBeforeBeyond(m, count);
    CacheCut(c, Lowest(m, count), Beyond(m, count), drops);
  }

  lemma NothingSelected(m: NonceMap, drop: Tx -> bool)
    requires Lists([], Where(m, drop))
    ensures m == WhereNot(m, drop)
  {
    var w := Where(m, drop);
    assert forall n :: n in m && drop(m[n]) ==> n in w;
    assert forall n :: n !in w;
  }

  function Nonces(s: seq<Tx>, ghost m: NonceMap): (r: seq<nat>)
    requires Keyed(m) && Lists(s, m)
    ensures multiset(r) == multiset(m.Keys)
  {
    if s == [] then
      assert forall n :: n !in m;
      []
    else
      ListsTail(s, m);
      KeysWithout(m, s[0].nonce);
      [s[0].nonce] + Nonces(s[1..], m - {s[0].nonce})
  }

  lemma NothingReady(m: NonceMap, start: nat)
    requires forall n :: n in m ==> n > start
    ensures IsFlat([], ReadyRun(m, start)) && NotReady(m, start) == m
  {
    assert ReadyRun(m, start) == map[];
  }

  lemma RunIsReady(m: NonceMap, run: NonceMap, rest: NonceMap, first: nat, next: nat, start: nat)
    requires Front(m, run, rest) && first in run && first <= start && next !in rest
    requires forall k :: k in run <==> first <= k < next
    ensures run == ReadyRun(m, start) && rest == NotReady(m, start)
  {
    assert first in m && next !in m;
    forall n | n in rest ensures !UnbrokenTo(m, n) {
      assert first <= next <= n;
    }
    forall n, j, k: nat | n in run && j in m && j <= k <= n ensures k in m {
      assert k in run;
    }
    assert run == ReadyRun(m, start);
  }

  lemma LowestBeforeBeyond(m: NonceMap, count: nat)
    requires Keyed(m)
    ensures forall i, j :: i in Lowest(m, count) && j in Beyond(m, count) ==> i < j
    ensures m == Lowest(m, count) + Beyond(m, count)
    ensures Keyed(Lowest(m, count)) && Keyed(Beyond(m, count))
  {
    forall i, j | i in Lowest(m, count) && j in Beyond(m, count) ensures i < j {
      if j < i { RankMonotone(m, j, i); }
    }
  }

  /** Exactly the nonce at place `i` of the enumeration has rank `i`. */
  lemma RankOwner(order: seq<nat>, m: NonceMap, i: nat)
    requires multiset(order) == multiset(m.Keys) && Increasing(order) && i < |order|
    ensures order[i] in m && forall n :: n in m ==> (Rank(m, n) == i <==> n == order[i])
  {
    RankInOrder(order, m, i);
    forall n | n in m && n != order[i] ensures Rank(m, n) != i {
      if n < order[i] { RankMonotone(m, n, order[i]); } else { RankMonotone(m, order[i], n); }
    }
  }

  /** Going one nonce further down the sorted index moves exactly one transaction over. */
  lemma CapStep(order: seq<nat>, m: NonceMap, size: nat, drops: seq<Tx>)
    requires Keyed(m) && multiset(order) == multiset(m.Keys) && Increasing(order) && size < |order|
    requires Lists(drops, Beyond(m, size + 1))
    ensures order[size] in m && m[order[size]].nonce == order[size]
    ensures order[size] in Lowest(m, size + 1) && Lowest(m, size + 1)[order[size]] == m[order[size]]
    ensures Lowest(m, size) == Lowest(m, size + 1) - {order[size]}
    ensures Lists(drops + [m[order[size]]], Beyond(m, size))
    ensures forall i :: 0 <= i < |drops| ==> order[size] < drops[i].nonce
  {
    RankOwner(order, m, size);
    var o := order[size];
    ListsMore(drops, Beyond(m, size + 1), m[o]);
    assert Beyond(m, size) == Beyond(m, size + 1)[o := m[o]];
    forall i | 0 <= i < |drops| ensures o < drops[i].nonce {
      if drops[i].nonce < o { RankMonotone(m, drops[i].nonce, o); }
    }
  }

  method DropFromTop(order: seq<nat>, m: NonceMap, threshold: nat) returns (kept: NonceMap, drops: seq<Tx>)
    requires Keyed(m) && multiset(order) == multiset(m.Keys) && Increasing(order) && threshold <= |m| == |order|
    ensures kept == Lowest(m, threshold)
    ensures Lists(drops, Beyond(m, threshold)) && Descending(drops)
  {
    hide Lowest, Beyond, Lists, Increasing, Keyed;
    kept, drops := m, [];
    LowestOfAll(m, |m|);
    var size := |m|;
    while size > threshold
      invariant threshold <= size <= |m|
      invariant kept == Lowest(m, size)
      invariant Lists(drops, Beyond(m, size)) && Descending(drops)
    {
      size := size - 1;
      CapStep(order, m, size, drops);
      drops := drops + [kept[order[size]]];
      kept := kept - {order[size]};
    }
  }

  lemma {:induction false} CapIndex(order: seq<nat>, m: NonceMap, count: nat)
    requires multiset(order) == multiset(m.Keys) && Increasing(order) && count <= |order|
    ensures multiset(order[..count]) == multiset(Lowest(m, count).Keys)
  {
    if count == 0 {
      assert Lowest(m, 0) == map[];
      assert order[..0] == [];
    } else {
      CapIndex(order, m, count - 1);
      RankOwner(order, m, count - 1);
      var o := order[count - 1];
      assert Lowest(m, count).Keys == Lowest(m, count - 1).Keys + {o};
      assert order[..count] == order[..count - 1] + [o];
    }
  }

  /** A list of transactions of one account: strictly continuous for pending transactions,
      possibly gapped for queued ones. */
  class TxList {
    const strict: bool
    const txs: SortedMap
    var costcap: int
    var gascap: nat

    function Items(): NonceMap
      reads txs
    {
      txs.items
    }

    /** The caps bound every stored cost and gas limit. */
    ghost predicate Valid()
      reads this, txs
    {
      txs.Valid() && forall n :: n in txs.items ==> Payable(txs.items[n], costcap, gascap)
    }

    constructor (strict: bool)
      ensures Valid() && fresh(txs) && Items() == map[] && this.strict == strict
    {
      this.strict := strict;
      txs := new SortedMap();
      costcap, gascap := 0, 0;
    }

    method Add(tx: Tx, priceBump: nat) returns (inserted: bool, prior: Option<Tx>)
      requires Valid()
      modifies this, txs
      ensures Valid()
      ensures inserted == (tx.nonce in old(Items()) ==> Outbids(tx, old(Items())[tx.nonce], priceBump))
      ensures Items() == if inserted then old(Items())[tx.nonce := tx] else old(Items())
      ensures prior == if inserted && tx.nonce in old(Items()) then Some(old(Items())[tx.nonce]) else None
    {
      prior := None;
      if tx.nonce in txs.items {
        if !Outbids(tx, txs.items[tx.nonce], priceBump) {
          return false, None;
        }
        prior := Some(txs.items[tx.nonce]);
      }
      txs.Put(tx);
      if costcap < tx.Cost() { costcap := tx.Cost(); }
      if gascap < tx.gas { gascap := tx.gas; }
      inserted := true;
    }

    /** The cached caps decide without looking; the result is that of filtering every transaction. */
    method Filter(costLimit: int, gasLimit: nat) returns (removed: seq<Tx>, invalids: seq<Tx>)
      requires Valid()
      modifies this, txs
      ensures Valid()
      ensures Lists(removed, Unpayable(old(Items()), costLimit, gasLimit))
      ensures strict ==> Items() == PayablePrefix(old(Items()), costLimit, gasLimit)
      ensures strict ==> Lists(invalids, Stranded(old(Items()), costLimit, gasLimit))
      ensures !strict ==> Items() == AllPayable(old(Items()), costLimit, gasLimit) && invalids == []
    {
      hide Lists, AllPayable, Unpayable, PayablePrefix, Stranded, Where, WhereNot;
      ghost var all := txs.items;
      removed, invalids := [], [];
      if costcap <= costLimit && gascap <= gasLimit {
        NothingUnpayable(all, costLimit, gasLimit);
        return;
      }
      costcap, gascap := costLimit, gasLimit;
      var unpayable := (tx: Tx) => !Payable(tx, costLimit, gasLimit);
      WhereUnpayable(all, costLimit, gasLimit, unpayable);
      removed := txs.Filter(unpayable);
      if strict && |removed| > 0 {
        var lowest := LowestNonce(removed);
        var later := (tx: Tx) => tx.nonce > lowest;
        WhereStranded(all, costLimit, gasLimit, removed, lowest, later);
        invalids := txs.Filter(later);
      } else if |removed| == 0 {
        NoneListed(all, costLimit, gasLimit);
      }
    }

    /** Removes the transaction with the nonce of `tx` and, in a strict list, everything after it. */
    method Remove(tx: Tx) returns (found: bool, invalids: seq<Tx>)
      requires Valid()
      modifies txs
      ensures Valid() && found == (tx.nonce in old(Items()))
      ensures !found ==> Items() == old(Items()) && invalids == []
      ensures found && strict ==> Items() == Below(old(Items()), tx.nonce)
      ensures found && strict ==> Lists(invalids, After(old(Items()), tx.nonce))
      ensures found && !strict ==> Items() == old(Items()) - {tx.nonce} && invalids == []
    {
      hide Where, WhereNot, After, Below, Lists;
      ghost var all := txs.items;
      invalids := [];
      found := txs.Remove(tx.nonce);
      if !found {
        return;
      }
      if strict {
        var later := (other: Tx) => other.nonce > tx.nonce;
        WhereLater(all, tx.nonce, later);
        invalids := txs.Filter(later);
      }
    }

    method Forward(threshold: nat) returns (removed: seq<Tx>)
      requires Valid()
      modifies txs
      ensures Valid() && Items() == From(old(Items()), threshold)
      ensures IsFlat(removed, Below(old(Items()), threshold))
    {
      hide IsFlat, Below;
      removed := txs.Forward(threshold);
    }

    method Cap(threshold: nat) returns (drops: seq<Tx>)
      requires Valid()
      modifies txs
      ensures Valid() && Items() == Lowest(old(Items()), threshold)
      ensures Lists(drops, Beyond(old(Items()), threshold)) && Descending(drops)
    {
      hide Lists, Beyond;
      drops := txs.Cap(threshold);
    }

    method Ready(start: nat) returns (ready: seq<Tx>)
      requires Valid()
      modifies txs
      ensures Valid() && Items() == NotReady(old(Items()), start)
      ensures IsFlat(ready, ReadyRun(old(Items()), start))
    {
      hide IsFlat, ReadyRun;
      ready := txs.Ready(start);
    }

    method Flatten() returns (all: seq<Tx>)
      requires Valid()
      modifies txs`cache
      ensures Valid() && IsFlat(all, Items())
    {
      all := txs.Flatten();
    }
  }

  lemma WhereLater(m: NonceMap, nonce: nat, p: Tx -> bool)
    requires Keyed(m) && forall tx :: p(tx) == (tx.nonce > nonce)
    ensures Where(m - {nonce}, p) == After(m, nonce)
    ensures WhereNot(m - {nonce}, p) == Below(m, nonce)
    ensures forall n :: n in Below(m, nonce) ==> n in m && Below(m, nonce)[n] == m[n]
  {
  }

  method LowestNonce(txs: seq<Tx>) returns (lowest: nat)
    requires |txs| > 0
    ensures exists k :: 0 <= k < |txs| && txs[k].nonce == lowest
    ensures forall k :: 0 <= k < |txs| ==> lowest <= txs[k].nonce
  {
    lowest := txs[0].nonce;
    for i := 1 to |txs|
      invariant exists k :: 0 <= k < i && txs[k].nonce == lowest
      invariant forall k :: 0 <= k < i ==> lowest <= txs[k].nonce
    {
      if txs[i].nonce < lowest { lowest := txs[i].nonce; }
    }
  }

  lemma NothingUnpayable(m: NonceMap, costLimit: int, gasLimit: nat)
    requires forall n :: n in m ==> Payable(m[n], costLimit, gasLimit)
    ensures Lists([], Unpayable(m, costLimit, gasLimit)) && Lists([], Stranded(m, costLimit, gasLimit))
    ensures AllPayable(m, costLimit, gasLimit) == m && PayablePrefix(m, costLimit, gasLimit) == m
  {
    assert PayablePrefix(m, costLimit, gasLimit) == m;
  }

  lemma NoneListed(m: NonceMap, costLimit: int, gasLimit: nat)
    requires Lists([], Unpayable(m, costLimit, gasLimit))
    ensures Lists([], Stranded(m, costLimit, gasLimit))
    ensures AllPayable(m, costLimit, gasLimit) == m && PayablePrefix(m, costLimit, gasLimit) == m
  {
    var u := Unpayable(m, costLimit, gasLimit);
    assert forall n :: n in m && !Payable(m[n], costLimit, gasLimit) ==> n in u;
    assert forall n :: n !in u;
    NothingUnpayable(m, costLimit, gasLimit);
  }

  lemma WhereUnpayable(m: NonceMap, costLimit: int, gasLimit: nat, p: Tx -> bool)
    requires forall tx :: p(tx) == !Payable(tx, costLimit, gasLimit)
    ensures Where(m, p) == Unpayable(m, costLimit, gasLimit)
    ensures WhereNot(m, p) == AllPayable(m, costLimit, gasLimit)
    ensures forall n :: n in AllPayable(m, costLimit, gasLimit) ==>
                          Payable(AllPayable(m, costLimit, gasLimit)[n], costLimit, gasLimit)
  {
  }

  /** The payable prefix ends at the lowest removed nonce. */
  lemma PrefixEnds(m: NonceMap, costLimit: int, gasLimit: nat, removed: seq<Tx>, lowest: nat)
    requires Keyed(m) && Lists(removed, Unpayable(m, costLimit, gasLimit))
    requires exists k :: 0 <= k < |removed| && removed[k].nonce == lowest
    requires forall k :: 0 <= k < |removed| ==> lowest <= removed[k].nonce
    ensures lowest in m && !Payable(m[lowest], costLimit, gasLimit)
    ensures forall n :: n in m && n < lowest ==> Payable(m[n], costLimit, gasLimit)
  {
    var u := Unpayable(m, costLimit, gasLimit);
    forall n | n in m && !Payable(m[n], costLimit, gasLimit) ensures lowest <= n {
      assert u[n] in removed;
    }
  }

  lemma WhereStranded(m: NonceMap, costLimit: int, gasLimit: nat, removed: seq<Tx>, lowest: nat, p: Tx -> bool)
    requires Keyed(m) && Lists(removed, Unpayable(m, costLimit, gasLimit))
    requires exists k :: 0 <= k < |removed| && removed[k].nonce == lowest
    requires forall k :: 0 <= k < |removed| ==> lowest <= removed[k].nonce
    requires forall tx :: p(tx) == (tx.nonce > lowest)
    ensures Where(AllPayable(m, costLimit, gasLimit), p) == Stranded(m, costLimit, gasLimit)
    ensures WhereNot(AllPayable(m, costLimit, gasLimit), p) == PayablePrefix(m, costLimit, gasLimit)
    ensures forall n :: n in PayablePrefix(m, costLimit, gasLimit) ==>
                          Payable(PayablePrefix(m, costLimit, gasLimit)[n], costLimit, gasLimit)
  {
    PrefixEnds(m, costLimit, gasLimit, removed, lowest);
    StrandedAfter(m, costLimit, gasLimit, lowest);
    hide Payable, Lists, Stranded, PayablePrefix;
    var pay := AllPayable(m, costLimit, gasLimit);
    assert Where(pay, p) == Stranded(m, costLimit, gasLimit);
    assert WhereNot(pay, p) == PayablePrefix(m, costLimit, gasLimit);
  }

  lemma StrandedAfter(m: NonceMap, costLimit: int, gasLimit: nat, lowest: nat)
    requires lowest in m && !Payable(m[lowest], costLimit, gasLimit)
    requires forall n :: n in m && n < lowest ==> Payable(m[n], costLimit, gasLimit)
    ensures PayablePrefix(m, costLimit, gasLimit) == Below(m, lowest)
    ensures Stranded(m, costLimit, gasLimit) == After(AllPayable(m, costLimit, gasLimit), lowest)
    ensures Below(m, lowest) == Below(AllPayable(m, costLimit, gasLimit), lowest)
  {
    hide Payable;
    assert PayablePrefix(m, costLimit, gasLimit) == Below(m, lowest);
  }

  /** Strict removals keep a continuous list continuous. */
  lemma StrictRemovalsKeepGapFree(m: NonceMap, nonce: nat, costLimit: int, gasLimit: nat, count: nat)
    requires GapFree(m)
    ensures GapFree(From(m, nonce)) && GapFree(Below(m, nonce))
    ensures GapFree(PayablePrefix(m, costLimit, gasLimit))
    ensures GapFree(Lowest(m, count))
  {
    var l := Lowest(m, count);
    forall i, j, k | i in l && j in l && i <= k <= j ensures k in l {
      if k < j { RankMonotone(m, k, j); }
    }
  }
}
