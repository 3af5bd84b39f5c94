/** The hash lookup over all pooled transactions, and the price-sorted heap over the same
    transactions, which keeps stale entries until it pays to rebuild it. */
module PricedTxs {
  import opened Transactions
  import opened Collections
  import Heap = BinaryHeap

  /** Slots taken by a set of transactions. */
  ghost function SlotSum(txs: set<Tx>): nat {
    if txs == {} then 0 else var tx :| tx in txs; NumSlots(tx) + SlotSum(txs - {tx})
  }

  /** The sum does not depend on the order in which it is taken. */
  lemma {:induction false} SlotSumWithout(txs: set<Tx>, tx: Tx)
    requires tx in txs
    ensures SlotSum(txs) == NumSlots(tx) + SlotSum(txs - {tx})
  {
    var first :| first in txs && SlotSum(txs) == NumSlots(first) + SlotSum(txs - {first});
    if first != tx {
      SlotSumWithout(txs - {first}, tx);
      SlotSumWithout(txs - {tx}, first);
      assert txs - {first} - {tx} == txs - {tx} - {first};
    }
  }

  lemma {:induction false} SlotSumBound(txs: set<Tx>)
    ensures SlotSum(txs) >= |txs|
  {
    if txs != {} {
      var tx :| tx in txs;
      SlotSumWithout(txs, tx);
      SlotSumBound(txs - {tx});
    }
  }

  lemma {:induction false} SlotSumMinus(txs: set<Tx>, part: set<Tx>)
    requires part <= txs
    ensures SlotSum(txs - part) == SlotSum(txs) - SlotSum(part)
  {
    if part == {} {
      assert txs - part == txs;
    } else {
      var tx :| tx in part;
      SlotSumWithout(part, tx);
      SlotSumWithout(txs, tx);
      SlotSumMinus(txs - {tx}, part - {tx});
      assert txs - {tx} - (part - {tx}) == txs - part;
    }
  }

  class Lookup {
    var txs: set<Tx>
    var slots: int

    ghost predicate Valid()
      reads this
    {
      slots == SlotSum(txs)
    }

    constructor ()
      ensures Valid() && txs == {}
    {
      txs, slots := {}, 0;
    }

    method Add(tx: Tx)
      requires Valid() && tx !in txs
      modifies this
      ensures Valid() && txs == old(txs) + {tx}
    {
      SlotSumWithout(txs + {tx}, tx);
      assert txs + {tx} - {tx} == txs;
      slots := slots + NumSlots(tx);
      txs := txs + {tx};
    }

    /** Looking up the slots of an unknown transaction would crash. */
    method Remove(tx: Tx)
      requires Valid() && tx in txs
      modifies this
      ensures Valid() && txs == old(txs) - {tx}
    {
      SlotSumWithout(txs, tx);
      slots := slots - NumSlots(tx);
      txs := txs - {tx};
    }
  }

  // ----- The heap of prices -----

  /** The cheaper one first and, at the same price, the one with the higher nonce. */
  predicate PriceLess(a: Tx, b: Tx) {
    a.gasPrice < b.gasPrice || (a.gasPrice == b.gasPrice && a.nonce > b.nonce)
  }

  ghost predicate PriceHeap(h: seq<Tx>) {
    Heap.IsHeap(PriceLess, h)
  }

  lemma CheapestFirst(h: seq<Tx>)
    requires PriceHeap(h) && |h| > 0
    ensures forall x :: x in h ==> h[0].gasPrice <= x.gasPrice
  {
    forall x | x in h ensures h[0].gasPrice <= x.gasPrice {
      var i :| 0 <= i < |h| && h[i] == x;
      Heap.RootIsLeast(PriceLess, h, i);
    }
  }

  function PricePop(h: seq<Tx>): (r: seq<Tx>)
    requires PriceHeap(h) && |h| > 0
    ensures PriceHeap(r) && |r| == |h| - 1
    ensures forall x :: x in r ==> x in h
    ensures forall x :: x in h ==> x == h[0] || x in r
  {
    var r := Heap.Pop(PriceLess, h);
    SameMembers(h, r);
    r
  }

  lemma SameMembers(h: seq<Tx>, r: seq<Tx>)
    requires |h| > 0 && multiset(r) == multiset(h) - multiset{h[0]}
    ensures forall x :: x in r ==> x in h
    ensures forall x :: x in h ==> x == h[0] || x in r
  {
    forall x | x in r ensures x in h { assert x in multiset(r); }
    forall x | x in h && x != h[0] ensures x in r {
      assert x in multiset(h);
      assert x in multiset(r);
    }
  }

  function PricePush(h: seq<Tx>, tx: Tx): (r: seq<Tx>)
    requires PriceHeap(h)
    ensures PriceHeap(r) && multiset(r) == multiset(h) + multiset{tx}
    ensures forall x :: x in r <==> x in h || x == tx
  {
    var r := Heap.Push(PriceLess, h, tx);
    assert forall x :: x in r <==> x in multiset(r);
    assert forall x :: x in h <==> x in multiset(h);
    r
  }

  function PricePushAll(h: seq<Tx>, txs: seq<Tx>): (r: seq<Tx>)
    requires PriceHeap(h)
    ensures PriceHeap(r)
    ensures forall x :: x in r <==> x in h || x in txs
    decreases |txs|
  {
    if txs == [] then h else PricePushAll(PricePush(h, txs[0]), txs[1..])
  }

  function PriceInit(s: seq<Tx>): (r: seq<Tx>)
    ensures PriceHeap(r) && multiset(r) == multiset(s)
    ensures forall x :: x in r <==> x in s
  {
    var r := Heap.Init(PriceLess, s);
    assert forall x :: x in r <==> x in multiset(r);
    assert forall x :: x in s <==> x in multiset(s);
    r
  }

  predicate Remote(tx: Tx, local: set<Address>) {
    tx.sender !in local
  }

  // ----- What a discard takes out of the heap -----

  /** The entries of live remote transactions, in the order in which the heap yields them. */
  ghost function Popped(h: seq<Tx>, all: set<Tx>, local: set<Address>): seq<Tx>
    requires PriceHeap(h)
    decreases |h|
  {
    if |h| == 0 then []
    else (if h[0] in all && Remote(h[0], local) then [h[0]] else []) + Popped(PricePop(h), all, local)
  }

  /** The slots of a list of heap entries. */
  ghost function EntrySlots(s: seq<Tx>): nat {
    if |s| == 0 then 0 else EntrySlots(s[..|s| - 1]) + NumSlots(s[|s| - 1])
  }

  /** How many of the entries are taken to pay for the slots. */
  ghost function Cut(s: seq<Tx>, slots: int): (k: nat)
    ensures k <= |s|
    decreases |s|
  {
    if |s| == 0 || slots <= 0 then 0 else 1 + Cut(s[1..], slots - NumSlots(s[0]))
  }

  /** What leaves the pool when the given slots are asked for. */
  ghost function Leaving(s: seq<Tx>, slots: int): set<Tx> {
    Members(s[..Cut(s, slots)])
  }

  lemma {:induction false} EntrySlotsCons(x: Tx, s: seq<Tx>)
    ensures EntrySlots([x] + s) == NumSlots(x) + EntrySlots(s)
  {
    if |s| == 0 {
      assert ([x] + s)[..0] == [];
    } else {
      assert ([x] + s)[..|s|] == [x] + s[..|s| - 1];
      EntrySlotsCons(x, s[..|s| - 1]);
    }
  }

  /** Entries are taken until they pay for the slots or there are no more, and none without need. */
  lemma {:induction false} CutPays(s: seq<Tx>, slots: int)
    ensures var k := Cut(s, slots);
            && (k < |s| ==> EntrySlots(s[..k]) >= slots)
            && (k > 0 ==> EntrySlots(s[..k - 1]) < slots)
    decreases |s|
  {
    hide EntrySlots;
    var k := Cut(s, slots);
    assert s[..0] == [];
    NoEntries();
    if k > 0 {
      var x, t := s[0], s[1..];
      CutPays(t, slots - NumSlots(x));
      assert s[..k] == [x] + t[..k - 1];
      EntrySlotsCons(x, t[..k - 1]);
      if k > 1 {
        assert s[..k - 1] == [x] + t[..k - 2];
        EntrySlotsCons(x, t[..k - 2]);
      }
    }
  }

  lemma NoEntries()
    ensures EntrySlots([]) == 0
  {
  }

  /** Asking for exactly the slots of the first entries takes exactly these. */
  lemma {:induction false} CutAt(s: seq<Tx>, k: nat)
    requires k <= |s|
    ensures Cut(s, EntrySlots(s[..k])) == k
    decreases |s|
  {
    if k > 0 {
      assert s[..k] == [s[0]] + s[1..][..k - 1];
      EntrySlotsCons(s[0], s[1..][..k - 1]);
      CutAt(s[1..], k - 1);
    }
  }

  lemma EntrySlotsStep(s: seq<Tx>, k: nat)
    requires k < |s|
    ensures EntrySlots(s[..k + 1]) == EntrySlots(s[..k]) + NumSlots(s[k])
  {
    assert s[..k + 1][..k] == s[..k];
  }

  /** A set of transactions takes the slots of its entries, less those of entries that repeat. */
  lemma {:induction false} SlotsOfEntries(s: seq<Tx>)
    ensures SlotSum(Members(s)) <= EntrySlots(s)
    ensures SlotSum(Members(s)) == EntrySlots(s) <==> Distinct(s)
  {
    hide SlotSum;
    if |s| == 0 {
      NoSlots(s);
    } else {
      var front, x := s[..|s| - 1], s[|s| - 1];
      assert s == front + [x];
      SlotsOfEntries(front);
      MembersAppend(front, x);
      if x in front {
        assert Members(front) + {x} == Members(front);
      } else {
        SlotSumWithout(Members(front) + {x}, x);
        assert Members(front) + {x} - {x} == Members(front);
      }
    }
  }

  lemma NoSlots(s: seq<Tx>)
    requires |s| == 0
    ensures SlotSum(Members(s)) == 0
  {
    assert Members(s) == {};
  }

  /** What leaves frees enough slots, or nothing is left that could leave. */
  ghost predicate Enough(s: seq<Tx>, slots: int) {
    SlotSum(Leaving(s, slots)) >= slots || Leaving(s, slots) == Members(s)
  }

  ghost predicate AlwaysEnough(s: seq<Tx>) {
    forall slots: int :: Enough(s, slots)
  }

  /** An entry repeats an earlier one only when every transaction has already come up. */
  ghost predicate RepeatsLast(s: seq<Tx>) {
    forall j :: 0 <= j < |s| && s[j] in s[..j] ==> Members(s[..j]) == Members(s)
  }

  lemma {:induction false} FirstRepeat(s: seq<Tx>, k: nat) returns (j: nat)
    requires k <= |s| && !Distinct(s[..k])
    ensures j < k && s[j] in s[..j]
  {
    var i, n :| 0 <= i < n < k && s[..k][i] == s[..k][n];
    j := n;
    assert s[..j][i] == s[j];
  }

  lemma MembersOfPrefix(s: seq<Tx>, j: nat, k: nat)
    requires j <= k <= |s|
    ensures Members(s[..j]) <= Members(s[..k]) <= Members(s)
  {
    assert forall i :: 0 <= i < j ==> s[..j][i] == s[..k][i];
  }

  lemma EnoughUnlessRepeated(s: seq<Tx>, slots: int)
    requires RepeatsLast(s)
    ensures Enough(s, slots)
  {
    hide SlotSum, EntrySlots;
    var k := Cut(s, slots);
    CutPays(s, slots);
    SlotsOfEntries(s[..k]);
    if !Distinct(s[..k]) {
      var j := FirstRepeat(s, k);
      MembersOfPrefix(s, j, k);
    } else if k == |s| {
      assert s[..k] == s;
    }
  }

  lemma RepeatFallsShort(s: seq<Tx>, j: nat)
    requires j < |s| && s[j] in s[..j] && Members(s[..j]) != Members(s)
    ensures !Enough(s, EntrySlots(s[..j + 1]))
  {
    hide SlotSum, EntrySlots;
    CutAt(s, j + 1);
    EntrySlotsStep(s, j);
    SlotsOfEntries(s[..j]);
    MembersStep(s, j);
    assert Members(s[..j + 1]) == Members(s[..j]);
  }

  /** Discarding frees enough slots for every request, or drops all it may, exactly if no entry
      repeats an earlier one while some other transaction has not come up yet. */
  lemma EnoughForAll(s: seq<Tx>)
    ensures AlwaysEnough(s) <==> RepeatsLast(s)
  {
    hide Enough;
    if RepeatsLast(s) {
      forall slots: int
        ensures Enough(s, slots)
      {
        EnoughUnlessRepeated(s, slots);
      }
    } else {
      var j :| 0 <= j < |s| && s[j] in s[..j] && Members(s[..j]) != Members(s);
      RepeatFallsShort(s, j);
    }
  }

  /** At most one transaction leaves without need. */
  lemma LeavingNeeded(s: seq<Tx>, slots: int)
    ensures Leaving(s, slots) == {} || exists d :: d in Leaving(s, slots) && SlotSum(Leaving(s, slots) - {d}) < slots
  {
    hide SlotSum, EntrySlots;
    var k := Cut(s, slots);
    if k > 0 {
      CutPays(s, slots);
      SlotsOfEntries(s[..k - 1]);
      MembersStep(s, k - 1);
      var d := s[k - 1];
      SlotSumPart(Leaving(s, slots) - {d}, Members(s[..k - 1]));
      assert d in Leaving(s, slots);
    } else {
      assert s[..0] == [];
    }
  }

  lemma {:induction false} SlotSumPart(part: set<Tx>, whole: set<Tx>)
    requires part <= whole
    ensures SlotSum(part) <= SlotSum(whole)
  {
    if part != {} {
      var tx :| tx in part;
      SlotSumWithout(part, tx);
      SlotSumWithout(whole, tx);
      SlotSumPart(part - {tx}, whole - {tx});
    }
  }

  lemma PoppedStep(h: seq<Tx>, all: set<Tx>, local: set<Address>)
    requires PriceHeap(h) && |h| > 0
    ensures var s, rest := Popped(h, all, local), Popped(PricePop(h), all, local);
            s == if h[0] in all && Remote(h[0], local) then [h[0]] + rest else rest
  {
    hide PriceHeap, PricePop, Remote;
  }

  lemma CutStep(x: Tx, rest: seq<Tx>, left: int)
    requires left > 0
    ensures Cut([x] + rest, left) == 1 + Cut(rest, left - NumSlots(x))
  {
    assert ([x] + rest)[1..] == rest;
  }

  lemma PopStep(h: seq<Tx>, all: set<Tx>, local: set<Address>, left: int)
    requires PriceHeap(h) && |h| > 0 && left > 0
    ensures var s, rest := Popped(h, all, local), Popped(PricePop(h), all, local);
            if h[0] in all && Remote(h[0], local)
            then s == [h[0]] + rest && Cut(s, left) == 1 + Cut(rest, left - NumSlots(h[0]))
            else s == rest
  {
    hide PriceHeap, PricePop, Popped, Cut;
    PoppedStep(h, all, local);
    CutStep(h[0], Popped(PricePop(h), all, local), left);
  }

  lemma PopEnd(h: seq<Tx>, all: set<Tx>, local: set<Address>, left: int)
    requires PriceHeap(h) && (|h| == 0 || left <= 0)
    ensures Cut(Popped(h, all, local), left) == 0
  {
    hide PriceHeap, PricePop;
  }

  // ----- Which entries repeat -----

  /** Every live remote transaction has at most one entry. */
  ghost predicate OneEntryEach(h: seq<Tx>, all: set<Tx>, local: set<Address>) {
    forall x :: x in all && Remote(x, local) ==> multiset(h)[x] <= 1
  }

  lemma PricePopBag(h: seq<Tx>)
    requires PriceHeap(h) && |h| > 0
    ensures multiset(PricePop(h)) == multiset(h) - multiset{h[0]} && h[0] in multiset(h)
  {
  }

  lemma {:induction false} PoppedEntries(h: seq<Tx>, all: set<Tx>, local: set<Address>, x: Tx)
    requires PriceHeap(h)
    ensures multiset(Popped(h, all, local))[x] == if x in all && Remote(x, local) then multiset(h)[x] else 0
    decreases |h|
  {
    hide PriceHeap, PricePop, Remote;
    if |h| > 0 {
      PoppedStep(h, all, local);
      PoppedEntries(PricePop(h), all, local, x);
      PricePopBag(h);
    }
  }

  lemma PoppedMembers(h: seq<Tx>, all: set<Tx>, local: set<Address>, x: Tx)
    requires PriceHeap(h)
    ensures x in Popped(h, all, local) <==> x in h && x in all && Remote(x, local)
  {
    hide PriceHeap, Popped, Remote;
    PoppedEntries(h, all, local, x);
    assert x in Popped(h, all, local) <==> x in multiset(Popped(h, all, local));
    assert x in h <==> x in multiset(h);
  }

  lemma RootFirst(h: seq<Tx>, x: Tx)
    requires PriceHeap(h) && x in h
    ensures |h| > 0 && !PriceLess(x, h[0])
  {
    var k :| 0 <= k < |h| && h[k] == x;
    Heap.RootIsLeast(PriceLess, h, k);
  }

  /** The heap yields its entries in order. */
  lemma {:induction false} PoppedInOrder(h: seq<Tx>, all: set<Tx>, local: set<Address>, i: nat, j: nat)
    requires PriceHeap(h) && i < j < |Popped(h, all, local)|
    ensures !PriceLess(Popped(h, all, local)[j], Popped(h, all, local)[i])
    decreases |h|
  {
    hide PriceHeap, PricePop, PriceLess, Remote, Popped;
    NonePopped(h, all, local);
    var s, rest := Popped(h, all, local), Popped(PricePop(h), all, local);
    PoppedStep(h, all, local);
    if !(h[0] in all && Remote(h[0], local)) {
      PoppedInOrder(PricePop(h), all, local, i, j);
    } else if i == 0 {
      PoppedMembers(h, all, local, s[j]);
      RootFirst(h, s[j]);
    } else {
      PoppedInOrder(PricePop(h), all, local, i - 1, j - 1);
    }
  }

  lemma NonePopped(h: seq<Tx>, all: set<Tx>, local: set<Address>)
    requires PriceHeap(h)
    ensures |h| == 0 ==> |Popped(h, all, local)| == 0
  {
    hide PriceHeap, PricePop;
  }

  /** Nothing that leaves is dearer than a remote transaction that stays. */
  lemma LeavingCheapest(h: seq<Tx>, all: set<Tx>, local: set<Address>, slots: int)
    requires PriceHeap(h)
    ensures var gone := Leaving(Popped(h, all, local), slots);
            && (forall d :: d in gone ==> d in h && d in all && Remote(d, local))
            && (forall d, k :: d in gone && k in h && k in all && Remote(k, local) && k !in gone ==> d.gasPrice <= k.gasPrice)
  {
    hide PriceHeap, Popped, Cut, Remote;
    var s := Popped(h, all, local);
    var c := Cut(s, slots);
    forall d | d in s[..c]
      ensures d in h && d in all && Remote(d, local)
    {
      PoppedMembers(h, all, local, d);
    }
    forall d, k | d in s[..c] && k in h && k in all && Remote(k, local) && k !in s[..c]
      ensures d.gasPrice <= k.gasPrice
    {
      PoppedMembers(h, all, local, k);
      var i :| 0 <= i < c && s[i] == d;
      var j :| 0 <= j < |s| && s[j] == k;
      assert j !in set n | 0 <= n < c && s[..c][n] == k;
      PoppedInOrder(h, all, local, i, j);
    }
  }

  /** No entry repeats exactly if every live remote transaction has one entry. */
  lemma DistinctEntries(h: seq<Tx>, all: set<Tx>, local: set<Address>)
    requires PriceHeap(h)
    ensures Distinct(Popped(h, all, local)) <==> OneEntryEach(h, all, local)
  {
    var s := Popped(h, all, local);
    CountedDistinct(s);
    forall x
      ensures multiset(s)[x] == if x in all && Remote(x, local) then multiset(h)[x] else 0
    {
      PoppedEntries(h, all, local, x);
    }
  }

  lemma ChargedDistinct(s: seq<Tx>)
    ensures (forall slots: int :: SlotSum(Leaving(s, slots)) == EntrySlots(s[..Cut(s, slots)])) <==> Distinct(s)
  {
    hide SlotSum, EntrySlots;
    if Distinct(s) {
      forall slots: int
        ensures SlotSum(Leaving(s, slots)) == EntrySlots(s[..Cut(s, slots)])
      {
        SlotsOfEntries(s[..Cut(s, slots)]);
      }
    } else {
      CutAt(s, |s|);
      assert s[..|s|] == s;
      SlotsOfEntries(s);
      assert SlotSum(Leaving(s, EntrySlots(s))) != EntrySlots(s[..Cut(s, EntrySlots(s))]);
    }
  }

  /** The slots that entries are charged for are the slots that become free, for every request,
      exactly if every live remote transaction has one entry. */
  lemma ChargedIsFreed(h: seq<Tx>, all: set<Tx>, local: set<Address>)
    requires PriceHeap(h)
    ensures var s := Popped(h, all, local);
            (forall slots: int :: SlotSum(Leaving(s, slots)) == EntrySlots(s[..Cut(s, slots)])) <==> OneEntryEach(h, all, local)
  {
    hide SlotSum, EntrySlots, PriceHeap, OneEntryEach, Popped;
    ChargedDistinct(Popped(h, all, local));
    DistinctEntries(h, all, local);
  }

  /** With one entry each, enough slots become free for every request. */
  lemma OneEntrySuffices(h: seq<Tx>, all: set<Tx>, local: set<Address>)
    requires PriceHeap(h) && OneEntryEach(h, all, local)
    ensures RepeatsLast(Popped(h, all, local))
  {
    DistinctEntries(h, all, local);
    var s := Popped(h, all, local);
    forall j | 0 <= j < |s|
      ensures s[j] !in s[..j]
    {
      MembersStep(s, j);
    }
  }

  /** The cheapest transaction comes up first, as often as it has entries. */
  lemma CheapestTwice(h: seq<Tx>, all: set<Tx>, x: Tx)
    requires PriceHeap(h) && multiset(h)[x] == 2 && x in all
    requires forall y :: y in h && y != x ==> x.gasPrice < y.gasPrice
    ensures var s := Popped(h, all, {}); |s| >= 2 && s[0] == x && s[1] == x
  {
    hide PriceHeap, Popped;
    var s := Popped(h, all, {});
    PoppedEntries(h, all, {}, x);
    var _, j := TwiceAt(s, x);
    forall i | 0 <= i < j
      ensures s[i] == x
    {
      PoppedInOrder(h, all, {}, i, j);
      PoppedMembers(h, all, {}, s[i]);
    }
  }

  /** The heap may give the transaction up. */
  ghost predicate Droppable(x: Tx, h: seq<Tx>, all: set<Tx>, local: set<Address>) {
    x in h && x in all && Remote(x, local)
  }

  /** Any two different live remote transactions of the heap are in a definite order. */
  ghost predicate Untied(h: seq<Tx>, all: set<Tx>, local: set<Address>) {
    forall x, y :: Droppable(x, h, all, local) && Droppable(y, h, all, local) && x != y ==> PriceLess(x, y) || PriceLess(y, x)
  }

  /** Only the transaction that comes up last, the dearest, may have a second entry. */
  ghost predicate OnlyLastDoubled(h: seq<Tx>, all: set<Tx>, local: set<Address>) {
    forall x, y :: Droppable(x, h, all, local) && Droppable(y, h, all, local) && x != y && multiset(h)[x] >= 2 ==> PriceLess(y, x)
  }

  lemma DoubledLast(h: seq<Tx>, all: set<Tx>, local: set<Address>)
    requires PriceHeap(h) && OnlyLastDoubled(h, all, local)
    ensures RepeatsLast(Popped(h, all, local))
  {
    hide PriceHeap, Popped, PriceLess;
    var s := Popped(h, all, local);
    forall j, y | 0 <= j < |s| && s[j] in s[..j] && y in s
      ensures y in s[..j]
    {
      var i :| 0 <= i < j && s[i] == s[j];
      RepeatCounts(s, i, j);
      PoppedEntries(h, all, local, s[j]);
      PoppedMembers(h, all, local, s[j]);
      PoppedMembers(h, all, local, y);
      var k :| 0 <= k < |s| && s[k] == y;
      if j < k {
        PoppedInOrder(h, all, local, j, k);
      }
      assert k < j ==> s[..j][k] == y;
    }
  }

  lemma LastDoubled(h: seq<Tx>, all: set<Tx>, local: set<Address>)
    requires PriceHeap(h) && Untied(h, all, local) && RepeatsLast(Popped(h, all, local))
    ensures OnlyLastDoubled(h, all, local)
  {
    hide PriceHeap, Popped, PriceLess;
    var s := Popped(h, all, local);
    forall x, y | Droppable(x, h, all, local) && Droppable(y, h, all, local) && x != y && multiset(h)[x] >= 2
      ensures PriceLess(y, x)
    {
      PoppedEntries(h, all, local, x);
      PoppedMembers(h, all, local, y);
      var i, j := TwiceAt(s, x);
      assert s[..j][i] == x;
      assert y in Members(s[..j]);
      var k :| 0 <= k < j && s[..j][k] == y;
      PoppedInOrder(h, all, local, k, j);
    }
  }

  /** Where no two transactions tie, enough slots become free for every request exactly if none but
      the dearest has a second entry. */
  lemma EnoughUntied(h: seq<Tx>, all: set<Tx>, local: set<Address>)
    requires PriceHeap(h) && Untied(h, all, local)
    ensures AlwaysEnough(Popped(h, all, local)) <==> OnlyLastDoubled(h, all, local)
  {
    hide PriceHeap, Popped, AlwaysEnough, RepeatsLast, Untied, OnlyLastDoubled;
    EnoughForAll(Popped(h, all, local));
    if OnlyLastDoubled(h, all, local) {
      DoubledLast(h, all, local);
    } else if RepeatsLast(Popped(h, all, local)) {
      LastDoubled(h, all, local);
    }
  }

  lemma AllTheSame(s: seq<Tx>, x: Tx)
    requires forall y :: y in s ==> y == x
    ensures RepeatsLast(s)
  {
    forall j, y | 0 <= j < |s| && s[j] in s[..j] && y in s
      ensures y in s[..j]
    {
      assert s[j] in s;
    }
  }

  /** A second entry is harmless when there is nothing else to drop. */
  lemma LoneDouble(x: Tx)
    ensures PriceHeap([x, x]) && !OneEntryEach([x, x], {x}, {}) && AlwaysEnough(Popped([x, x], {x}, {}))
  {
    hide Popped, AlwaysEnough;
    assert PriceHeap([x, x]);
    assert multiset([x, x])[x] == 2;
    hide PriceHeap;
    var s := Popped([x, x], {x}, {});
    forall y | y in s
      ensures y == x
    {
      PoppedMembers([x, x], {x}, {}, y);
    }
    AllTheSame(s, x);
    EnoughForAll(s);
  }

  class PricedList {
    const all: Lookup
    var items: seq<Tx>
    var stales: int

    ghost predicate Valid()
      reads this
    {
      PriceHeap(items)
    }

    /** Every pooled transaction except those in `dropped` has an entry in the heap. */
    ghost predicate Tracks(dropped: set<Tx>)
      reads this, all
    {
      forall tx :: tx in all.txs && tx !in dropped ==> tx in items
    }

    constructor (all: Lookup)
      ensures Valid() && this.all == all && items == [] && stales == 0
    {
      this.all := all;
      items, stales := [], 0;
    }

    method Put(tx: Tx)
      requires Valid()
      modifies this
      ensures Valid() && forall x :: x in items <==> x in old(items) || x == tx
      ensures multiset(items) == multiset(old(items)) + multiset{tx} && stales == old(stales)
    {
      items := PricePush(items, tx);
    }

    /** Counts stale entries and rebuilds the heap from the lookup once they are too many. */
    method Removed(count: nat)
      requires Valid()
      modifies this
      ensures Valid()
      ensures if old(stales) + count <= |old(items)| / 4 then items == old(items) && stales == old(stales) + count
              else (forall x :: x in items <==> x in all.txs) && Distinct(items) && stales == 0
    {
      stales := stales + count;
      if stales <= |items| / 4 {
        return;
      }
      var live := Enumerate(all.txs);
      RearrangedDistinct(live, PriceInit(live));
      stales, items := 0, PriceInit(live);
    }

    /** Takes every remote transaction below the threshold out of the heap. */
    method Cap(threshold: nat, local: set<Address>) returns (drop: seq<Tx>)
      requires Valid()
      modifies this
      ensures Valid()
      ensures forall x :: x in drop ==> x in all.txs && Remote(x, local) && x.gasPrice < threshold
      ensures forall x :: x in all.txs && x in old(items) ==> x in items || x in drop
      ensures forall x :: x in all.txs && x in old(items) && Remote(x, local) && x.gasPrice < threshold ==> x in drop
    {
      hide PriceHeap;
      drop := [];
      var save: seq<Tx> := [];
      while |items| > 0
        invariant Valid()
        invariant forall x :: x in drop ==> x in all.txs && Remote(x, local) && x.gasPrice < threshold
        invariant forall x :: x in all.txs && x in old(items) ==> x in items || x in drop || x in save
        invariant forall x :: x in save ==> !Remote(x, local)
        decreases |items|
      {
        CheapestFirst(items);
        var tx := items[0];
        items := PricePop(items);
        if tx !in all.txs {
          stales := stales - 1;
        } else if tx.gasPrice >= threshold {
          save := save + [tx];
          break;
        } else if tx.sender in local {
          save := save + [tx];
        } else {
          drop := drop + [tx];
        }
      }
      items := PricePushAll(items, save);
    }

    /** Underpriced means: remote, and no dearer than the cheapest transaction of the whole pool. */
    method Underpriced(tx: Tx, local: set<Address>) returns (yes: bool)
      requires Valid() && Tracks({})
      modifies this
      ensures Valid() && Tracks({})
      ensures all.txs != {} ==>
                (yes <==> Remote(tx, local) && forall x :: x in all.txs ==> tx.gasPrice <= x.gasPrice)
      ensures all.txs == {} ==> !yes
      ensures Popped(items, all.txs, local) == Popped(old(items), all.txs, local)
    {
      hide PriceHeap, PricePop, Popped;
      if tx.sender in local {
        return false;
      }
      while |items| > 0 && items[0] !in all.txs
        invariant Valid() && Tracks({})
        invariant Popped(items, all.txs, local) == Popped(old(items), all.txs, local)
        decreases |items|
      {
        PoppedStep(items, all.txs, local);
        stales := stales - 1;
        items := PricePop(items);
      }
      if |items| == 0 {
        return false;
      }
      CheapestFirst(items);
      assert items[0] in all.txs;
      yes := items[0].gasPrice >= tx.gasPrice;
    }

    /** Takes entries of remote transactions out of the heap, the cheapest first, until they pay for
        the slots. The capacity of the result is allocated up front, so it must not be negative. */
    method Discard(slots: int, local: set<Address>) returns (drop: seq<Tx>)
      requires Valid() && slots >= 0
      modifies this
      ensures Valid()
      ensures var s := Popped(old(items), all.txs, local); drop == s[..Cut(s, slots)]
      ensures forall x :: x in all.txs && x in old(items) ==> x in items || x in drop
    {
      hide PriceHeap, PricePop, PriceLess, Popped, Cut;
      drop := [];
      var save: seq<Tx> := [];
      var left := slots;
      ghost var s := Popped(items, all.txs, local);
      while |items| > 0 && left > 0
        invariant Valid() && s == drop + Popped(items, all.txs, local)
        invariant |drop| + Cut(Popped(items, all.txs, local), left) == Cut(s, slots)
        invariant forall x :: x in all.txs && x in old(items) ==> x in items || x in drop || x in save
        decreases |items|
      {
        PopStep(items, all.txs, local, left);
        var tx := items[0];
        items := PricePop(items);
        if tx !in all.txs {
          stales := stales - 1;
        } else if tx.sender in local {
          save := save + [tx];
        } else {
          drop := drop + [tx];
          left := left - NumSlots(tx);
        }
      }
      PopEnd(items, all.txs, local, left);
      items := PricePushAll(items, save);
    }
  }

  /** A transaction enters the lookup and the heap. */
  method Enter(priced: PricedList, tx: Tx)
    requires priced.Valid() && priced.all.Valid() && tx !in priced.all.txs
    modifies priced, priced.all
    ensures priced.Valid() && priced.all.Valid() && priced.stales == old(priced.stales)
    ensures priced.all.txs == old(priced.all.txs) + {tx} && multiset(priced.items) == multiset(old(priced.items)) + multiset{tx}
  {
    hide PriceHeap, SlotSum;
    priced.all.Add(tx);
    priced.Put(tx);
  }

  method EnterAll(txs: seq<Tx>) returns (priced: PricedList)
    requires Distinct(txs)
    ensures fresh(priced) && fresh(priced.all) && priced.Valid() && priced.all.Valid() && priced.stales == 0
    ensures multiset(priced.items) == multiset(txs) && priced.all.txs == Members(txs)
  {
    hide PriceHeap, SlotSum;
    var all := new Lookup();
    priced := new PricedList(all);
    for i := 0 to |txs|
      invariant fresh(priced) && priced.all == all && fresh(all) && priced.Valid() && all.Valid() && priced.stales == 0
      invariant multiset(priced.items) == multiset(txs[..i]) && all.txs == Members(txs[..i])
    {
      MembersStep(txs, i);
      assert txs[..i + 1] == txs[..i] + [txs[i]];
      Enter(priced, txs[i]);
    }
    assert txs[..|txs|] == txs;
  }

  /** A transaction that was removed and comes back before the heap is rebuilt has two entries. Here
      it pays for both of the slots that are asked for, and frees one, while dearer ones stay. */
  method DoubleEntryExample() returns (priced: PricedList, drop: seq<Tx>)
    ensures |drop| == 2 && SlotSum(Members(drop)) == 1
    ensures Members(drop) < priced.all.txs && forall x :: x in priced.all.txs ==> Remote(x, {})
  {
    hide PriceHeap, SlotSum, Popped, NumSlots, EntrySlots, Cut;
    var txs := [Priced(1), Priced(2), Priced(3), Priced(4)];
    priced := EnterAll(txs);
    var back := txs[0];
    MultiplicityOfDistinct(txs, back);
    assert |priced.items| == |multiset(priced.items)| == 4;
    priced.all.Remove(back);
    priced.Removed(1);
    Enter(priced, back);
    assert priced.all.txs == Members(txs);
    FourAndOne(priced.items, txs, back);
    CheapestTwice(priced.items, priced.all.txs, back);
    TwoSlots(Popped(priced.items, priced.all.txs, {}), back);
    drop := priced.Discard(2, {});
    assert txs[1] in Members(txs);
  }

  function Priced(price: nat): Tx {
    Tx(price, true, 0, price, 21000, 0, false, [], 100)
  }

  lemma FourAndOne(h: seq<Tx>, txs: seq<Tx>, x: Tx)
    requires multiset(h) == multiset(txs) + multiset{x} && x in txs
    ensures forall y :: y in h <==> y in txs
  {
    assert forall y :: y in h <==> y in multiset(h);
    assert forall y :: y in txs <==> y in multiset(txs);
  }

  lemma OneSlot()
    ensures NumSlots(Priced(1)) == 1 && SlotSum({Priced(1)}) == 1
  {
    var x := Priced(1);
    SlotSumWithout({x}, x);
    assert {x} - {x} == {};
  }

  lemma TwoSlots(s: seq<Tx>, x: Tx)
    requires |s| >= 2 && s[0] == x && s[1] == x && x == Priced(1)
    ensures Cut(s, 2) == 2 && s[..2] == [x, x] && Members([x, x]) == {x} && SlotSum({x}) == 1
  {
    hide SlotSum, NumSlots, Priced, Cut, EntrySlots;
    OneSlot();
    assert s[..0] == [] && s[..2] == [x, x];
    NoEntries();
    EntrySlotsStep(s, 0);
    EntrySlotsStep(s, 1);
    CutAt(s, 2);
  }
}
