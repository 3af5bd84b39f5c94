/** Transactions as the pool sees them, and the meaning of one account's list of
    transactions: a finite map from nonce to transaction. */
module Transactions {
  import opened Collections

  type Address = nat
  type Byte = b: nat | b < 256
  type Size = n: nat | n > 0 witness 1

  function Min(a: nat, b: nat): nat {
    if a <= b then a else b
  }

  /** Two transactions have the same hash exactly when they are equal; `sender` is what
      signature recovery yields when `signed` holds. */
  datatype Tx = Tx(sender: Address, signed: bool, nonce: nat, gasPrice: nat, gas: nat, value: int,
                   creation: bool, data: seq<Byte>, size: Size)
  {
    function Cost(): int { value + gasPrice * gas }
  }

  const TX_SLOT_SIZE: nat := 32 * 1024
  const TX_MAX_SIZE: nat := 4 * TX_SLOT_SIZE

  function NumSlots(tx: Tx): (n: nat)
    ensures n >= 1
    ensures TX_SLOT_SIZE * (n - 1) < tx.size <= TX_SLOT_SIZE * n
  {
    (tx.size + TX_SLOT_SIZE - 1) / TX_SLOT_SIZE
  }

  type NonceMap = map<nat, Tx>

  ghost predicate Keyed(m: NonceMap) {
    forall n :: n in m ==> m[n].nonce == n
  }

  /** No nonce is missing between two nonces of the list. */
  ghost predicate GapFree(m: NonceMap) {
    forall i, j, k :: i in m && j in m && i <= k <= j ==> k in m
  }

  predicate Payable(tx: Tx, costLimit: int, gasLimit: nat) {
    tx.Cost() <= costLimit && tx.gas <= gasLimit
  }

  /** `tx` may take the place of `prior`: dearer, and by the configured percentage. */
  predicate Outbids(tx: Tx, prior: Tx, priceBump: nat) {
    prior.gasPrice < tx.gasPrice && prior.gasPrice * (100 + priceBump) / 100 <= tx.gasPrice
  }

  // ----- What the list operations keep and drop -----

  function Where(m: NonceMap, p: Tx -> bool): NonceMap {
    map n | n in m && p(m[n]) :: m[n]
  }

  function WhereNot(m: NonceMap, p: Tx -> bool): NonceMap {
    map n | n in m && !p(m[n]) :: m[n]
  }

  function From(m: NonceMap, threshold: nat): NonceMap {
    map n | n in m && n >= threshold :: m[n]
  }

  function Below(m: NonceMap, threshold: nat): NonceMap {
    map n | n in m && n < threshold :: m[n]
  }

  function After(m: NonceMap, nonce: nat): NonceMap {
    map n | n in m && n > nonce :: m[n]
  }

  function AllPayable(m: NonceMap, costLimit: int, gasLimit: nat): NonceMap {
    map n | n in m && Payable(m[n], costLimit, gasLimit) :: m[n]
  }

  function Unpayable(m: NonceMap, costLimit: int, gasLimit: nat): NonceMap {
    map n | n in m && !Payable(m[n], costLimit, gasLimit) :: m[n]
  }

  /** The transactions before the first one that cannot be paid. */
  function PayablePrefix(m: NonceMap, costLimit: int, gasLimit: nat): NonceMap {
    map n | n in m && (forall k :: k in m && k <= n ==> Payable(m[k], costLimit, gasLimit)) :: m[n]
  }

  /** Payable, but behind one that is not. */
  function Stranded(m: NonceMap, costLimit: int, gasLimit: nat): NonceMap {
    map n | n in m && Payable(m[n], costLimit, gasLimit) && n !in PayablePrefix(m, costLimit, gasLimit) :: m[n]
  }

  /** The number of nonces of `m` below `n`. */
  function Rank(m: NonceMap, n: nat): nat {
    |NoncesBelow(m, n)|
  }

  function NoncesBelow(m: NonceMap, n: nat): set<nat> {
    set j | j in m && j < n
  }

  function Lowest(m: NonceMap, count: nat): NonceMap {
    map n | n in m && Rank(m, n) < count :: m[n]
  }

  function Beyond(m: NonceMap, count: nat): NonceMap {
    map n | n in m && Rank(m, n) >= count :: m[n]
  }

  /** There is no gap in `m` between its first nonce and `n`. */
  predicate UnbrokenTo(m: NonceMap, n: nat) {
    forall j, k: nat :: j in m && j <= k <= n ==> k in m
  }

  /** The leading run of consecutive nonces, provided it starts no later than `start`. */
  function ReadyRun(m: NonceMap, start: nat): NonceMap {
    if exists j :: j in m && j <= start
    then map n | n in m && UnbrokenTo(m, n) :: m[n]
    else map[]
  }

  function NotReady(m: NonceMap, start: nat): NonceMap {
    map n | n in m && n !in ReadyRun(m, start) :: m[n]
  }

  // ----- Listings of a nonce map -----

  /** Every element of `s` is a transaction of `m`. */
  ghost predicate Drawn(s: seq<Tx>, m: NonceMap) {
    forall i :: 0 <= i < |s| ==> s[i].nonce in m && m[s[i].nonce] == s[i]
  }

  /** `s` lists exactly the transactions of `m`, once each. */
  ghost predicate Lists(s: seq<Tx>, m: NonceMap) {
    && Drawn(s, m)
    && (forall n :: n in m ==> m[n] in s)
    && (forall i, j :: 0 <= i < j < |s| ==> s[i].nonce != s[j].nonce)
  }

  /** `s` lists the transactions of `m` by increasing nonce. */
  ghost predicate IsFlat(s: seq<Tx>, m: NonceMap) {
    && Drawn(s, m)
    && (forall n :: n in m ==> m[n] in s)
    && (forall i, j :: 0 <= i < j < |s| ==> s[i].nonce < s[j].nonce)
  }

  lemma ListsTail(s: seq<Tx>, m: NonceMap)
    requires Keyed(m) && Lists(s, m) && |s| > 0
    ensures Lists(s[1..], m - {s[0].nonce})
  {
    var r := m - {s[0].nonce};
    forall n | n in r ensures r[n] in s[1..] {
      var i :| 0 <= i < |s| && s[i] == m[n];
      assert s[1..][i - 1] == m[n];
    }
  }

  lemma {:induction false} ListsLength(s: seq<Tx>, m: NonceMap)
    requires Keyed(m) && Lists(s, m)
    ensures |s| == |m|
  {
    if s == [] {
      assert m.Keys == {};
    } else {
      ListsTail(s, m);
      ListsLength(s[1..], m - {s[0].nonce});
      assert (m - {s[0].nonce}).Keys == m.Keys - {s[0].nonce};
    }
  }

  lemma FlatTail(s: seq<Tx>, m: NonceMap)
    requires Keyed(m) && IsFlat(s, m) && |s| > 0
    ensures IsFlat(s[1..], m - {s[0].nonce})
  {
    ListsTail(s, m);
  }

  lemma FlatFirst(s: seq<Tx>, m: NonceMap, n: nat)
    requires Keyed(m) && IsFlat(s, m) && n in m
    ensures |s| > 0 && s[0].nonce <= n
  {
    var i :| 0 <= i < |s| && s[i] == m[n];
    assert s[i].nonce <= m[n].nonce;
  }

  lemma SameFirst(s: seq<Tx>, t: seq<Tx>, m: NonceMap)
    requires Keyed(m) && IsFlat(s, m) && IsFlat(t, m) && |s| > 0
    ensures |t| > 0 && s[0] == t[0]
  {
    FlatFirst(t, m, s[0].nonce);
    FlatFirst(s, m, t[0].nonce);
  }

  /** A nonce-sorted listing is unique. */
  lemma {:induction false} FlatUnique(s: seq<Tx>, t: seq<Tx>, m: NonceMap)
    requires Keyed(m) && IsFlat(s, m) && IsFlat(t, m)
    ensures s == t
  {
    hide IsFlat;
    if |s| > 0 {
      SameFirst(s, t, m);
      FlatTail(s, m);
      FlatTail(t, m);
      FlatUnique(s[1..], t[1..], m - {s[0].nonce});
      assert s == [s[0]] + s[1..] && t == [t[0]] + t[1..];
    } else if |t| > 0 {
      SameFirst(t, s, m);
    }
  }

  /** Two lists, all of whose nonces are below those of the other, flatten one after the other. */
  lemma FlatConcat(s: seq<Tx>, a: NonceMap, t: seq<Tx>, b: NonceMap)
    requires IsFlat(s, a) && IsFlat(t, b)
    requires forall i, j :: i in a && j in b ==> i < j
    ensures IsFlat(s + t, a + b)
  {
    var c := a + b;
    forall n | n in c ensures c[n] in s + t {
      if n in b { assert b[n] in t; } else { assert a[n] in s; }
    }
  }

  // ----- Sorting, and the existence of a nonce-sorted listing -----

  function SortBy<T(!new)>(key: T -> int, s: seq<T>): (r: seq<T>)
    ensures multiset(r) == multiset(s)
    ensures forall i, j :: 0 <= i < j < |r| ==> key(r[i]) <= key(r[j])
  {
    if s == [] then [] else
      assert s == [s[0]] + s[1..];
      InsertBy(key, s[0], SortBy(key, s[1..]))
  }

  function InsertBy<T(!new)>(key: T -> int, x: T, s: seq<T>): (r: seq<T>)
    requires forall i, j :: 0 <= i < j < |s| ==> key(s[i]) <= key(s[j])
    ensures multiset(r) == multiset(s) + multiset{x}
    ensures forall i, j :: 0 <= i < j < |r| ==> key(r[i]) <= key(r[j])
  {
    var p := Position(key, x, s);
    InsertMultiset(s, p, x);
    s[..p] + [x] + s[p..]
  }

  lemma InsertMultiset<T>(s: seq<T>, p: nat, x: T)
    requires p <= |s|
    ensures multiset(s[..p] + [x] + s[p..]) == multiset(s) + multiset{x}
  {
    assert s == s[..p] + s[p..];
  }

  function Position<T>(key: T -> int, x: T, s: seq<T>): (p: nat)
    ensures p <= |s| && (forall i :: 0 <= i < p ==> key(s[i]) < key(x)) && (p < |s| ==> key(x) <= key(s[p]))
  {
    if s == [] || key(x) <= key(s[0]) then 0 else Position(key, x, s[1..]) + 1
  }

  function SortTxs(s: seq<Tx>, ghost m: NonceMap): (r: seq<Tx>)
    requires Lists(s, m)
    ensures IsFlat(r, m)
  {
    var r := SortBy((tx: Tx) => tx.nonce, s);
    SortedLists(s, r, m);
    r
  }

  lemma SortedLists(s: seq<Tx>, r: seq<Tx>, m: NonceMap)
    requires Lists(s, m) && multiset(r) == multiset(s)
    requires forall i, j :: 0 <= i < j < |r| ==> r[i].nonce <= r[j].nonce
    ensures IsFlat(r, m)
  {
    assert Distinct(s);
    RearrangedDistinct(s, r);
    forall i | 0 <= i < |r| ensures r[i].nonce in m && m[r[i].nonce] == r[i] {
      assert r[i] in multiset(s);
    }
    forall n | n in m ensures m[n] in r {
      assert m[n] in multiset(s);
    }
  }

  /** The transactions of a list in the order in which a map iteration happens to yield them. */
  method Iterate(m: NonceMap) returns (s: seq<Tx>)
    requires Keyed(m)
    ensures Lists(s, m)
  {
    s := [];
    var rest := m;
    while rest != map[]
      invariant (forall n :: n in rest ==> n in m && rest[n] == m[n]) && Lists(s, m - rest.Keys)
      decreases |rest|
    {
      var n :| n in rest;
      ListsMore(s, m - rest.Keys, m[n]);
      assert (m - rest.Keys)[n := m[n]] == m - (rest - {n}).Keys;
      assert (rest - {n}).Keys == rest.Keys - {n};
      s, rest := s + [m[n]], rest - {n};
    }
    assert m - rest.Keys == m;
  }

  lemma ListsMore(s: seq<Tx>, m: NonceMap, tx: Tx)
    requires Lists(s, m) && tx.nonce !in m
    ensures Lists(s + [tx], m[tx.nonce := tx])
  {
    var r := m[tx.nonce := tx];
    forall n | n in r ensures r[n] in s + [tx] {
      if n != tx.nonce { assert m[n] in s; } else { assert (s + [tx])[|s|] == tx; }
    }
  }

  lemma {:induction false} ListingExists(m: NonceMap) returns (s: seq<Tx>)
    requires Keyed(m)
    ensures Lists(s, m)
  {
    if m == map[] {
      s := [];
    } else {
      var n :| n in m;
      assert (m - {n}).Keys == m.Keys - {n};
      var t := ListingExists(m - {n});
      ListsMore(t, m - {n}, m[n]);
      s := t + [m[n]];
      assert (m - {n})[n := m[n]] == m;
    }
  }

  /** The listing of a list splits where the list does. */
  lemma FlatSplit(c: seq<Tx>, a: NonceMap, b: NonceMap) returns (s: seq<Tx>, t: seq<Tx>)
    requires Keyed(a) && Keyed(b) && IsFlat(c, a + b)
    requires forall i, j :: i in a && j in b ==> i < j
    ensures IsFlat(s, a) && IsFlat(t, b) && c == s + t
  {
    s := ListingExists(a);
    s := SortTxs(s, a);
    t := ListingExists(b);
    t := SortTxs(t, b);
    FlatConcat(s, a, t, b);
    FlatUnique(c, s + t, a + b);
  }

  // ----- Ranks, and what a cap keeps -----

  lemma RankBelowSize(m: NonceMap, n: nat)
    requires n in m
    ensures Rank(m, n) < |m|
  {
    var below := NoncesBelow(m, n);
    assert below < m.Keys;
    StrictSubset(below, m.Keys);
  }

  lemma StrictSubset<T>(a: set<T>, b: set<T>)
    requires a < b
    ensures |a| < |b|
  {
    assert b == a + (b - a);
    assert |b| == |a| + |b - a|;
  }

  lemma LowestOfAll(m: NonceMap, count: nat)
    ensures |m| <= count ==> Lowest(m, count) == m && Lists([], Beyond(m, count))
  {
    forall n | n in m ensures Rank(m, n) < |m| { RankBelowSize(m, n); }
    if |m| <= count {
      assert Lowest(m, count) == m;
    }
  }

  lemma RankMonotone(m: NonceMap, i: nat, j: nat)
    requires i in m && i < j
    ensures Rank(m, i) < Rank(m, j)
  {
    var a, b := NoncesBelow(m, i), NoncesBelow(m, j);
    assert i in b && i !in a && a <= b;
    StrictSubset(a, b);
  }

  /** Without its last nonce a list has the same ranks. */
  lemma RankOfLast(m: NonceMap, last: nat)
    requires last in m && forall k :: k in m ==> k <= last
    ensures Rank(m, last) == |m| - 1
    ensures forall k :: k in m && k != last ==> Rank(m - {last}, k) == Rank(m, k) < |m| - 1
  {
    assert NoncesBelow(m, last) == m.Keys - {last};
    forall k | k in m && k != last ensures Rank(m - {last}, k) == Rank(m, k) < |m| - 1 {
      assert NoncesBelow(m - {last}, k) == NoncesBelow(m, k);
      RankMonotone(m, k, last);
    }
  }

  lemma {:induction false} GreatestNonce(m: NonceMap) returns (last: nat)
    requires m != map[]
    ensures last in m && forall k :: k in m ==> k <= last
  {
    var n :| n in m;
    var rest := m - {n};
    assert forall k :: k in m ==> k == n || k in rest;
    last := n;
    if rest != map[] {
      assert rest.Keys == m.Keys - {n};
      var other := GreatestNonce(rest);
      if other > n { last := other; }
    }
  }

  /** Capping a list by one drops its last nonce. */
  lemma CapByOne(m: NonceMap, last: nat)
    requires last in m && forall k :: k in m ==> k <= last
    ensures Lowest(m, |m| - 1) == m - {last} && Beyond(m, |m| - 1) == map[last := m[last]]
  {
    RankOfLast(m, last);
  }

  lemma {:induction false} LowestSize(m: NonceMap, count: nat)
    ensures |Lowest(m, count)| == if |m| <= count then |m| else count
    decreases |m|
  {
    LowestOfAll(m, count);
    if |m| > count {
      var last := GreatestNonce(m);
      RankOfLast(m, last);
      var rest := m - {last};
      assert rest.Keys == m.Keys - {last};
      LowestSize(rest, count);
      assert Lowest(m, count) == Lowest(rest, count);
    }
  }

  lemma SizeWithout(m: NonceMap, n: nat)
    requires n in m
    ensures |m - {n}| == |m| - 1
    ensures |m| >= 2 ==> m - {n} != map[]
  {
    assert (m - {n}).Keys == m.Keys - {n};
  }
}
