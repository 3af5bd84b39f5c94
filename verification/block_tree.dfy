/** The tree of stored block headers: every header's parent is stored below it, down to the
    genesis block. */
module BlockTrees {

  /** Hashes identify headers; zero is what a missing index entry reads as. */
  type Hash = nat
  const ZERO: Hash := 0

  datatype Header = Header(parent: Hash, number: nat, difficulty: nat)

  type Headers = map<Hash, Header>

  ghost predicate Closed(s: Headers, genesis: Hash) {
    && ZERO !in s && genesis in s && s[genesis].number == 0 && s[genesis].parent == ZERO
    && forall h :: h in s && h != genesis ==>
         s[h].number > 0 && s[h].parent in s && s[s[h].parent].number == s[h].number - 1
  }

  /** The ancestor of `h` at number `n`: follow parent links until the number is right. */
  function Ancestor(s: Headers, ghost genesis: Hash, h: Hash, n: nat): (r: Hash)
    requires Closed(s, genesis) && h in s && n <= s[h].number
    ensures r in s && s[r].number == n
    decreases s[h].number
  {
    if s[h].number == n then h else Ancestor(s, genesis, s[h].parent, n)
  }

  /** An ancestor of an ancestor is an ancestor. */
  lemma {:induction false} AncestorTransitive(s: Headers, genesis: Hash, h: Hash, n: nat, m: nat)
    requires Closed(s, genesis) && h in s && m <= n <= s[h].number
    ensures Ancestor(s, genesis, Ancestor(s, genesis, h, n), m) == Ancestor(s, genesis, h, m)
    decreases s[h].number
  {
    if s[h].number != n {
      AncestorTransitive(s, genesis, s[h].parent, n, m);
    }
  }

  lemma ParentStored(s: Headers, genesis: Hash, h: Hash)
    requires Closed(s, genesis) && h in s
    ensures h != ZERO && ZERO !in s && genesis in s && s[genesis].number == 0
    ensures s[h].number > 0 ==> s[h].parent in s && s[s[h].parent].number == s[h].number - 1
    ensures s[h].number > 0 <==> h != genesis
  {
  }

  lemma AncestorSelf(s: Headers, genesis: Hash, h: Hash)
    requires Closed(s, genesis) && h in s
    ensures Ancestor(s, genesis, h, s[h].number) == h
  {
  }

  lemma AncestorParent(s: Headers, genesis: Hash, h: Hash, n: nat)
    requires Closed(s, genesis) && h in s && n < s[h].number
    ensures s[h].parent in s && n <= s[s[h].parent].number
    ensures Ancestor(s, genesis, h, n) == Ancestor(s, genesis, s[h].parent, n)
    ensures s[Ancestor(s, genesis, h, n + 1)].parent == Ancestor(s, genesis, h, n)
  {
    ParentStored(s, genesis, h);
    AncestorTransitive(s, genesis, h, n + 1, n);
  }

  lemma {:induction false} AncestorZero(s: Headers, genesis: Hash, h: Hash)
    requires Closed(s, genesis) && h in s
    ensures Ancestor(s, genesis, h, 0) == genesis
    decreases s[h].number
  {
    ParentStored(s, genesis, h);
    if s[h].number > 0 {
      AncestorZero(s, genesis, s[h].parent);
    }
  }

  /** Adding a header on top of a stored one keeps the tree closed and all ancestors as they were. */
  lemma GrowClosed(s: Headers, genesis: Hash, hash: Hash, header: Header)
    requires Closed(s, genesis) && hash != ZERO && header.parent in s && s[header.parent].number + 1 == header.number
    requires hash in s ==> s[hash] == header
    ensures Closed(s[hash := header], genesis)
  {
  }

  lemma {:induction false} GrowAncestor(s: Headers, s': Headers, genesis: Hash, h: Hash, n: nat)
    requires Closed(s, genesis) && Closed(s', genesis) && h in s && n <= s[h].number
    requires forall k :: k in s ==> k in s' && s'[k] == s[k]
    ensures Ancestor(s', genesis, h, n) == Ancestor(s, genesis, h, n)
    decreases s[h].number
  {
    if s[h].number != n {
      GrowAncestor(s, s', genesis, s[h].parent, n);
    }
  }

  /** The index holds exactly the ancestors of `head` on the numbers up to it. */
  ghost predicate IsPath(s: Headers, genesis: Hash, canon: map<nat, Hash>, head: Hash)
    requires Closed(s, genesis) && head in s
  {
    forall n: nat :: 0 <= n <= s[head].number ==> n in canon && canon[n] == Ancestor(s, genesis, head, n)
  }

  /** An index that follows `head` and agrees with `h` at number `n` agrees with it all the way down. */
  lemma PathBelow(s: Headers, genesis: Hash, canon: map<nat, Hash>, head: Hash, h: Hash, n: nat, m: nat)
    requires Closed(s, genesis) && head in s && h in s && IsPath(s, genesis, canon, head)
    requires m <= n <= s[h].number && n <= s[head].number && canon[n] == Ancestor(s, genesis, h, n)
    ensures canon[m] == Ancestor(s, genesis, h, m)
  {
    AncestorTransitive(s, genesis, head, n, m);
    AncestorTransitive(s, genesis, h, n, m);
    hide Closed, Ancestor;
  }

  /** Every total difficulty is that of the parent plus the header's own difficulty. */
  ghost predicate DifficultiesOk(s: Headers, genesis: Hash, td: map<Hash, nat>)
    requires Closed(s, genesis)
  {
    td.Keys == s.Keys && forall h :: h in s && h != genesis ==> td[h] == td[s[h].parent] + s[h].difficulty
  }

  lemma SameKeys(s: Headers, genesis: Hash, td: map<Hash, nat>)
    requires Closed(s, genesis) && DifficultiesOk(s, genesis, td)
    ensures td.Keys == s.Keys
  {
  }

  lemma GrowDifficulties(s: Headers, genesis: Hash, td: map<Hash, nat>, hash: Hash, header: Header)
    requires Closed(s, genesis) && DifficultiesOk(s, genesis, td) && hash != ZERO && (hash in s ==> s[hash] == header)
    requires header.parent in s && header.number == s[header.parent].number + 1
    ensures Closed(s[hash := header], genesis)
    ensures DifficultiesOk(s[hash := header], genesis, td[hash := td[header.parent] + header.difficulty])
    ensures hash in td ==> td[hash] == td[header.parent] + header.difficulty
  {
    GrowClosed(s, genesis, hash, header);
  }

  // ----- The canonical index -----

  function ReadCanonicalHash(canon: map<nat, Hash>, n: nat): Hash {
    if n in canon then canon[n] else ZERO
  }

  ghost function EntriesFrom(canon: map<nat, Hash>, i: nat): set<nat> { set n | n in canon && i <= n }

  /** The index entries above `number` up to the first gap. */
  method EntriesAbove(canon: map<nat, Hash>, number: nat) returns (run: set<nat>, ghost end: nat)
    requires forall n: nat :: n in canon ==> canon[n] != ZERO
    ensures number < end && end !in canon && forall n: nat :: n in run <==> number < n < end
    ensures forall n: nat :: n in run ==> number < n && n in canon
  {
    run := {};
    var i := number + 1;
    while ReadCanonicalHash(canon, i) != ZERO
      invariant number < i && forall n: nat :: n in run <==> number < n < i
      invariant forall n: nat :: n in run ==> n in canon
      decreases EntriesFrom(canon, i)
    {
      assert i in EntriesFrom(canon, i) && i !in EntriesFrom(canon, i + 1);
      run, i := run + {i}, i + 1;
    }
    end := i;
  }

  // ----- Two branches and their common ancestor -----

  /** `chain` is `h` and its ancestors, downwards, as far as number `n` exclusive. */
  ghost predicate IsBranch(s: Headers, genesis: Hash, chain: seq<Hash>, h: Hash, n: nat)
    requires Closed(s, genesis) && h in s
  {
    && n <= s[h].number && |chain| == s[h].number - n
    && forall i :: 0 <= i < |chain| ==> chain[i] == Ancestor(s, genesis, h, s[h].number - i)
  }

  /** Number `n` is where the two branches meet, and they differ wherever both are above it. */
  ghost predicate IsFork(s: Headers, genesis: Hash, a: Hash, b: Hash, n: nat)
    requires Closed(s, genesis) && a in s && b in s
  {
    && n <= s[a].number && n <= s[b].number && Ancestor(s, genesis, a, n) == Ancestor(s, genesis, b, n)
    && AgreeAtMost(s, genesis, a, b, n)
  }

  /** Above number `n` the two branches nowhere agree. */
  ghost predicate AgreeAtMost(s: Headers, genesis: Hash, a: Hash, b: Hash, n: nat)
    requires Closed(s, genesis) && a in s && b in s
  {
    forall m: nat :: n < m <= s[a].number && m <= s[b].number ==> Ancestor(s, genesis, a, m) != Ancestor(s, genesis, b, m)
  }

  lemma ForkAbove(s: Headers, genesis: Hash, a: Hash, b: Hash, n: nat)
    requires Closed(s, genesis) && a in s && b in s && s[a].number > s[b].number
    requires s[a].parent in s && IsFork(s, genesis, s[a].parent, b, n)
    ensures IsFork(s, genesis, a, b, n) && IsFork(s, genesis, b, a, n)
  {
    ParentStored(s, genesis, a);
    hide Closed, Ancestor;
    forall m: nat | m <= s[b].number ensures Ancestor(s, genesis, a, m) == Ancestor(s, genesis, s[a].parent, m) {
      AncestorParent(s, genesis, a, m);
    }
  }

  lemma ForkBothAbove(s: Headers, genesis: Hash, a: Hash, b: Hash, n: nat)
    requires Closed(s, genesis) && a in s && b in s && s[a].number == s[b].number > 0 && a != b
    requires s[a].parent in s && s[b].parent in s && IsFork(s, genesis, s[a].parent, s[b].parent, n)
    ensures IsFork(s, genesis, a, b, n)
  {
    ParentStored(s, genesis, a);
    ParentStored(s, genesis, b);
    hide Closed, Ancestor;
    AncestorSelf(s, genesis, a);
    AncestorSelf(s, genesis, b);
    forall m: nat | m < s[a].number
      ensures Ancestor(s, genesis, a, m) == Ancestor(s, genesis, s[a].parent, m)
      ensures Ancestor(s, genesis, b, m) == Ancestor(s, genesis, s[b].parent, m)
    {
      AncestorParent(s, genesis, a, m);
      AncestorParent(s, genesis, b, m);
    }
  }

  lemma ForkSwaps(s: Headers, genesis: Hash, a: Hash, b: Hash, n: nat)
    requires Closed(s, genesis) && a in s && b in s && IsFork(s, genesis, a, b, n)
    ensures IsFork(s, genesis, b, a, n)
  {
  }

  /** The number at which two branches meet. */
  ghost function ForkNumber(s: Headers, genesis: Hash, a: Hash, b: Hash): (n: nat)
    requires Closed(s, genesis) && a in s && b in s
    ensures IsFork(s, genesis, a, b, n)
    decreases s[a].number + s[b].number
  {
    ParentStored(s, genesis, a);
    ParentStored(s, genesis, b);
    if a == b then s[a].number
    else if s[a].number > s[b].number then
      var n := ForkNumber(s, genesis, s[a].parent, b);
      ForkAbove(s, genesis, a, b, n);
      n
    else if s[a].number < s[b].number then
      var n := ForkNumber(s, genesis, a, s[b].parent);
      ForkSwaps(s, genesis, a, s[b].parent, n);
      ForkAbove(s, genesis, b, a, n);
      n
    else
      var n := ForkNumber(s, genesis, s[a].parent, s[b].parent);
      ForkBothAbove(s, genesis, a, b, n);
      n
  }

  lemma ForkUnique(s: Headers, genesis: Hash, a: Hash, b: Hash, n: nat)
    requires Closed(s, genesis) && a in s && b in s && IsFork(s, genesis, a, b, n)
    ensures ForkNumber(s, genesis, a, b) == n
  {
    hide Closed, Ancestor, ForkNumber;
  }

  /** Up to the fork the branches are the same, above it nowhere. */
  lemma SameBelowFork(s: Headers, genesis: Hash, a: Hash, b: Hash, n: nat, k: nat)
    requires Closed(s, genesis) && a in s && b in s && IsFork(s, genesis, a, b, n) && k <= s[a].number && k <= s[b].number
    ensures Ancestor(s, genesis, a, k) == Ancestor(s, genesis, b, k) <==> k <= n
  {
    hide Closed, Ancestor;
    if k <= n {
      AncestorTransitive(s, genesis, a, n, k);
      AncestorTransitive(s, genesis, b, n, k);
    }
  }

  lemma BranchLength(s: Headers, genesis: Hash, chain: seq<Hash>, h: Hash, n: nat)
    requires Closed(s, genesis) && h in s && IsBranch(s, genesis, chain, h, n)
    ensures n + |chain| == s[h].number
  {
  }

  lemma ForkBelow(s: Headers, genesis: Hash, a: Hash, b: Hash, n: nat)
    requires Closed(s, genesis) && a in s && b in s && IsFork(s, genesis, a, b, n)
    ensures n <= s[a].number && n <= s[b].number && Ancestor(s, genesis, a, n) == Ancestor(s, genesis, b, n)
  {
  }

  lemma GrowFork(s: Headers, s': Headers, genesis: Hash, a: Hash, b: Hash, n: nat)
    requires Closed(s, genesis) && Closed(s', genesis) && a in s && b in s && IsFork(s, genesis, a, b, n)
    requires forall h :: h in s ==> h in s' && s'[h] == s[h]
    ensures IsFork(s', genesis, a, b, n)
  {
    hide Closed, Ancestor;
    forall m: nat | m <= s[a].number ensures Ancestor(s', genesis, a, m) == Ancestor(s, genesis, a, m) {
      GrowAncestor(s, s', genesis, a, m);
    }
    forall m: nat | m <= s[b].number ensures Ancestor(s', genesis, b, m) == Ancestor(s, genesis, b, m) {
      GrowAncestor(s, s', genesis, b, m);
    }
  }

  // ----- Transactions along a branch -----

  type TxId = nat
  type Bodies = map<Hash, seq<TxId>>

  /** The ancestor of `h` at number `n` holds `tx`. */
  ghost predicate HeldAt(s: Headers, genesis: Hash, bodies: Bodies, h: Hash, tx: TxId, n: int)
    requires Closed(s, genesis) && h in s && bodies.Keys == s.Keys
  {
    0 <= n <= s[h].number && tx in bodies[Ancestor(s, genesis, h, n)]
  }

  /** Some ancestor of `h` with a number above `lo` and up to `hi` holds `tx`. */
  ghost predicate InBranch(s: Headers, genesis: Hash, bodies: Bodies, h: Hash, lo: int, hi: int, tx: TxId)
    requires Closed(s, genesis) && h in s && bodies.Keys == s.Keys
  {
    exists n :: lo < n <= hi && HeldAt(s, genesis, bodies, h, tx, n)
  }

  lemma InBranchStep(s: Headers, genesis: Hash, bodies: Bodies, h: Hash, lo: int, n: int, tx: TxId)
    requires Closed(s, genesis) && h in s && bodies.Keys == s.Keys && lo < n
    ensures InBranch(s, genesis, bodies, h, lo, n, tx) <==>
              InBranch(s, genesis, bodies, h, lo, n - 1, tx) || HeldAt(s, genesis, bodies, h, tx, n)
  {
    hide Closed, Ancestor, HeldAt;
    if InBranch(s, genesis, bodies, h, lo, n, tx) {
      var k :| lo < k <= n && HeldAt(s, genesis, bodies, h, tx, k);
      assert k == n || k <= n - 1;
    }
  }

  /** No transaction occurs in two blocks on the way from `h` to the genesis block. */
  ghost predicate NoRepeats(s: Headers, genesis: Hash, bodies: Bodies, h: Hash)
    requires Closed(s, genesis) && h in s && bodies.Keys == s.Keys
  {
    forall tx, n, m :: HeldAt(s, genesis, bodies, h, tx, n) && HeldAt(s, genesis, bodies, h, tx, m) ==> n == m
  }

  /** Below the fork both branches hold the same transactions. */
  lemma HeldBelowFork(s: Headers, genesis: Hash, bodies: Bodies, a: Hash, b: Hash, fork: nat, tx: TxId, n: int)
    requires Closed(s, genesis) && a in s && b in s && bodies.Keys == s.Keys
    requires IsFork(s, genesis, a, b, fork) && n <= fork
    ensures HeldAt(s, genesis, bodies, a, tx, n) <==> HeldAt(s, genesis, bodies, b, tx, n)
  {
    hide Closed, Ancestor;
    if 0 <= n {
      AncestorTransitive(s, genesis, a, fork, n);
      AncestorTransitive(s, genesis, b, fork, n);
    }
  }

  // ----- Growing stores -----

  /** All that is stored stays stored. */
  ghost predicate Extends(s: Headers, bodies: Bodies, s': Headers, bodies': Bodies) {
    && (forall h :: h in s ==> h in s' && s'[h] == s[h])
    && (forall h :: h in bodies ==> h in bodies' && bodies'[h] == bodies[h])
  }

  lemma ExtendsTransitive(s: Headers, b: Bodies, s': Headers, b': Bodies, s'': Headers, b'': Bodies)
    requires Extends(s, b, s', b') && Extends(s', b', s'', b'')
    ensures Extends(s, b, s'', b'')
  {
  }

  lemma GrowHeld(s: Headers, bodies: Bodies, s': Headers, bodies': Bodies, genesis: Hash, h: Hash)
    requires Closed(s, genesis) && Closed(s', genesis) && bodies.Keys == s.Keys && bodies'.Keys == s'.Keys
    requires Extends(s, bodies, s', bodies') && h in s
    ensures forall tx, n :: HeldAt(s, genesis, bodies, h, tx, n) <==> HeldAt(s', genesis, bodies', h, tx, n)
    ensures NoRepeats(s, genesis, bodies, h) <==> NoRepeats(s', genesis, bodies', h)
  {
    hide Closed, Ancestor;
    forall m: nat | m <= s[h].number ensures Ancestor(s', genesis, h, m) == Ancestor(s, genesis, h, m) {
      GrowAncestor(s, s', genesis, h, m);
    }
    assert forall tx, n :: HeldAt(s, genesis, bodies, h, tx, n) <==> HeldAt(s', genesis, bodies', h, tx, n);
  }
}
