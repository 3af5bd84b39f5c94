/** The block chain: fork choice by total difficulty, reorganisation of the canonical index, and
    the lookup table from transactions to the canonical blocks that hold them. */
module BlockChains {
  import opened BlockTrees

  datatype BlockStatus = Canonical | Side | UnknownAncestor | ReorgFailed

  // ----- Walking back to the common ancestor -----

  datatype Walk = Walk(oldChain: seq<Hash>, newChain: seq<Hash>) | InvalidOldChain | InvalidNewChain

  /** Blocks in `lost` cannot be read back from the database. */
  predicate HasBlock(s: Headers, lost: set<Hash>, h: Hash, n: int) {
    h in s && h !in lost && s[h].number == n
  }

  /** The walk needs the ancestor of `h` at number `n`, which is strictly below it and not below the fork,
      and cannot read it. */
  ghost predicate LostAt(s: Headers, lost: set<Hash>, genesis: Hash, h: Hash, fork: nat, n: nat)
    requires Closed(s, genesis) && h in s
  {
    fork <= n < s[h].number && Ancestor(s, genesis, h, n) in lost
  }

  /** All ancestors of `h` from number `n` on, strictly below it, can be read. */
  ghost predicate ReadDownTo(s: Headers, lost: set<Hash>, genesis: Hash, h: Hash, n: nat)
    requires Closed(s, genesis) && h in s
  {
    forall k: nat :: !LostAt(s, lost, genesis, h, n, k)
  }

  lemma ReadNothing(s: Headers, lost: set<Hash>, genesis: Hash, h: Hash)
    requires Closed(s, genesis) && h in s
    ensures ReadDownTo(s, lost, genesis, h, s[h].number)
  {
    hide Closed, Ancestor;
  }

  lemma ReadNext(s: Headers, lost: set<Hash>, genesis: Hash, h: Hash, n: nat)
    requires Closed(s, genesis) && h in s && n < s[h].number && ReadDownTo(s, lost, genesis, h, n + 1)
    ensures ReadDownTo(s, lost, genesis, h, n) <==> Ancestor(s, genesis, h, n) !in lost
    ensures forall fork: nat, k: nat :: LostAt(s, lost, genesis, h, fork, k) ==> k <= n
    ensures Ancestor(s, genesis, h, n) !in lost ==> forall fork: nat, k: nat :: LostAt(s, lost, genesis, h, fork, k) ==> k < n
  {
    hide Closed, Ancestor;
    forall fork: nat, k: nat | LostAt(s, lost, genesis, h, fork, k)
      ensures k <= n
    {
      assert !LostAt(s, lost, genesis, h, n + 1, k);
    }
    if Ancestor(s, genesis, h, n) in lost {
      assert LostAt(s, lost, genesis, h, n, n);
    }
  }

  /** The walk fails on the old branch: of the blocks that it needs and cannot read, the highest one is
      there, or one as high. */
  ghost predicate OldFails(s: Headers, lost: set<Hash>, genesis: Hash, oldBlock: Hash, newBlock: Hash, fork: nat)
    requires Closed(s, genesis) && oldBlock in s && newBlock in s
  {
    exists n: nat :: LostAt(s, lost, genesis, oldBlock, fork, n) &&
      forall m: nat :: LostAt(s, lost, genesis, newBlock, fork, m) ==> m <= n
  }

  /** The walk fails on the new branch: the highest one is there. */
  ghost predicate NewFails(s: Headers, lost: set<Hash>, genesis: Hash, oldBlock: Hash, newBlock: Hash, fork: nat)
    requires Closed(s, genesis) && oldBlock in s && newBlock in s
  {
    exists m: nat :: LostAt(s, lost, genesis, newBlock, fork, m) &&
      forall n: nat :: LostAt(s, lost, genesis, oldBlock, fork, n) ==> n < m
  }

  /** Everything that the walk needs can be read. */
  ghost predicate NoneLost(s: Headers, lost: set<Hash>, genesis: Hash, oldBlock: Hash, newBlock: Hash)
    requires Closed(s, genesis) && oldBlock in s && newBlock in s
  {
    var fork := ForkNumber(s, genesis, oldBlock, newBlock);
    ReadDownTo(s, lost, genesis, oldBlock, fork) && ReadDownTo(s, lost, genesis, newBlock, fork)
  }

  /** Exactly one of the three. */
  lemma OneOutcome(s: Headers, lost: set<Hash>, genesis: Hash, oldBlock: Hash, newBlock: Hash)
    requires Closed(s, genesis) && oldBlock in s && newBlock in s
    ensures var fork := ForkNumber(s, genesis, oldBlock, newBlock);
            && !(OldFails(s, lost, genesis, oldBlock, newBlock, fork) && NewFails(s, lost, genesis, oldBlock, newBlock, fork))
            && (NoneLost(s, lost, genesis, oldBlock, newBlock) ==>
                  !OldFails(s, lost, genesis, oldBlock, newBlock, fork) && !NewFails(s, lost, genesis, oldBlock, newBlock, fork))
  {
    hide Closed, Ancestor, ForkNumber, LostAt;
  }

  lemma NothingLost(s: Headers, genesis: Hash, oldBlock: Hash, newBlock: Hash)
    requires Closed(s, genesis) && oldBlock in s && newBlock in s
    ensures NoneLost(s, {}, genesis, oldBlock, newBlock)
  {
    hide Closed, Ancestor, ForkNumber;
  }

  /** Reduces the longer branch to the height of the shorter one; `at` is the number of the block that
      could not be read, if there is one. */
  method Descend(s: Headers, lost: set<Hash>, ghost genesis: Hash, h: Hash, to: nat)
    returns (chain: seq<Hash>, r: Hash, ok: bool, ghost at: nat)
    requires Closed(s, genesis) && h in s && to <= s[h].number
    ensures ok ==> r in s && r == Ancestor(s, genesis, h, to) && IsBranch(s, genesis, chain, h, to)
    ensures if ok then ReadDownTo(s, lost, genesis, h, to) else to <= at && LostAt(s, lost, genesis, h, to, at)
  {
    hide Closed, Ancestor, ReadDownTo;
    chain, r, ok, at := [], h, true, 0;
    AncestorSelf(s, genesis, h);
    ReadNothing(s, lost, genesis, h);
    while s[r].number != to
      invariant r in s && to <= s[r].number <= s[h].number
      invariant r == Ancestor(s, genesis, h, s[r].number) && IsBranch(s, genesis, chain, h, s[r].number)
      invariant ReadDownTo(s, lost, genesis, h, s[r].number)
      decreases s[r].number
    {
      ParentStored(s, genesis, r);
      AncestorParent(s, genesis, h, s[r].number - 1);
      ReadNext(s, lost, genesis, h, s[r].number - 1);
      chain := chain + [r];
      if !HasBlock(s, lost, s[r].parent, s[r].number - 1) {
        return chain, r, false, s[r].number - 1;
      }
      r := s[r].parent;
    }
  }

  lemma FailsOnOld(s: Headers, lost: set<Hash>, genesis: Hash, oldBlock: Hash, newBlock: Hash, fork: nat, n: nat)
    requires Closed(s, genesis) && oldBlock in s && newBlock in s && fork <= n && LostAt(s, lost, genesis, oldBlock, fork, n)
    requires forall m: nat :: LostAt(s, lost, genesis, newBlock, fork, m) ==> m <= n
    ensures OldFails(s, lost, genesis, oldBlock, newBlock, fork) && !ReadDownTo(s, lost, genesis, oldBlock, fork)
  {
    hide Closed, Ancestor, LostAt;
  }

  lemma FailsOnNew(s: Headers, lost: set<Hash>, genesis: Hash, oldBlock: Hash, newBlock: Hash, fork: nat, m: nat)
    requires Closed(s, genesis) && oldBlock in s && newBlock in s && fork <= m && LostAt(s, lost, genesis, newBlock, fork, m)
    requires forall n: nat :: LostAt(s, lost, genesis, oldBlock, fork, n) ==> n < m
    ensures NewFails(s, lost, genesis, oldBlock, newBlock, fork) && !ReadDownTo(s, lost, genesis, newBlock, fork)
  {
    hide Closed, Ancestor, LostAt;
  }

  /** Collects both branches down to the common ancestor. Fails exactly if a block on the way cannot be
      read, with the error of the branch on which the highest such block is. */
  method WalkBack(s: Headers, lost: set<Hash>, ghost genesis: Hash, oldBlock: Hash, newBlock: Hash)
    returns (w: Walk, ghost fork: nat)
    requires Closed(s, genesis) && oldBlock in s && newBlock in s
    ensures fork == ForkNumber(s, genesis, oldBlock, newBlock) && IsFork(s, genesis, oldBlock, newBlock, fork)
    ensures w.Walk? <==> NoneLost(s, lost, genesis, oldBlock, newBlock)
    ensures w.Walk? ==>
              IsBranch(s, genesis, w.oldChain, oldBlock, fork) && IsBranch(s, genesis, w.newChain, newBlock, fork)
    ensures w.InvalidOldChain? <==> OldFails(s, lost, genesis, oldBlock, newBlock, fork)
    ensures w.InvalidNewChain? <==> NewFails(s, lost, genesis, oldBlock, newBlock, fork)
    ensures lost == {} ==> w.Walk?
  {
    hide Closed, Ancestor, ForkNumber, IsFork, ReadDownTo, OldFails, NewFails, LostAt;
    fork := ForkNumber(s, genesis, oldBlock, newBlock);
    ForkBelow(s, genesis, oldBlock, newBlock, fork);
    OneOutcome(s, lost, genesis, oldBlock, newBlock);
    NothingLost(s, genesis, oldBlock, newBlock);
    var oldChain, newChain: seq<Hash> := [], [];
    var o, n, ok := oldBlock, newBlock, true;
    ghost var at;
    AncestorSelf(s, genesis, oldBlock);
    AncestorSelf(s, genesis, newBlock);
    ReadNothing(s, lost, genesis, oldBlock);
    ReadNothing(s, lost, genesis, newBlock);
    if s[o].number > s[n].number {
      oldChain, o, ok, at := Descend(s, lost, genesis, o, s[n].number);
      if !ok {
        LostHigher(s, lost, genesis, oldBlock, newBlock, fork, at);
        FailsOnOld(s, lost, genesis, oldBlock, newBlock, fork, at);
        return InvalidOldChain, fork;
      }
    } else {
      newChain, n, ok, at := Descend(s, lost, genesis, n, s[o].number);
      if !ok {
        LostHigher(s, lost, genesis, newBlock, oldBlock, fork, at);
        FailsOnNew(s, lost, genesis, oldBlock, newBlock, fork, at);
        return InvalidNewChain, fork;
      }
    }
    while o != n
      invariant o in s && n in s && fork <= s[o].number == s[n].number <= s[oldBlock].number && s[n].number <= s[newBlock].number
      invariant o == Ancestor(s, genesis, oldBlock, s[o].number) && n == Ancestor(s, genesis, newBlock, s[o].number)
      invariant IsBranch(s, genesis, oldChain, oldBlock, s[o].number) && IsBranch(s, genesis, newChain, newBlock, s[o].number)
      invariant ReadDownTo(s, lost, genesis, oldBlock, s[o].number) && ReadDownTo(s, lost, genesis, newBlock, s[o].number)
      decreases s[o].number
    {
      SameBelowFork(s, genesis, oldBlock, newBlock, fork, s[o].number);
      ParentStored(s, genesis, o);
      ParentStored(s, genesis, n);
      ghost var k := s[o].number - 1;
      AncestorParent(s, genesis, oldBlock, k);
      AncestorParent(s, genesis, newBlock, k);
      ReadNext(s, lost, genesis, oldBlock, k);
      ReadNext(s, lost, genesis, newBlock, k);
      oldChain, newChain := oldChain + [o], newChain + [n];
      if !HasBlock(s, lost, s[o].parent, s[o].number - 1) {
        LostHere(s, lost, genesis, oldBlock, fork, k);
        FailsOnOld(s, lost, genesis, oldBlock, newBlock, fork, k);
        return InvalidOldChain, fork;
      }
      o := s[o].parent;
      if !HasBlock(s, lost, s[n].parent, s[n].number - 1) {
        LostHere(s, lost, genesis, newBlock, fork, k);
        FailsOnNew(s, lost, genesis, oldBlock, newBlock, fork, k);
        return InvalidNewChain, fork;
      }
      n := s[n].parent;
    }
    SameBelowFork(s, genesis, oldBlock, newBlock, fork, s[o].number);
    w := Walk(oldChain, newChain);
  }

  lemma LostHere(s: Headers, lost: set<Hash>, genesis: Hash, h: Hash, fork: nat, n: nat)
    requires Closed(s, genesis) && h in s && fork <= n < s[h].number && Ancestor(s, genesis, h, n) in lost
    ensures LostAt(s, lost, genesis, h, fork, n)
  {
  }

  /** A block that is lost on the longer branch, not below the head of the shorter one, is higher than all
      that the walk needs of the shorter one. */
  lemma LostHigher(s: Headers, lost: set<Hash>, genesis: Hash, longer: Hash, shorter: Hash, fork: nat, at: nat)
    requires Closed(s, genesis) && longer in s && shorter in s && fork <= s[shorter].number
    requires LostAt(s, lost, genesis, longer, s[shorter].number, at)
    ensures LostAt(s, lost, genesis, longer, fork, at)
    ensures forall m: nat :: LostAt(s, lost, genesis, shorter, fork, m) ==> m < at
  {
    hide Closed, Ancestor;
  }

  // ----- The transaction lookup table -----

  type Lookup = map<TxId, nat>

  /** The table maps exactly the transactions of the chain to the numbers of their blocks. */
  ghost predicate LookupOk(s: Headers, genesis: Hash, bodies: Bodies, lookup: Lookup, h: Hash)
    requires Closed(s, genesis) && h in s && bodies.Keys == s.Keys
  {
    && (forall tx :: tx in lookup ==> HeldAt(s, genesis, bodies, h, tx, lookup[tx]))
    && (forall tx, n :: HeldAt(s, genesis, bodies, h, tx, n) ==> tx in lookup && lookup[tx] == n)
  }

  function WriteEntries(lookup: Lookup, body: seq<TxId>, number: nat): (r: Lookup)
    ensures forall tx :: tx in r <==> tx in lookup || tx in body
    ensures forall tx :: tx in r ==> r[tx] == if tx in body then number else lookup[tx]
  {
    lookup + (map tx | tx in body :: number)
  }

  /** `l` is `l0` with the entries of the blocks of `h` above `lo` and up to `hi` written to it. */
  ghost predicate Written(s: Headers, genesis: Hash, bodies: Bodies, l0: Lookup, l: Lookup, h: Hash, lo: int, hi: int)
    requires Closed(s, genesis) && h in s && bodies.Keys == s.Keys
  {
    && (forall tx, n :: lo < n <= hi && HeldAt(s, genesis, bodies, h, tx, n) ==> tx in l && l[tx] == n)
    && (forall tx :: !InBranch(s, genesis, bodies, h, lo, hi, tx) ==>
                     (tx in l <==> tx in l0) && (tx in l ==> l[tx] == l0[tx]))
  }

  lemma WrittenStep(s: Headers, genesis: Hash, bodies: Bodies, l0: Lookup, l: Lookup, h: Hash, lo: int, n: nat)
    requires Closed(s, genesis) && h in s && bodies.Keys == s.Keys && NoRepeats(s, genesis, bodies, h)
    requires lo < n <= s[h].number && Written(s, genesis, bodies, l0, l, h, lo, n - 1)
    ensures Written(s, genesis, bodies, l0, WriteEntries(l, bodies[Ancestor(s, genesis, h, n)], n), h, lo, n)
  {
    hide Closed, Ancestor, WriteEntries;
    var l' := WriteEntries(l, bodies[Ancestor(s, genesis, h, n)], n);
    forall tx, k | lo < k <= n && HeldAt(s, genesis, bodies, h, tx, k) ensures tx in l' && l'[tx] == k {
      if tx in bodies[Ancestor(s, genesis, h, n)] { assert HeldAt(s, genesis, bodies, h, tx, n); }
    }
    forall tx | !InBranch(s, genesis, bodies, h, lo, n, tx)
      ensures (tx in l' <==> tx in l0) && (tx in l' ==> l'[tx] == l0[tx])
    {
      assert !HeldAt(s, genesis, bodies, h, tx, n);
      assert !InBranch(s, genesis, bodies, h, lo, n - 1, tx);
    }
  }

  /** Writing the adopted branch, deleting what only the dropped branch held, and writing the new
      head moves the table from one head to the other. */
  lemma BranchLookup(s: Headers, genesis: Hash, bodies: Bodies, a: Hash, b: Hash, fork: nat,
                     l0: Lookup, l1: Lookup, deleted: set<TxId>, added: set<TxId>)
    requires Closed(s, genesis) && a in s && b in s && bodies.Keys == s.Keys && IsFork(s, genesis, a, b, fork)
    requires NoRepeats(s, genesis, bodies, a) && NoRepeats(s, genesis, bodies, b)
    requires LookupOk(s, genesis, bodies, l0, a)
    requires Written(s, genesis, bodies, l0, l1, b, fork, s[b].number - 1)
    requires forall tx :: tx in deleted <==> InBranch(s, genesis, bodies, a, fork, s[a].number, tx)
    requires forall tx :: tx in added <==> InBranch(s, genesis, bodies, b, fork, s[b].number - 1, tx)
    ensures LookupOk(s, genesis, bodies, WriteEntries(l1 - (deleted - added), bodies[b], s[b].number), b)
  {
    hide Closed, Ancestor, WriteEntries, IsFork;
    var l3 := WriteEntries(l1 - (deleted - added), bodies[b], s[b].number);
    AncestorSelf(s, genesis, b);
    forall tx, n | HeldAt(s, genesis, bodies, b, tx, n) ensures tx in l3 && l3[tx] == n {
      if tx in bodies[b] {
        assert HeldAt(s, genesis, bodies, b, tx, s[b].number);
      } else if n <= fork {
        HeldBelowFork(s, genesis, bodies, a, b, fork, tx, n);
      }
    }
    forall tx | tx in l3 ensures HeldAt(s, genesis, bodies, b, tx, l3[tx]) {
      if tx in bodies[b] {
      } else if InBranch(s, genesis, bodies, b, fork, s[b].number - 1, tx) {
      } else {
        HeldBelowFork(s, genesis, bodies, a, b, fork, tx, l3[tx]);
      }
    }
  }

  // ----- The chain itself -----

  /** The transactions of a branch. */
  method CollectTxs(bodies: Bodies, chain: seq<Hash>, ghost s: Headers, ghost genesis: Hash, ghost h: Hash, ghost fork: nat)
    returns (txs: set<TxId>)
    requires Closed(s, genesis) && h in s && bodies.Keys == s.Keys && IsBranch(s, genesis, chain, h, fork)
    ensures forall tx :: tx in txs <==> InBranch(s, genesis, bodies, h, fork, s[h].number, tx)
  {
    hide Closed, Ancestor;
    txs := {};
    for i := 0 to |chain|
      invariant forall tx :: tx in txs <==> InBranch(s, genesis, bodies, h, s[h].number - i, s[h].number, tx)
    {
      var b := chain[i];
      var more := set tx | tx in bodies[b];
      forall tx
        ensures tx in txs + more <==> InBranch(s, genesis, bodies, h, s[h].number - i - 1, s[h].number, tx)
      {
        if tx in bodies[b] {
          assert HeldAt(s, genesis, bodies, h, tx, s[h].number - i);
        }
        if InBranch(s, genesis, bodies, h, s[h].number - i - 1, s[h].number, tx) {
          var n :| s[h].number - i - 1 < n <= s[h].number && HeldAt(s, genesis, bodies, h, tx, n);
        }
      }
      txs := txs + more;
    }
  }

  /** The index agrees with the ancestors of `h` below its own number. */
  ghost predicate PathTo(s: Headers, genesis: Hash, canon: map<nat, Hash>, h: Hash)
    requires Closed(s, genesis) && h in s
  {
    forall n: nat :: n < s[h].number ==> n in canon && canon[n] == Ancestor(s, genesis, h, n)
  }

  /** `c` is `c0` with the ancestors of `h` above `lo` and up to `hi` written to it. */
  ghost predicate Rewritten(s: Headers, genesis: Hash, c0: map<nat, Hash>, c: map<nat, Hash>, h: Hash, lo: nat, hi: nat)
    requires Closed(s, genesis) && h in s
  {
    && (forall n: nat :: lo < n <= hi && n <= s[h].number ==> n in c && c[n] == Ancestor(s, genesis, h, n))
    && (forall n: nat :: !(lo < n <= hi) ==> (n in c <==> n in c0) && (n in c ==> c[n] == c0[n]))
  }

  lemma RewrittenPath(s: Headers, genesis: Hash, c0: map<nat, Hash>, c: map<nat, Hash>, a: Hash, b: Hash, fork: nat, hi: nat)
    requires Closed(s, genesis) && a in s && b in s && IsFork(s, genesis, a, b, fork) && IsPath(s, genesis, c0, a)
    requires Rewritten(s, genesis, c0, c, b, fork, hi) && s[b].number <= hi + 1
    ensures PathTo(s, genesis, c, b)
  {
    hide Closed, Ancestor;
    forall n: nat | n < s[b].number ensures n in c && c[n] == Ancestor(s, genesis, b, n) {
      if n <= fork {
        AncestorTransitive(s, genesis, a, fork, n);
        AncestorTransitive(s, genesis, b, fork, n);
      }
    }
  }

  class BlockChain {
    const genesis: Hash
    var blocks: Headers
    var bodies: Bodies
    var td: map<Hash, nat>
    var canon: map<nat, Hash>
    var lookup: Lookup
    var current: Hash

    ghost predicate Stored()
      reads this
    {
      && Closed(blocks, genesis) && current in blocks && bodies.Keys == blocks.Keys
      && DifficultiesOk(blocks, genesis, td)
      && forall n: nat :: n in canon ==> canon[n] != ZERO
    }

    /** The index on the numbers up to the head is exactly the head's ancestor path. */
    ghost predicate Valid()
      reads this
    {
      Stored() && IsPath(blocks, genesis, canon, current)
    }

    /** There is no index entry above the head. */
    ghost predicate Clean()
      reads this
      requires current in blocks
    {
      forall n: nat :: n in canon ==> n <= blocks[current].number
    }

    /** The lookup table is that of the canonical chain, in which no transaction repeats. */
    ghost predicate Indexed()
      reads this
      requires Stored()
    {
      LookupOk(blocks, genesis, bodies, lookup, current) && NoRepeats(blocks, genesis, bodies, current)
    }

    constructor (genesis: Hash, header: Header)
      requires genesis != ZERO && header.number == 0 && header.parent == ZERO
      ensures Valid() && Clean() && Indexed() && Heaviest()
      ensures this.genesis == genesis && blocks == map[genesis := header] && current == genesis
      ensures bodies == map[genesis := []] && td == map[genesis := header.difficulty]
    {
      this.genesis := genesis;
      blocks, bodies, td := map[genesis := header], map[genesis := []], map[genesis := header.difficulty];
      canon, lookup, current := map[0 := genesis], map[], genesis;
    }

    method WriteHeadBlock(h: Hash)
      requires h in blocks && h in bodies
      modifies `canon, `lookup, `current
      ensures canon == old(canon)[blocks[h].number := h] && current == h
      ensures lookup == WriteEntries(old(lookup), bodies[h], blocks[h].number)
    {
      canon := canon[blocks[h].number := h];
      lookup := WriteEntries(lookup, bodies[h], blocks[h].number);
      current := h;
    }

    /** Inserts an adopted branch, lowest block first, except for its head. */
    method WriteBranch(chain: seq<Hash>, ghost newBlock: Hash, ghost fork: nat) returns (added: set<TxId>, ghost top: nat)
      requires Stored() && newBlock in blocks && IsBranch(blocks, genesis, chain, newBlock, fork)
      modifies `canon, `lookup, `current
      ensures Stored()
      ensures top == if |chain| >= 2 then blocks[newBlock].number - 1 else fork
      ensures current == if |chain| >= 2 then Ancestor(blocks, genesis, newBlock, top) else old(current)
      ensures Rewritten(blocks, genesis, old(canon), canon, newBlock, fork, top)
      ensures NoRepeats(blocks, genesis, bodies, newBlock) ==>
                Written(blocks, genesis, bodies, old(lookup), lookup, newBlock, fork, top)
      ensures forall tx :: tx in added <==> InBranch(blocks, genesis, bodies, newBlock, fork, top, tx)
    {
      hide Closed, Ancestor, Written, NoRepeats, WriteEntries, Rewritten, InBranch, DifficultiesOk;
      added, top := {}, fork;
      NoneWritten(blocks, genesis, bodies, canon, newBlock, fork);
      WrittenStart(blocks, genesis, bodies, lookup, newBlock, fork);
      var i := |chain|;
      while i > 1
        invariant Stored() && top == blocks[newBlock].number - i && 0 <= i <= |chain| && (|chain| >= 1 ==> i >= 1)
        invariant current == if i < |chain| then Ancestor(blocks, genesis, newBlock, top) else old(current)
        invariant Rewritten(blocks, genesis, old(canon), canon, newBlock, fork, top)
        invariant NoRepeats(blocks, genesis, bodies, newBlock) ==>
                    Written(blocks, genesis, bodies, old(lookup), lookup, newBlock, fork, top)
        invariant forall tx :: tx in added <==> InBranch(blocks, genesis, bodies, newBlock, fork, top, tx)
      {
        i, top := i - 1, top + 1;
        var h := chain[i];
        ParentStored(blocks, genesis, h);
        if NoRepeats(blocks, genesis, bodies, newBlock) {
          WrittenStep(blocks, genesis, bodies, old(lookup), lookup, newBlock, fork, top);
        }
        BranchStep(blocks, genesis, bodies, newBlock, fork, top, added);
        RewrittenStep(blocks, genesis, old(canon), canon, newBlock, fork, top);
        WriteHeadBlock(h);
        added := added + (set tx | tx in bodies[h]);
      }
    }

    /** Re-routes the canonical chain from the current block to just below `newBlock`, which the
        caller then makes the head. Fails, changing nothing, exactly if a block on the way is missing. */
    method Reorg(newBlock: Hash, lost: set<Hash>) returns (ok: bool, ghost fork: nat)
      requires Valid() && newBlock in blocks && blocks[newBlock].number > 0
      modifies `canon, `lookup, `current
      ensures !ok ==> canon == old(canon) && lookup == old(lookup) && current == old(current)
      ensures ok <==> NoneLost(blocks, lost, genesis, old(current), newBlock)
      ensures lost == {} ==> ok
      ensures ok ==> Stored() && IsFork(blocks, genesis, old(current), newBlock, fork) && PathTo(blocks, genesis, canon, newBlock)
      ensures ok && old(Clean()) ==>
                if fork + 1 < blocks[newBlock].number then forall n: nat :: n in canon ==> n < blocks[newBlock].number
                else canon == old(canon)
      ensures ok && old(Indexed()) && NoRepeats(blocks, genesis, bodies, newBlock) ==>
                LookupOk(blocks, genesis, bodies, WriteEntries(lookup, bodies[newBlock], blocks[newBlock].number), newBlock)
    {
      hide Closed, Ancestor, Written, NoRepeats, WriteEntries, Rewritten, InBranch, LookupOk, IsFork, PathTo, IsPath, IsBranch,
           DifficultiesOk;
      var w, f := WalkBack(blocks, lost, genesis, current, newBlock);
      fork := f;
      if !w.Walk? {
        return false, fork;
      }
      BranchLength(blocks, genesis, w.newChain, newBlock, fork);
      ForkBelow(blocks, genesis, current, newBlock, fork);
      var deleted := CollectTxs(bodies, w.oldChain, blocks, genesis, current, fork);
      var added, top := WriteBranch(w.newChain, newBlock, fork);
      ghost var l1 := lookup;
      lookup := lookup - (deleted - added);
      var run, end := EntriesAbove(canon, blocks[current].number);
      RewrittenPath(blocks, genesis, old(canon), canon, old(current), newBlock, fork, top);
      StillPath(blocks, genesis, canon, newBlock, run);
      if old(Clean()) {
        CleanAfter(blocks, genesis, old(canon), canon, old(current), newBlock, fork, top, run, end);
      }
      canon := canon - run;
      if old(Indexed()) && NoRepeats(blocks, genesis, bodies, newBlock) {
        LookupMoves(blocks, genesis, bodies, old(current), newBlock, fork, old(lookup), l1, deleted, added, top);
      }
      ok := true;
    }

    /** Makes a stored block the head, with a reorganisation if it is not on top of the current one.
        The index is clean afterwards exactly when at least two blocks were adopted or the new
        head is not below the old one. */
    method Advance(h: Hash, lost: set<Hash>) returns (ok: bool, ghost fork: nat)
      requires Valid() && h in blocks && blocks[h].number > 0
      modifies `canon, `lookup, `current
      ensures Valid() && current == if ok then h else old(current)
      ensures !ok ==> canon == old(canon) && lookup == old(lookup)
      ensures ok <==> blocks[h].parent == old(current) || NoneLost(blocks, lost, genesis, old(current), h)
      ensures lost == {} ==> ok
      ensures ok ==> IsFork(blocks, genesis, old(current), h, fork)
      ensures ok && old(Clean()) ==>
                (Clean() <==> fork + 1 < blocks[h].number || blocks[old(current)].number <= blocks[h].number)
      ensures ok && old(Indexed()) && NoRepeats(blocks, genesis, bodies, h) ==> Indexed()
    {
      hide Closed, Ancestor, NoRepeats, LookupOk, IsFork, IsPath, PathTo, WriteEntries, DifficultiesOk;
      ParentStored(blocks, genesis, h);
      if blocks[h].parent != current {
        ok, fork := Reorg(h, lost);
        if !ok {
          return;
        }
      } else {
        OnTop(blocks, genesis, bodies, canon, lookup, current, h);
        ok, fork := true, blocks[current].number;
      }
      HeadPath(blocks, genesis, canon, h);
      HeadIndexed(blocks, genesis, old(canon), old(current));
      ghost var top := blocks[old(current)].number;
      assert old(Clean()) && !(fork + 1 < blocks[h].number) ==> top in canon;
      WriteHeadBlock(h);
      assert old(Clean()) && !(fork + 1 < blocks[h].number) ==> top in canon;
    }

    /** No stored block has more total difficulty than the head. */
    ghost predicate Heaviest()
      reads this
      requires Stored()
    {
      current in td && forall h :: h in td ==> td[h] <= td[current]
    }

    /** Stores a block and makes it the head if it wins the fork choice. `keepOld` and `keepNew`
        say which of two blocks of equal weight and height the local miner wants to preserve. */
    method WriteBlockWithState(hash: Hash, header: Header, body: seq<TxId>, keepOld: bool, keepNew: bool, coin: bool, lost: set<Hash>)
      returns (status: BlockStatus, ghost fork: nat)
      requires Valid() && hash != ZERO
      requires hash in blocks ==> blocks[hash] == header && bodies[hash] == body
      requires header.parent in blocks ==> header.number == blocks[header.parent].number + 1
      modifies this
      ensures Valid()
      ensures status == UnknownAncestor <==> header.parent !in old(blocks)
      ensures status == UnknownAncestor ==> unchanged(this)
      ensures status != UnknownAncestor ==> blocks == old(blocks)[hash := header] && bodies == old(bodies)[hash := body]
      ensures status != UnknownAncestor ==>
                && header.parent in old(td) && old(current) in old(td) && old(current) in old(blocks)
                && var externTd, localTd := old(td)[header.parent] + header.difficulty, old(td)[old(current)];
                   var height := old(blocks)[old(current)].number;
                   && td == old(td)[hash := externTd]
                   && (status != Side <==>
                       externTd > localTd || (externTd == localTd &&
                         (header.number < height || (header.number == height && !keepOld && (keepNew || coin)))))
      ensures current == if status == Canonical then hash else old(current)
      ensures status in {Side, ReorgFailed} ==> canon == old(canon) && lookup == old(lookup)
      ensures status in {Canonical, ReorgFailed} ==>
                (status == ReorgFailed <==> header.parent != old(current) && !NoneLost(blocks, lost, genesis, old(current), hash))
      ensures lost == {} ==> status != ReorgFailed
      ensures status == Canonical && old(Clean()) ==>
                (Clean() <==> fork + 1 < header.number || old(blocks)[old(current)].number <= header.number)
      ensures status == Canonical ==> IsFork(blocks, genesis, old(current), hash, fork)
      ensures old(Indexed()) && (status == Canonical ==> NoRepeats(blocks, genesis, bodies, hash)) ==> Indexed()
      ensures old(Heaviest()) && status != ReorgFailed ==> Heaviest()
    {
      hide Closed, Ancestor, NoRepeats, LookupOk, IsFork, IsPath, DifficultiesOk;
      fork := 0;
      SameKeys(blocks, genesis, td);
      if header.parent !in td {
        return UnknownAncestor, fork;
      }
      var localTd, externTd := td[current], td[header.parent] + header.difficulty;
      GrowDifficulties(blocks, genesis, td, hash, header);
      StoreBlock(blocks, genesis, bodies, canon, lookup, current, hash, header, body);
      td, blocks, bodies := td[hash := externTd], blocks[hash := header], bodies[hash := body];
      var reorg := externTd > localTd;
      if !reorg && externTd == localTd {
        if header.number < blocks[current].number {
          reorg := true;
        } else if header.number == blocks[current].number {
          reorg := !keepOld && (keepNew || coin);
        }
      }
      if !reorg {
        return Side, fork;
      }
      var ok;
      ok, fork := Advance(hash, lost);
      status := if ok then Canonical else ReorgFailed;
    }

    /** What is stored under a hash is what the hash stands for. */
    ghost predicate Agrees(headerOf: Hash -> Header, bodyOf: Hash -> seq<TxId>)
      reads this
    {
      && (forall h :: h in blocks ==> blocks[h] == headerOf(h))
      && (forall h :: h in bodies ==> bodies[h] == bodyOf(h))
    }

    /** Writes one block of a run; `change` holds the change of head, if there is one. */
    method WriteChecked(w: NewBlock, ghost headerOf: Hash -> Header, ghost bodyOf: Hash -> seq<TxId>)
      returns (ghost change: seq<HeadChange>)
      requires Valid() && Agrees(headerOf, bodyOf) && w.Checked(headerOf, bodyOf)
      modifies this
      ensures Valid() && Agrees(headerOf, bodyOf)
      ensures Extends(old(blocks), old(bodies), blocks, bodies)
      ensures old(Heaviest()) && w.lost == {} ==> Heaviest()
      ensures change == [] || |change| == 1
      ensures Adoptions(blocks, genesis, change, old(current), current)
      ensures old(Clean()) && NoneLeavesStale(blocks, change) ==> Clean()
      ensures old(Indexed()) && NoneRepeats(blocks, genesis, bodies, change) ==> Indexed()
    {
      hide Closed, DifficultiesOk, IsPath, Heaviest, LookupOk, NoRepeats, IsFork;
      var status, fork := WriteBlockWithState(w.hash, w.header, w.body, w.keepOld, w.keepNew, w.coin, w.lost);
      change := if status == Canonical then [HeadChange(old(current), w.hash, fork)] else [];
      if status == Canonical {
        assert change[..0] == [];
        assert change[0].to == w.hash;
      }
    }

    /** Any run of block writes, with the changes of head it makes. The index follows the head. The
        head stays the heaviest block as long as no reorganisation fails for a missing block, the
        index stays clean as long as no single block is adopted below the old head, and the lookup
        table stays that of the canonical chain as long as no transaction repeats on an adopted one. */
    method WriteBlocks(writes: seq<NewBlock>, ghost headerOf: Hash -> Header, ghost bodyOf: Hash -> seq<TxId>)
      returns (ghost log: seq<HeadChange>)
      requires Valid() && Agrees(headerOf, bodyOf)
      requires forall i :: 0 <= i < |writes| ==> writes[i].Checked(headerOf, bodyOf)
      modifies this
      ensures Valid() && Agrees(headerOf, bodyOf)
      ensures Extends(old(blocks), old(bodies), blocks, bodies)
      ensures old(Heaviest()) && (forall i :: 0 <= i < |writes| ==> writes[i].lost == {}) ==> Heaviest()
      ensures Adoptions(blocks, genesis, log, old(current), current)
      ensures old(Clean()) && NoneLeavesStale(blocks, log) ==> Clean()
      ensures old(Indexed()) && NoneRepeats(blocks, genesis, bodies, log) ==> Indexed()
    {
      hide Closed, DifficultiesOk, IsPath, Heaviest, Agrees, NewBlock.Checked, Clean, Indexed, Adoptions, NoneLeavesStale,
           NoneRepeats, Extends;
      log := [];
      NoChanges(blocks, genesis, bodies, current);
      for i := 0 to |writes|
        invariant Valid() && Agrees(headerOf, bodyOf)
        invariant Extends(old(blocks), old(bodies), blocks, bodies)
        invariant old(Heaviest()) && (forall k :: 0 <= k < i ==> writes[k].lost == {}) ==> Heaviest()
        invariant Adoptions(blocks, genesis, log, old(current), current)
        invariant old(Clean()) && NoneLeavesStale(blocks, log) ==> Clean()
        invariant old(Indexed()) && NoneRepeats(blocks, genesis, bodies, log) ==> Indexed()
      {
        ghost var s, b, c := blocks, bodies, current;
        var change := WriteChecked(writes[i], headerOf, bodyOf);
        ExtendsTransitive(old(blocks), old(bodies), s, b, blocks, bodies);
        MoreChanges(s, b, blocks, bodies, genesis, log, change, old(current), c, current);
        log := log + change;
      }
    }
  }

  // ----- Runs of writes -----

  /** The head moves from one block to another; `fork` is the number of their common ancestor. */
  datatype HeadChange = HeadChange(from: Hash, to: Hash, fork: nat) {
    /** A single block is adopted, and it is below the old head. */
    ghost predicate LeavesStale(s: Headers) {
      from in s && to in s && s[to].number <= fork + 1 && s[to].number < s[from].number
    }
  }

  /** The changes of `log` lead from `start` to `end`. */
  ghost predicate Adoptions(s: Headers, genesis: Hash, log: seq<HeadChange>, start: Hash, end: Hash)
    requires Closed(s, genesis)
    decreases |log|
  {
    if |log| == 0 then start == end
    else
      var c := log[|log| - 1];
      && c.from in s && c.to in s && c.to == end && IsFork(s, genesis, c.from, c.to, c.fork)
      && Adoptions(s, genesis, log[..|log| - 1], start, c.from)
  }

  ghost predicate NoneLeavesStale(s: Headers, log: seq<HeadChange>) {
    forall i :: 0 <= i < |log| ==> !log[i].LeavesStale(s)
  }

  ghost predicate NoneRepeats(s: Headers, genesis: Hash, bodies: Bodies, log: seq<HeadChange>)
    requires Closed(s, genesis) && bodies.Keys == s.Keys
  {
    forall i :: 0 <= i < |log| && log[i].to in s ==> NoRepeats(s, genesis, bodies, log[i].to)
  }

  lemma NoChanges(s: Headers, genesis: Hash, bodies: Bodies, h: Hash)
    requires Closed(s, genesis) && bodies.Keys == s.Keys
    ensures Adoptions(s, genesis, [], h, h) && Extends(s, bodies, s, bodies)
  {
  }

  /** A log of changes stays one while blocks are added, and goes on with the next changes. */
  lemma {:induction false} GrowAdoptions(s: Headers, bodies: Bodies, s': Headers, bodies': Bodies, genesis: Hash,
                                         log: seq<HeadChange>, start: Hash, end: Hash)
    requires Closed(s, genesis) && Closed(s', genesis) && bodies.Keys == s.Keys && bodies'.Keys == s'.Keys
    requires Extends(s, bodies, s', bodies') && Adoptions(s, genesis, log, start, end)
    ensures Adoptions(s', genesis, log, start, end)
    ensures forall i :: 0 <= i < |log| ==> log[i].from in s && log[i].to in s
    decreases |log|
  {
    hide Closed, IsFork;
    if |log| > 0 {
      var c := log[|log| - 1];
      GrowAdoptions(s, bodies, s', bodies', genesis, log[..|log| - 1], start, c.from);
      GrowFork(s, s', genesis, c.from, c.to, c.fork);
    }
  }

  lemma MoreChanges(s: Headers, bodies: Bodies, s': Headers, bodies': Bodies, genesis: Hash,
                    log: seq<HeadChange>, change: seq<HeadChange>, start: Hash, middle: Hash, end: Hash)
    requires Closed(s, genesis) && Closed(s', genesis) && bodies.Keys == s.Keys && bodies'.Keys == s'.Keys
    requires Extends(s, bodies, s', bodies') && Adoptions(s, genesis, log, start, middle)
    requires |change| <= 1 && Adoptions(s', genesis, change, middle, end)
    ensures Adoptions(s', genesis, log + change, start, end)
    ensures NoneLeavesStale(s', log + change) ==> NoneLeavesStale(s, log) && NoneLeavesStale(s', change)
    ensures NoneRepeats(s', genesis, bodies', log + change) ==>
              NoneRepeats(s, genesis, bodies, log) && NoneRepeats(s', genesis, bodies', change)
  {
    hide Closed, IsFork, NoRepeats;
    GrowAdoptions(s, bodies, s', bodies', genesis, log, start, middle);
    var all := log + change;
    assert forall i :: 0 <= i < |log| ==> all[i] == log[i];
    assert forall i :: 0 <= i < |change| ==> all[|log| + i] == change[i];
    if |change| == 0 {
      assert all == log;
    } else {
      assert all[..|all| - 1] == log && change[..0] == [];
    }
    if NoneRepeats(s', genesis, bodies', all) {
      forall i | 0 <= i < |log| && log[i].to in s ensures NoRepeats(s, genesis, bodies, log[i].to) {
        assert all[i].to in s';
        GrowHeld(s, bodies, s', bodies', genesis, log[i].to);
      }
    }
  }

  /** A block to be written, with how ties are decided and which blocks cannot be read at that time. */
  datatype NewBlock = NewBlock(hash: Hash, header: Header, body: seq<TxId>, keepOld: bool, keepNew: bool, coin: bool, lost: set<Hash>)
  {
    ghost predicate Checked(headerOf: Hash -> Header, bodyOf: Hash -> seq<TxId>) {
      && hash != ZERO && header == headerOf(hash) && body == bodyOf(hash)
      && header.number == headerOf(header.parent).number + 1
    }
  }

  lemma NoneWritten(s: Headers, genesis: Hash, bodies: Bodies, c: map<nat, Hash>, h: Hash, lo: nat)
    requires Closed(s, genesis) && h in s && bodies.Keys == s.Keys
    ensures Rewritten(s, genesis, c, c, h, lo, lo)
    ensures forall tx :: !InBranch(s, genesis, bodies, h, lo, lo, tx)
  {
  }

  lemma RewrittenStep(s: Headers, genesis: Hash, c0: map<nat, Hash>, c: map<nat, Hash>, h: Hash, lo: nat, n: nat)
    requires Closed(s, genesis) && h in s && lo < n <= s[h].number && Rewritten(s, genesis, c0, c, h, lo, n - 1)
    ensures Rewritten(s, genesis, c0, c[n := Ancestor(s, genesis, h, n)], h, lo, n)
  {
    hide Closed, Ancestor;
  }

  lemma WrittenStart(s: Headers, genesis: Hash, bodies: Bodies, l: Lookup, h: Hash, lo: int)
    requires Closed(s, genesis) && h in s && bodies.Keys == s.Keys
    ensures Written(s, genesis, bodies, l, l, h, lo, lo)
  {
  }

  lemma BranchStep(s: Headers, genesis: Hash, bodies: Bodies, h: Hash, lo: int, n: nat, txs: set<TxId>)
    requires Closed(s, genesis) && h in s && bodies.Keys == s.Keys && lo < n <= s[h].number
    requires forall tx :: tx in txs <==> InBranch(s, genesis, bodies, h, lo, n - 1, tx)
    ensures forall tx :: tx in txs || tx in bodies[Ancestor(s, genesis, h, n)] <==> InBranch(s, genesis, bodies, h, lo, n, tx)
  {
    hide Closed, Ancestor, InBranch;
    forall tx ensures tx in txs || tx in bodies[Ancestor(s, genesis, h, n)] <==> InBranch(s, genesis, bodies, h, lo, n, tx) {
      InBranchStep(s, genesis, bodies, h, lo, n, tx);
    }
  }

  /** The clean-up above the current block leaves the path to the new head alone. */
  lemma StillPath(s: Headers, genesis: Hash, c: map<nat, Hash>, b: Hash, run: set<nat>)
    requires Closed(s, genesis) && b in s && PathTo(s, genesis, c, b)
    requires forall n: nat :: n in run ==> s[b].number <= n
    ensures PathTo(s, genesis, c - run, b)
  {
  }

  /** The clean-up starts above the block that is current at that point. */
  lemma CleanAfter(s: Headers, genesis: Hash, c0: map<nat, Hash>, c: map<nat, Hash>, a: Hash, b: Hash, fork: nat, top: nat,
                   run: set<nat>, end: nat)
    requires Closed(s, genesis) && a in s && b in s && IsPath(s, genesis, c0, a)
    requires Rewritten(s, genesis, c0, c, b, fork, top) && fork <= s[a].number
    requires forall n: nat :: n in c0 ==> n <= s[a].number
    requires top == if s[b].number >= fork + 2 then s[b].number - 1 else fork
    requires var from := if s[b].number >= fork + 2 then s[b].number - 1 else s[a].number;
             from < end && end !in c && forall n: nat :: n in run <==> from < n < end
    ensures if fork + 1 < s[b].number then forall n: nat :: n in c - run ==> n < s[b].number else c - run == c0
  {
    hide Closed, Ancestor;
    if fork + 1 < s[b].number {
      forall n: nat | n in c && n >= s[b].number ensures n in run {
        assert n <= s[a].number;
        assert end <= s[a].number ==> end in c0;
      }
    } else {
      assert forall n: nat :: n in run ==> n !in c;
      assert c - run == c;
      assert c == c0;
    }
  }

  /** The same with the branch written by WriteBranch, which leaves out its head. */
  lemma LookupMoves(s: Headers, genesis: Hash, bodies: Bodies, a: Hash, b: Hash, fork: nat,
                    l0: Lookup, l1: Lookup, deleted: set<TxId>, added: set<TxId>, top: nat)
    requires Closed(s, genesis) && a in s && b in s && bodies.Keys == s.Keys && IsFork(s, genesis, a, b, fork)
    requires NoRepeats(s, genesis, bodies, a) && NoRepeats(s, genesis, bodies, b)
    requires LookupOk(s, genesis, bodies, l0, a)
    requires top == if s[b].number >= fork + 2 then s[b].number - 1 else fork
    requires Written(s, genesis, bodies, l0, l1, b, fork, top)
    requires forall tx :: tx in deleted <==> InBranch(s, genesis, bodies, a, fork, s[a].number, tx)
    requires forall tx :: tx in added <==> InBranch(s, genesis, bodies, b, fork, top, tx)
    ensures LookupOk(s, genesis, bodies, WriteEntries(l1 - (deleted - added), bodies[b], s[b].number), b)
  {
    hide Closed, Ancestor;
    assert forall tx :: InBranch(s, genesis, bodies, b, fork, top, tx) <==> InBranch(s, genesis, bodies, b, fork, s[b].number - 1, tx);
    assert Written(s, genesis, bodies, l0, l1, b, fork, s[b].number - 1);
    hide Written, InBranch, LookupOk, NoRepeats, WriteEntries;
    BranchLookup(s, genesis, bodies, a, b, fork, l0, l1, deleted, added);
  }

  /** A block on top of the head: its parent's path is its own, and it holds new transactions. */
  lemma OnTop(s: Headers, genesis: Hash, bodies: Bodies, canon: map<nat, Hash>, lookup: Lookup, a: Hash, h: Hash)
    requires Closed(s, genesis) && a in s && h in s && bodies.Keys == s.Keys && s[h].number > 0 && s[h].parent == a
    requires IsPath(s, genesis, canon, a)
    ensures PathTo(s, genesis, canon, h) && IsFork(s, genesis, a, h, s[a].number) && s[h].number == s[a].number + 1
    ensures LookupOk(s, genesis, bodies, lookup, a) && NoRepeats(s, genesis, bodies, h) ==>
              LookupOk(s, genesis, bodies, WriteEntries(lookup, bodies[h], s[h].number), h)
  {
    hide Closed, Ancestor, WriteEntries;
    ParentStored(s, genesis, h);
    AncestorSelf(s, genesis, a);
    AncestorSelf(s, genesis, h);
    forall n: nat | n < s[h].number ensures Ancestor(s, genesis, h, n) == Ancestor(s, genesis, a, n) {
      AncestorParent(s, genesis, h, n);
    }
    assert forall tx, n :: n < s[h].number ==> (HeldAt(s, genesis, bodies, h, tx, n) <==> HeldAt(s, genesis, bodies, a, tx, n));
    if LookupOk(s, genesis, bodies, lookup, a) && NoRepeats(s, genesis, bodies, h) {
      var l := WriteEntries(lookup, bodies[h], s[h].number);
      forall tx, n | HeldAt(s, genesis, bodies, h, tx, n) ensures tx in l && l[tx] == n {
        if tx in bodies[h] { assert HeldAt(s, genesis, bodies, h, tx, s[h].number); }
      }
    }
  }

  lemma HeadPath(s: Headers, genesis: Hash, canon: map<nat, Hash>, h: Hash)
    requires Closed(s, genesis) && h in s && PathTo(s, genesis, canon, h)
    ensures IsPath(s, genesis, canon[s[h].number := h], h) && h != ZERO
  {
    ParentStored(s, genesis, h);
    AncestorSelf(s, genesis, h);
    hide Closed, Ancestor;
  }

  lemma HeadIndexed(s: Headers, genesis: Hash, c: map<nat, Hash>, a: Hash)
    requires Closed(s, genesis) && a in s && IsPath(s, genesis, c, a)
    ensures s[a].number in c
  {
  }

  /** Storing a block on top of a stored one changes nothing about the canonical chain. */
  lemma StoreBlock(s: Headers, genesis: Hash, bodies: Bodies, canon: map<nat, Hash>, lookup: Lookup, a: Hash,
                   hash: Hash, header: Header, body: seq<TxId>)
    requires Closed(s, genesis) && a in s && bodies.Keys == s.Keys && IsPath(s, genesis, canon, a)
    requires hash != ZERO && header.parent in s && s[header.parent].number + 1 == header.number
    requires hash in s ==> s[hash] == header && bodies[hash] == body
    ensures var s', bodies' := s[hash := header], bodies[hash := body];
            && Closed(s', genesis) && IsPath(s', genesis, canon, a)
            && (LookupOk(s, genesis, bodies, lookup, a) ==> LookupOk(s', genesis, bodies', lookup, a))
            && (NoRepeats(s, genesis, bodies, a) ==> NoRepeats(s', genesis, bodies', a))
  {
    var s', bodies' := s[hash := header], bodies[hash := body];
    GrowClosed(s, genesis, hash, header);
    forall n: nat | n <= s[a].number ensures Ancestor(s', genesis, a, n) == Ancestor(s, genesis, a, n) {
      GrowAncestor(s, s', genesis, a, n);
    }
    hide Closed, Ancestor;
    assert forall tx, n :: HeldAt(s', genesis, bodies', a, tx, n) <==> HeldAt(s, genesis, bodies, a, tx, n);
  }

  /** A heavier branch of one block that is shorter than the chain it replaces leaves an entry
      above the new head. */
  method StaleEntryExample() returns (chain: BlockChain)
    ensures chain.Valid() && !chain.Clean()
  {
    hide Closed, Ancestor, NoRepeats, LookupOk, IsFork, IsPath, DifficultiesOk;
    chain := new BlockChain(1, Header(ZERO, 0, 1));
    var s1, f1 := chain.WriteBlockWithState(2, Header(1, 1, 1), [], false, false, false, {});
    var s2, f2 := chain.WriteBlockWithState(3, Header(2, 2, 1), [], false, false, false, {});
    var s3, f3 := chain.WriteBlockWithState(4, Header(1, 1, 5), [], false, false, false, {});
  }
}
