/** What the pool gets back from a reorganisation: the transactions of the abandoned branch that the
    new branch does not hold. */
module Reinjection {
  import opened BlockTrees
  import opened BlockChains
  import opened Collections
  import opened Options
  import opened Transactions
  import opened TxPools

  /** Reorganisations over more blocks than this are not looked into. */
  const MAX_DEPTH: nat := 64

  /** The transactions to inject, or nothing at all when a block cannot be read, in which case the
      pool is not reset either. */
  datatype Dropped = Inject(txs: seq<TxId>) | Unrooted

  /** The transactions of the blocks, in their order. */
  ghost function AllTxs(bodies: Bodies, chain: seq<Hash>): seq<TxId>
    requires forall i :: 0 <= i < |chain| ==> chain[i] in bodies
  {
    if |chain| == 0 then [] else AllTxs(bodies, chain[..|chain| - 1]) + bodies[chain[|chain| - 1]]
  }

  /** The transactions of `a`, in their order, without those of `b`. */
  ghost function Without(a: seq<TxId>, b: set<TxId>): (r: seq<TxId>)
    ensures forall tx :: tx in r <==> tx in a && tx !in b
  {
    if |a| == 0 then []
    else
      var front, last := Without(a[..|a| - 1], b), a[|a| - 1];
      assert a == a[..|a| - 1] + [last];
      if last in b then front else front + [last]
  }

  lemma {:induction false} BranchTxs(s: Headers, genesis: Hash, bodies: Bodies, chain: seq<Hash>, h: Hash, n: nat, k: nat)
    requires Closed(s, genesis) && h in s && bodies.Keys == s.Keys && IsBranch(s, genesis, chain, h, n) && k <= |chain|
    ensures forall tx :: tx in AllTxs(bodies, chain[..k]) <==> InBranch(s, genesis, bodies, h, s[h].number - k, s[h].number, tx)
  {
    hide Closed, Ancestor;
    if k > 0 {
      BranchTxs(s, genesis, bodies, chain, h, n, k - 1);
      assert chain[..k][..k - 1] == chain[..k - 1];
      var top, n := s[h].number, s[h].number - k + 1;
      var lo := n - 1;
      forall tx
        ensures InBranch(s, genesis, bodies, h, lo, top, tx) <==>
                  InBranch(s, genesis, bodies, h, n, top, tx) || tx in bodies[chain[k - 1]]
      {
        if tx in bodies[chain[k - 1]] {
          assert HeldAt(s, genesis, bodies, h, tx, n);
        }
      }
    }
  }

  method CollectAll(bodies: Bodies, chain: seq<Hash>) returns (txs: seq<TxId>)
    requires forall i :: 0 <= i < |chain| ==> chain[i] in bodies
    ensures txs == AllTxs(bodies, chain)
  {
    txs := [];
    for i := 0 to |chain|
      invariant txs == AllTxs(bodies, chain[..i])
    {
      assert chain[..i + 1][..i] == chain[..i];
      txs := txs + bodies[chain[i]];
    }
    assert chain[..|chain|] == chain;
  }

  method TxDifference(a: seq<TxId>, b: seq<TxId>) returns (keep: seq<TxId>)
    ensures keep == Without(a, Members(b))
  {
    var remove := Members(b);
    keep := [];
    for i := 0 to |a|
      invariant keep == Without(a[..i], remove)
    {
      assert a[..i + 1][..i] == a[..i];
      if a[i] !in remove {
        keep := keep + [a[i]];
      }
    }
    assert a[..|a|] == a;
  }

  /** The walk takes place: there is an old head which is not the parent of the new one and is not
      too far from it. */
  predicate Looks(s: Headers, oldHead: Option<Hash>, newHead: Hash)
    requires newHead in s && (oldHead.Some? ==> oldHead.value in s)
  {
    && oldHead.Some? && oldHead.value != s[newHead].parent
    && s[oldHead.value].number <= s[newHead].number + MAX_DEPTH && s[newHead].number <= s[oldHead.value].number + MAX_DEPTH
  }

  /** The transactions of the chain of `a` that are not in `txs` are in the chain of `b`. */
  ghost predicate NoneForgotten(s: Headers, genesis: Hash, bodies: Bodies, a: Hash, b: Hash, txs: seq<TxId>)
    requires Closed(s, genesis) && a in s && b in s && bodies.Keys == s.Keys
  {
    forall tx :: InBranch(s, genesis, bodies, a, -1, s[a].number, tx) ==>
      tx in txs || InBranch(s, genesis, bodies, b, -1, s[b].number, tx)
  }

  /** None of `txs` is in the chain of `b`. */
  ghost predicate NoneIncluded(s: Headers, genesis: Hash, bodies: Bodies, b: Hash, txs: seq<TxId>)
    requires Closed(s, genesis) && b in s && bodies.Keys == s.Keys
  {
    forall tx :: tx in txs ==> !InBranch(s, genesis, bodies, b, -1, s[b].number, tx)
  }

  /** The transactions above the fork that only the branch of `a` holds. */
  ghost predicate IsDifference(s: Headers, genesis: Hash, bodies: Bodies, a: Hash, b: Hash, fork: nat, txs: seq<TxId>)
    requires Closed(s, genesis) && a in s && b in s && bodies.Keys == s.Keys
  {
    forall tx :: tx in txs <==>
      InBranch(s, genesis, bodies, a, fork, s[a].number, tx) && !InBranch(s, genesis, bodies, b, fork, s[b].number, tx)
  }

  /** Putting them back forgets nothing; and nothing that is in the chain is put back, unless the old
      chain holds a transaction twice. */
  lemma DifferenceMovesAll(s: Headers, genesis: Hash, bodies: Bodies, a: Hash, b: Hash, fork: nat, txs: seq<TxId>)
    requires Closed(s, genesis) && a in s && b in s && bodies.Keys == s.Keys
    requires IsFork(s, genesis, a, b, fork) && IsDifference(s, genesis, bodies, a, b, fork, txs)
    ensures NoneForgotten(s, genesis, bodies, a, b, txs)
    ensures NoRepeats(s, genesis, bodies, a) ==> NoneIncluded(s, genesis, bodies, b, txs)
  {
    hide Closed, Ancestor, IsFork, HeldAt;
    ForkBelow(s, genesis, a, b, fork);
    forall tx | InBranch(s, genesis, bodies, a, -1, s[a].number, tx) && tx !in txs
      ensures InBranch(s, genesis, bodies, b, -1, s[b].number, tx)
    {
      var n :| -1 < n <= s[a].number && HeldAt(s, genesis, bodies, a, tx, n);
      if n <= fork {
        HeldBelowFork(s, genesis, bodies, a, b, fork, tx, n);
      }
    }
    forall tx | NoRepeats(s, genesis, bodies, a) && tx in txs
      ensures !InBranch(s, genesis, bodies, b, -1, s[b].number, tx)
    {
      var k :| fork < k <= s[a].number && HeldAt(s, genesis, bodies, a, tx, k);
      forall n | -1 < n <= s[b].number
        ensures !HeldAt(s, genesis, bodies, b, tx, n)
      {
        if n <= fork {
          HeldBelowFork(s, genesis, bodies, a, b, fork, tx, n);
        }
      }
    }
  }

  /** The new head is on top of the old one, any number of blocks. */
  ghost predicate Grows(s: Headers, genesis: Hash, oldHead: Option<Hash>, newHead: Hash)
    requires Closed(s, genesis) && newHead in s
  {
    oldHead.Some? ==>
      && oldHead.value in s && s[oldHead.value].number <= s[newHead].number
      && Ancestor(s, genesis, newHead, s[oldHead.value].number) == oldHead.value
  }

  lemma GrownFork(s: Headers, genesis: Hash, oldHead: Hash, newHead: Hash, fork: nat)
    requires Closed(s, genesis) && oldHead in s && newHead in s && Grows(s, genesis, Some(oldHead), newHead)
    requires IsFork(s, genesis, oldHead, newHead, fork)
    ensures fork == s[oldHead].number
  {
    hide Closed, Ancestor;
    AncestorSelf(s, genesis, oldHead);
  }

  /** No walk takes place, or all blocks that it needs can be read. */
  ghost predicate Rooted(s: Headers, lost: set<Hash>, genesis: Hash, oldHead: Option<Hash>, newHead: Hash)
    requires Closed(s, genesis) && newHead in s && (oldHead.Some? ==> oldHead.value in s)
  {
    Looks(s, oldHead, newHead) ==> oldHead.value !in lost && NoneLost(s, lost, genesis, oldHead.value, newHead)
  }

  /** Walks both branches back to the common ancestor; the blocks in `lost` cannot be read, and if one of
      them is needed the pool is not reset. On a chain
      that only grows there is nothing to inject, however many blocks are skipped. */
  method Reinject(s: Headers, bodies: Bodies, lost: set<Hash>, ghost genesis: Hash, oldHead: Option<Hash>, newHead: Hash)
    returns (r: Dropped, ghost w: Walk, ghost fork: nat)
    requires Closed(s, genesis) && bodies.Keys == s.Keys && newHead in s && newHead !in lost
    requires oldHead.Some? ==> oldHead.value in s
    ensures !Looks(s, oldHead, newHead) ==> r == Inject([])
    ensures lost == {} ==> r.Inject?
    ensures r.Inject? <==> Rooted(s, lost, genesis, oldHead, newHead)
    ensures Grows(s, genesis, oldHead, newHead) && r.Inject? ==> r.txs == []
    ensures Looks(s, oldHead, newHead) && r.Inject? ==>
              && var previous := oldHead.value;
              && IsFork(s, genesis, previous, newHead, fork) && w.Walk?
              && IsBranch(s, genesis, w.oldChain, previous, fork) && IsBranch(s, genesis, w.newChain, newHead, fork)
              && r.txs == Without(AllTxs(bodies, w.oldChain), Members(AllTxs(bodies, w.newChain)))
              && IsDifference(s, genesis, bodies, previous, newHead, fork, r.txs)
              && NoneForgotten(s, genesis, bodies, previous, newHead, r.txs)
              && (NoRepeats(s, genesis, bodies, previous) ==> NoneIncluded(s, genesis, bodies, newHead, r.txs))
  {
    hide Closed, Ancestor, IsFork, InBranch, NoneForgotten, NoneIncluded, NoRepeats, Grows, NoneLost, OldFails, NewFails, ForkNumber;
    fork, w := 0, InvalidOldChain;
    if !Looks(s, oldHead, newHead) {
      return Inject([]), w, fork;
    }
    if oldHead.value in lost {
      return Unrooted, w, fork;
    }
    var walk, f := WalkBack(s, lost, genesis, oldHead.value, newHead);
    w, fork := walk, f;
    if !walk.Walk? {
      return Unrooted, w, fork;
    }
    BranchTxs(s, genesis, bodies, walk.oldChain, oldHead.value, fork, |walk.oldChain|);
    BranchTxs(s, genesis, bodies, walk.newChain, newHead, fork, |walk.newChain|);
    assert walk.oldChain[..|walk.oldChain|] == walk.oldChain && walk.newChain[..|walk.newChain|] == walk.newChain;
    var discarded := CollectAll(bodies, walk.oldChain);
    var included := CollectAll(bodies, walk.newChain);
    var keep := TxDifference(discarded, included);
    DifferenceMovesAll(s, genesis, bodies, oldHead.value, newHead, fork, keep);
    if Grows(s, genesis, oldHead, newHead) {
      GrownFork(s, genesis, oldHead.value, newHead, fork);
    }
    r := Inject(keep);
  }

  /** The transactions behind the identifiers. */
  function Resolve(txOf: TxId -> Tx, ids: seq<TxId>): (txs: seq<Tx>)
    ensures |txs| == |ids| && forall i :: 0 <= i < |ids| ==> txs[i] == txOf(ids[i])
  {
    seq(|ids|, i requires 0 <= i < |ids| => txOf(ids[i]))
  }

  /** The chain and the state of its head at the time of a reset. */
  datatype ChainView = ChainView(s: Headers, bodies: Bodies, lost: set<Hash>, txOf: TxId -> Tx, state: Option<State>, maxGas: nat,
                                 istanbul: bool) {
    ghost predicate Reads(genesis: Hash, oldHead: Option<Hash>, newHead: Hash) {
      && Closed(s, genesis) && bodies.Keys == s.Keys && newHead in s && newHead !in lost
      && (oldHead.Some? ==> oldHead.value in s)
    }
  }

  /** The request for a reset between two heads. If the chain only grows and no nonce falls, it extends
      the state of the pool. */
  method MakeRequest(view: ChainView, ghost genesis: Hash, oldHead: Option<Hash>, newHead: Hash, current: State)
    returns (req: ResetRequest, r: Dropped, ghost fork: nat)
    requires view.Reads(genesis, oldHead, newHead)
    ensures view.lost == {} ==> r.Inject?
    ensures r.Inject? <==> Rooted(view.s, view.lost, genesis, oldHead, newHead)
    ensures req.ok <==> r.Inject? && view.state.Some?
    ensures req.ok ==> req.state == view.state.value && req.maxGas == view.maxGas && req.istanbul == view.istanbul
    ensures r.Inject? ==> req.reinject == Resolve(view.txOf, r.txs)
    ensures Looks(view.s, oldHead, newHead) && r.Inject? ==>
              && IsFork(view.s, genesis, oldHead.value, newHead, fork)
              && IsDifference(view.s, genesis, view.bodies, oldHead.value, newHead, fork, r.txs)
    ensures !Looks(view.s, oldHead, newHead) ==> r == Inject([])
    ensures Grows(view.s, genesis, oldHead, newHead) && (view.state.Some? ==> forall a :: current.nonce(a) <= view.state.value.nonce(a)) ==>
              req.Extends(current)
  {
    hide Closed, IsFork, IsBranch, InBranch, NoneForgotten, NoneIncluded, NoRepeats, AllTxs, Without, IsDifference, Grows,
         Rooted;
    ghost var w;
    r, w, fork := Reinject(view.s, view.bodies, view.lost, genesis, oldHead, newHead);
    var txs := if r.Inject? then Resolve(view.txOf, r.txs) else [];
    var state := if view.state.Some? then view.state.value else current;
    req := ResetRequest(r.Inject? && view.state.Some?, state, view.maxGas, view.istanbul, txs);
  }

  /** Resets a pool when the head of the chain moves. Each transaction that only the abandoned branch holds
      is offered to the pool once more. */
  method ResetToHead(pool: TxPool, view: ChainView, ghost genesis: Hash, oldHead: Option<Hash>, newHead: Hash)
    returns (r: Dropped, results: seq<AddResult>, ghost known: seq<set<Tx>>, ghost fork: nat)
    requires pool.Rest() && view.Reads(genesis, oldHead, newHead)
    modifies pool, pool.all, pool.priced, pool.pendingNonces
    ensures pool.Rest() && (view.lost == {} ==> r.Inject?)
    ensures r.Inject? <==> Rooted(view.s, view.lost, genesis, oldHead, newHead)
    ensures r == Unrooted || view.state == None ==>
              && pool.currentState == old(pool.currentState) && pool.all.txs == old(pool.all.txs)
              && pool.pending == old(pool.pending) && pool.queue == old(pool.queue)
    ensures r.Inject? && view.state.Some? ==>
              && pool.currentState == view.state.value && pool.currentMaxGas == view.maxGas
              && |results| == |r.txs| && |known| == |r.txs| + 1 && known[0] == old(pool.all.txs) && known[|r.txs|] == pool.all.txs
              && forall i :: 0 <= i < |r.txs| ==> Handled(known[i], view.txOf(r.txs[i]), results[i], known[i + 1])
    ensures Looks(view.s, oldHead, newHead) && r.Inject? ==>
              && IsFork(view.s, genesis, oldHead.value, newHead, fork)
              && IsDifference(view.s, genesis, view.bodies, oldHead.value, newHead, fork, r.txs)
    ensures !Looks(view.s, oldHead, newHead) ==> r == Inject([])
  {
    hide Closed, IsFork, IsDifference, Handled, TxPool.Rest, Looks, Rooted;
    var req;
    req, r, fork := MakeRequest(view, genesis, oldHead, newHead, pool.currentState);
    results, known := pool.Reset(req);
  }
}
