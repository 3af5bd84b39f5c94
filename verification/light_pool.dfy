/** The transaction pool of a light client: which of its own transactions are pending, which are
    mined in which block, and how a new head moves them. */
module LightPools {
  import opened BlockTrees
  import opened Collections

  /** Mined blocks below the head by more than this are taken to be permanent. */
  const TX_PERMANENT: nat := 500

  /** True: newly mined; false: rolled back; no entry: no change. */
  type Changes = map<TxId, bool>

  type Mined = map<Hash, seq<TxId>>

  // ----- The change map is a difference -----

  function SetState(txc: Changes, tx: TxId, mined: bool): Changes {
    if tx in txc && txc[tx] != mined then txc - {tx} else txc[tx := mined]
  }

  /** The map holds exactly the transactions that left the pending set, as mined, and those that
      entered it, as rolled back. */
  ghost predicate Diff(before: set<TxId>, after: set<TxId>, txc: Changes) {
    && (forall tx :: tx in txc <==> (tx in before) != (tx in after))
    && (forall tx :: tx in txc ==> (txc[tx] <==> tx in before))
  }

  /** The map leads from one pending set to the other, but may also report transactions as mined that
      were not pending before. */
  ghost predicate Reports(before: set<TxId>, after: set<TxId>, txc: Changes) {
    && (forall tx :: (tx in before) != (tx in after) ==> tx in txc)
    && (forall tx :: tx in txc ==> if txc[tx] then tx !in after else tx in after && tx !in before)
  }

  ghost predicate Spurious(before: set<TxId>, txc: Changes) {
    exists tx :: tx in txc && txc[tx] && tx !in before
  }

  lemma DiffIsExact(before: set<TxId>, after: set<TxId>, txc: Changes)
    ensures Diff(before, after, txc) <==> Reports(before, after, txc) && !Spurious(before, txc)
  {
  }

  /** Marking a transaction as mined, whether it is pending or not. */
  lemma ReportsMined(before: set<TxId>, after: set<TxId>, txc: Changes, tx: TxId)
    requires Reports(before, after, txc)
    ensures Reports(before, after - {tx}, SetState(txc, tx, true))
    ensures Spurious(before, SetState(txc, tx, true)) <==> Spurious(before, txc) || (tx !in after && tx !in before)
  {
    var txc' := SetState(txc, tx, true);
    if tx !in after && tx !in before {
      assert tx in txc' && txc'[tx];
    }
    if Spurious(before, txc) {
      var x :| x in txc && txc[x] && x !in before;
      assert x in txc' && txc'[x];
    }
  }

  lemma DiffRolledBack(before: set<TxId>, after: set<TxId>, txc: Changes, tx: TxId)
    requires Diff(before, after, txc) && tx !in after
    ensures Diff(before, after + {tx}, SetState(txc, tx, false))
  {
  }

  /** There is only one such map. */
  lemma DiffUnique(before: set<TxId>, after: set<TxId>, txc: Changes, txc': Changes)
    requires Diff(before, after, txc) && Diff(before, after, txc')
    ensures txc == txc'
  {
    assert forall tx :: tx in txc <==> tx in txc';
  }

  /** The pending transactions after the changes. */
  ghost function Apply(pending: set<TxId>, txc: Changes): set<TxId> {
    set tx | tx in pending + txc.Keys && (tx in txc ==> !txc[tx])
  }

  lemma ReportsApply(before: set<TxId>, after: set<TxId>, txc: Changes)
    requires Reports(before, after, txc)
    ensures Apply(before, txc) == after
  {
  }

  // ----- Lists of transactions -----

  /** Makes the transactions of a rolled back block pending again. */
  method Unmine(list: seq<TxId>, pending: set<TxId>, txc: Changes, ghost before: set<TxId>)
    returns (pending': set<TxId>, txc': Changes)
    requires Diff(before, pending, txc) && Distinct(list) && Members(list) !! pending
    ensures pending' == pending + Members(list) && Diff(before, pending', txc')
  {
    hide Diff;
    pending', txc' := pending, txc;
    for i := 0 to |list|
      invariant pending' == pending + Members(list[..i]) && Diff(before, pending', txc')
    {
      MembersStep(list, i);
      assert list[i] in Members(list);
      DiffRolledBack(before, pending', txc', list[i]);
      pending' := pending' + {list[i]};
      txc' := SetState(txc', list[i], false);
      assert pending' == pending + Members(list[..i + 1]);
    }
    assert list[..|list|] == list;
  }

  /** Takes the transactions of a new block out of the pending ones. */
  method Mine(list: seq<TxId>, pending: set<TxId>, txc: Changes, ghost before: set<TxId>)
    returns (pending': set<TxId>, txc': Changes)
    requires Reports(before, pending, txc) && Distinct(list)
    ensures pending' == pending - Members(list) && Reports(before, pending', txc')
    ensures Spurious(before, txc') <==> Spurious(before, txc) || !(Members(list) <= pending + before)
  {
    hide Reports, Spurious;
    pending', txc' := pending, txc;
    for i := 0 to |list|
      invariant pending' == pending - Members(list[..i]) && Reports(before, pending', txc')
      invariant Spurious(before, txc') <==> Spurious(before, txc) || !(Members(list[..i]) <= pending + before)
    {
      MembersStep(list, i);
      ReportsMined(before, pending', txc', list[i]);
      pending' := pending' - {list[i]};
      txc' := SetState(txc', list[i], true);
      assert pending' == pending - Members(list[..i + 1]);
    }
    assert list[..|list|] == list;
  }

  /** Appends the pending transactions of a block to a list. */
  method Gather(body: seq<TxId>, pending: set<TxId>) returns (list: seq<TxId>)
    ensures Members(list) == Members(body) * pending
    ensures Distinct(body) ==> Distinct(list)
  {
    list := [];
    for i := 0 to |body|
      invariant Members(list) == Members(body[..i]) * pending
      invariant Distinct(body) ==> Distinct(list)
    {
      MembersStep(body, i);
      if body[i] in pending {
        assert Distinct(body) ==> body[i] !in Members(list);
        MembersAppend(list, body[i]);
        list := list + [body[i]];
      }
    }
    assert body[..|body|] == body;
  }

  // ----- What the pool keeps -----

  function MinedIn(mined: Mined, h: Hash): seq<TxId> {
    if h in mined then mined[h] else []
  }

  /** No transaction is both pending and mined, or mined twice, or mined in a block without it. */
  ghost predicate Tidy(pending: set<TxId>, mined: Mined, bodies: Bodies) {
    Listed(mined, bodies) && MinedApart(pending, mined, bodies) && MinedOnce(mined)
  }

  ghost predicate Listed(mined: Mined, bodies: Bodies) {
    forall h :: h in mined ==> h in bodies && Distinct(mined[h]) && |mined[h]| > 0
  }

  ghost predicate MinedApart(pending: set<TxId>, mined: Mined, bodies: Bodies)
    requires Listed(mined, bodies)
  {
    forall h :: h in mined ==> Members(mined[h]) !! pending && Members(mined[h]) <= Members(bodies[h])
  }

  ghost predicate MinedOnce(mined: Mined) {
    forall h, k :: h in mined && k in mined && h != k ==> Members(mined[h]) !! Members(mined[k])
  }

  ghost function AllMined(mined: Mined): set<TxId> {
    set h, tx | h in mined && tx in Members(mined[h]) :: tx
  }

  /** The blocks with mined transactions are on the path of the head. */
  ghost predicate OnPath(s: Headers, genesis: Hash, mined: Mined, head: Hash)
    requires Closed(s, genesis) && head in s
  {
    forall h :: h in mined ==>
      h in s && s[h].number <= s[head].number && Ancestor(s, genesis, head, s[h].number) == h
  }

  ghost predicate BodiesOk(s: Headers, bodies: Bodies) {
    bodies.Keys == s.Keys && forall h :: h in bodies ==> Distinct(bodies[h])
  }

  lemma TidyRoll(pending: set<TxId>, mined: Mined, bodies: Bodies, h: Hash)
    requires Tidy(pending, mined, bodies)
    ensures Distinct(MinedIn(mined, h)) && Members(MinedIn(mined, h)) !! pending
    ensures Tidy(pending + Members(MinedIn(mined, h)), mined - {h}, bodies)
    ensures AllMined(mined) == AllMined(mined - {h}) + Members(MinedIn(mined, h))
  {
    hide AllMined, Distinct, Members;
    AllMinedLess(mined, h);
    if h !in mined {
      NoMembers<TxId>();
      assert mined - {h} == mined;
    }
  }

  lemma TidyClear(pending: set<TxId>, mined: Mined, bodies: Bodies, h: Hash)
    requires Tidy(pending, mined, bodies)
    ensures Tidy(pending, mined - {h}, bodies)
  {
    hide Members;
  }

  /** Adding what is pending in a block to what is listed for it. */
  lemma TidyMine(pending: set<TxId>, mined: Mined, bodies: Bodies, h: Hash, found: seq<TxId>)
    requires Tidy(pending, mined, bodies) && h in bodies && |MinedIn(mined, h) + found| > 0
    requires Distinct(found) && Members(found) == Members(bodies[h]) * pending
    ensures var list := MinedIn(mined, h) + found;
            && Distinct(list) && Members(list) == Members(MinedIn(mined, h)) + Members(found)
            && Tidy(pending - Members(found), mined[h := list], bodies)
            && AllMined(mined[h := list]) == AllMined(mined) + Members(found)
  {
    var list := MinedIn(mined, h) + found;
    TidyRoll(pending, mined, bodies, h);
    assert Members(list) == Members(MinedIn(mined, h)) + Members(found);
    DistinctJoin(MinedIn(mined, h), found);
    hide AllMined, Members, Distinct;
    AllMinedMore(mined - {h}, h, list);
    assert (mined - {h})[h := list] == mined[h := list];
    if h !in mined {
      NoMembers<TxId>();
    }
  }

  lemma DistinctJoin(a: seq<TxId>, b: seq<TxId>)
    requires Distinct(a) && Distinct(b) && Members(a) !! Members(b)
    ensures Distinct(a + b)
  {
    forall i, j | 0 <= i < j < |a + b|
      ensures (a + b)[i] != (a + b)[j]
    {
      if i < |a| <= j {
        assert a[i] in Members(a) && b[j - |a|] in Members(b);
      }
    }
  }

  lemma AllMinedLess(mined: Mined, h: Hash)
    ensures AllMined(mined) == AllMined(mined - {h}) + Members(MinedIn(mined, h))
  {
    if h in mined {
      AllMinedMore(mined - {h}, h, mined[h]);
      assert (mined - {h})[h := mined[h]] == mined;
    } else {
      assert mined - {h} == mined;
    }
  }

  lemma AllMinedMore(mined: Mined, h: Hash, list: seq<TxId>)
    requires h !in mined
    ensures AllMined(mined[h := list]) == AllMined(mined) + Members(list)
  {
    hide Members;
    var mined' := mined[h := list];
    forall tx | tx in AllMined(mined')
      ensures tx in AllMined(mined) + Members(list)
    {
      var k :| k in mined' && tx in Members(mined'[k]);
      assert k == h || (k in mined && tx in Members(mined[k]));
    }
    forall tx | tx in AllMined(mined)
      ensures tx in AllMined(mined')
    {
      var k :| k in mined && tx in Members(mined[k]);
      assert k in mined' && tx in Members(mined'[k]);
    }
    assert h in mined' && mined'[h] == list;
  }

  /** A longer chain keeps everything the pool knows about the shorter one. */
  lemma OnPathGrows(s: Headers, s': Headers, genesis: Hash, mined: Mined, head: Hash)
    requires Closed(s, genesis) && Closed(s', genesis) && head in s && OnPath(s, genesis, mined, head)
    requires forall k :: k in s ==> k in s' && s'[k] == s[k]
    ensures OnPath(s', genesis, mined, head)
  {
    forall h | h in mined
      ensures h in s' && s'[h].number <= s'[head].number && Ancestor(s', genesis, head, s'[h].number) == h
    {
      GrowAncestor(s, s', genesis, head, s[h].number);
    }
  }

  // ----- Finding the common ancestor -----

  /** How the search for the common ancestor ends: where the branches meet, below a header of the
      new branch whose parent is not known, or with a crash on the old branch. */
  datatype Search = Met | Gap | Crashed

  ghost predicate AllMet(searches: seq<Search>) {
    forall i :: 0 <= i < |searches| ==> searches[i] == Met
  }

  lemma MetNext(searches: seq<Search>, search: Search)
    ensures AllMet(searches + [search]) <==> AllMet(searches) && search == Met
  {
    assert (searches + [search])[|searches|] == search;
    assert forall i :: 0 <= i < |searches| ==> (searches + [search])[i] == searches[i];
  }

  function Lesser(a: nat, b: nat): nat {
    if a <= b then a else b
  }

  /** No header on the path of `head` is missing. */
  ghost predicate Intact(s: Headers, genesis: Hash, missing: set<Hash>, head: Hash)
    requires Closed(s, genesis) && head in s
  {
    forall n: nat :: n <= s[head].number ==> Ancestor(s, genesis, head, n) !in missing
  }

  /** A header below `head` and above number `lo` is missing. */
  ghost predicate Hidden(s: Headers, genesis: Hash, missing: set<Hash>, head: Hash, lo: nat)
    requires Closed(s, genesis) && head in s
  {
    exists n: nat :: lo < n < s[head].number && Ancestor(s, genesis, head, n) in missing
  }

  /** Steps back whichever side is ahead, or both, until they meet. The headers in `missing` are not
      known while syncing from a checkpoint. The new branch is collected down to number `from`. With
      all headers of the old branch known, there is a gap exactly if one of the new branch above
      the fork is missing; the search stops at the highest one. */
  method FindFork(s: Headers, missing: set<Hash>, ghost genesis: Hash, oldHead: Hash, newHead: Hash)
    returns (search: Search, oldHashes: seq<Hash>, newHashes: seq<Hash>, r: Hash, ghost from: nat)
    requires Closed(s, genesis) && oldHead in s && newHead in s
    ensures search != Crashed ==>
              && r in s && s[r].number <= s[oldHead].number && r == Ancestor(s, genesis, oldHead, s[r].number)
              && IsBranch(s, genesis, oldHashes, oldHead, s[r].number) && IsBranch(s, genesis, newHashes, newHead, from)
    ensures search == Met ==> from == s[r].number == ForkNumber(s, genesis, oldHead, newHead)
    ensures search == Gap ==>
              && from < s[newHead].number && Ancestor(s, genesis, newHead, from) in missing
              && !Hidden(s, genesis, missing, newHead, from) && ForkNumber(s, genesis, oldHead, newHead) <= from
              && s[r].number == Lesser(s[oldHead].number, from)
    ensures Intact(s, genesis, missing, oldHead) ==>
              && search != Crashed
              && (search == Gap <==> Hidden(s, genesis, missing, newHead, ForkNumber(s, genesis, oldHead, newHead)))
    ensures missing == {} ==> search == Met
  {
    hide Closed, Ancestor, ForkNumber;
    ghost var fork := ForkNumber(s, genesis, oldHead, newHead);
    oldHashes, newHashes, search, r, from := [], [], Met, oldHead, 0;
    AncestorSelf(s, genesis, oldHead);
    AncestorSelf(s, genesis, newHead);
    if oldHead in missing {
      return Crashed, oldHashes, newHashes, r, from;
    }
    var o, n := oldHead, newHead;
    while o != n
      invariant o in s && n in s && fork <= s[o].number <= s[oldHead].number && fork <= s[n].number <= s[newHead].number
      invariant o == Ancestor(s, genesis, oldHead, s[o].number) && n == Ancestor(s, genesis, newHead, s[n].number)
      invariant IsBranch(s, genesis, oldHashes, oldHead, s[o].number)
      invariant IsBranch(s, genesis, newHashes, newHead, s[n].number)
      invariant s[o].number == s[oldHead].number || s[o].number >= s[n].number
      invariant forall k: nat :: s[n].number <= k < s[newHead].number ==> Ancestor(s, genesis, newHead, k) !in missing
      decreases s[o].number + s[n].number
    {
      ParentStored(s, genesis, o);
      ParentStored(s, genesis, n);
      if s[o].number >= s[n].number {
        AncestorParent(s, genesis, oldHead, s[o].number - 1);
        oldHashes := oldHashes + [o];
        o := s[o].parent;
        if o in missing {
          return Crashed, oldHashes, newHashes, r, from;
        }
      }
      if s[o].number < s[n].number {
        AncestorParent(s, genesis, newHead, s[n].number - 1);
        newHashes := newHashes + [n];
        n := s[n].parent;
        if n in missing {
          return Gap, oldHashes, newHashes, o, s[n].number;
        }
      }
    }
    SameBelowFork(s, genesis, oldHead, newHead, fork, s[o].number);
    r, from := o, s[o].number;
  }

  // ----- Rolling back -----

  /** `h` is on the path of `head`, above number `lo`. */
  ghost predicate OnBranch(s: Headers, genesis: Hash, head: Hash, lo: int, h: Hash)
    requires Closed(s, genesis) && head in s
  {
    h in s && lo < s[h].number <= s[head].number && Ancestor(s, genesis, head, s[h].number) == h
  }

  /** The mined blocks without those of a branch. */
  ghost function KeptOff(s: Headers, genesis: Hash, mined: Mined, head: Hash, m: nat): Mined
    requires Closed(s, genesis) && head in s
  {
    map h | h in mined && !OnBranch(s, genesis, head, m, h) :: mined[h]
  }

  /** The transactions mined in blocks of a branch. */
  ghost function MinedOn(s: Headers, genesis: Hash, mined: Mined, head: Hash, m: nat): set<TxId>
    requires Closed(s, genesis) && head in s
  {
    set h, tx | h in mined && OnBranch(s, genesis, head, m, h) && tx in mined[h] :: tx
  }

  lemma RollStart(s: Headers, genesis: Hash, mined: Mined, head: Hash)
    requires Closed(s, genesis) && head in s
    ensures KeptOff(s, genesis, mined, head, s[head].number) == mined && MinedOn(s, genesis, mined, head, s[head].number) == {}
  {
    hide Closed, Ancestor;
  }

  lemma RollStep(s: Headers, genesis: Hash, mined: Mined, head: Hash, b: Hash, m: nat)
    requires Closed(s, genesis) && head in s && m < s[head].number && b == Ancestor(s, genesis, head, m + 1)
    ensures KeptOff(s, genesis, mined, head, m) == KeptOff(s, genesis, mined, head, m + 1) - {b}
    ensures MinedOn(s, genesis, mined, head, m) ==
              MinedOn(s, genesis, mined, head, m + 1) + Members(MinedIn(KeptOff(s, genesis, mined, head, m + 1), b))
  {
    hide Closed, Ancestor;
    assert forall h :: OnBranch(s, genesis, head, m, h) <==> OnBranch(s, genesis, head, m + 1, h) || h == b;
    assert !OnBranch(s, genesis, head, m + 1, b);
    hide OnBranch;
    assert forall tx :: tx in Members(MinedIn(KeptOff(s, genesis, mined, head, m + 1), b)) <==> b in mined && tx in mined[b];
  }

  lemma RollEnd(s: Headers, genesis: Hash, mined: Mined, head: Hash, m: nat)
    requires Closed(s, genesis) && head in s && OnPath(s, genesis, mined, head) && m <= s[head].number
    ensures OnPath(s, genesis, KeptOff(s, genesis, mined, head, m), Ancestor(s, genesis, head, m))
  {
    hide Closed;
    forall h | h in KeptOff(s, genesis, mined, head, m)
      ensures s[h].number <= m && Ancestor(s, genesis, Ancestor(s, genesis, head, m), s[h].number) == h
    {
      AncestorTransitive(s, genesis, head, m, s[h].number);
    }
    hide Ancestor;
  }

  // ----- Mining -----

  /** The blocks with mined transactions are those of `mined0`, and blocks of the new branch above `lo`
      and up to `m`. */
  ghost predicate MinedUpTo(s: Headers, genesis: Hash, mined0: Mined, mined: Mined, newHead: Hash, lo: nat, m: nat)
    requires Closed(s, genesis) && newHead in s
  {
    forall h :: h in mined && h !in mined0 ==> OnBranch(s, genesis, newHead, lo, h) && s[h].number <= m
  }

  /** The lists of the blocks that have not been checked are still those of `mined0`. */
  ghost predicate Untouched(s: Headers, genesis: Hash, mined0: Mined, mined: Mined, newHead: Hash, lo: nat, m: nat)
    requires Closed(s, genesis) && newHead in s
  {
    forall h :: h in mined0 ==> h in mined && (!(OnBranch(s, genesis, newHead, lo, h) && s[h].number <= m) ==> mined[h] == mined0[h])
  }

  lemma MinedStart(s: Headers, genesis: Hash, mined: Mined, newHead: Hash, lo: nat)
    requires Closed(s, genesis) && newHead in s
    ensures MinedUpTo(s, genesis, mined, mined, newHead, lo, lo) && Untouched(s, genesis, mined, mined, newHead, lo, lo)
  {
    hide Closed, Ancestor;
  }

  /** The next block of the branch has the list it had in the beginning. */
  lemma NextUnchecked(s: Headers, genesis: Hash, mined0: Mined, mined: Mined, newHead: Hash, lo: nat, m: nat)
    requires Closed(s, genesis) && newHead in s && lo <= m < s[newHead].number
    requires MinedUpTo(s, genesis, mined0, mined, newHead, lo, m) && Untouched(s, genesis, mined0, mined, newHead, lo, m)
    ensures var next := Ancestor(s, genesis, newHead, m + 1);
            (next in mined <==> next in mined0) && MinedIn(mined, next) == MinedIn(mined0, next)
  {
    hide Closed, Ancestor;
  }

  lemma MinedStep(s: Headers, genesis: Hash, mined0: Mined, mined: Mined, mined': Mined, newHead: Hash, lo: nat, m: nat)
    requires Closed(s, genesis) && newHead in s && lo <= m < s[newHead].number
    requires MinedUpTo(s, genesis, mined0, mined, newHead, lo, m) && Untouched(s, genesis, mined0, mined, newHead, lo, m)
    requires forall h :: h in mined' ==> h in mined || h == Ancestor(s, genesis, newHead, m + 1)
    requires forall h :: h in mined ==> h in mined' && (h != Ancestor(s, genesis, newHead, m + 1) ==> mined'[h] == mined[h])
    ensures MinedUpTo(s, genesis, mined0, mined', newHead, lo, m + 1) && Untouched(s, genesis, mined0, mined', newHead, lo, m + 1)
  {
    hide Closed, Ancestor;
  }

  /** If what is left of the blocks below is on the path of the new branch, all are. */
  lemma MinedOnPath(s: Headers, genesis: Hash, mined0: Mined, mined: Mined, newHead: Hash, lo: nat, m: nat)
    requires Closed(s, genesis) && newHead in s && lo <= m <= s[newHead].number
    requires MinedUpTo(s, genesis, mined0, mined, newHead, lo, m)
    requires OnPath(s, genesis, Still(mined0, mined), Ancestor(s, genesis, newHead, m))
    ensures OnPath(s, genesis, mined, Ancestor(s, genesis, newHead, m))
  {
    hide Closed;
    forall h | h in mined && h !in mined0
      ensures h in s && s[h].number <= m && Ancestor(s, genesis, Ancestor(s, genesis, newHead, m), s[h].number) == h
    {
      AncestorTransitive(s, genesis, newHead, m, s[h].number);
    }
    hide Ancestor;
    assert forall h :: h in mined && h in mined0 ==> h in Still(mined0, mined);
  }

  lemma OnPathHigher(s: Headers, genesis: Hash, mined: Mined, newHead: Hash, lo: nat, m: nat)
    requires Closed(s, genesis) && newHead in s && lo <= m <= s[newHead].number
    requires OnPath(s, genesis, mined, Ancestor(s, genesis, newHead, lo))
    ensures OnPath(s, genesis, mined, Ancestor(s, genesis, newHead, m))
  {
    hide Closed;
    forall h | h in mined
      ensures s[h].number <= m && Ancestor(s, genesis, Ancestor(s, genesis, newHead, m), s[h].number) == h
    {
      AncestorTransitive(s, genesis, newHead, lo, s[h].number);
      AncestorTransitive(s, genesis, newHead, m, s[h].number);
    }
    hide Ancestor;
  }

  /** The pending transactions of a light pool after its head moved up to number `m`. */
  ghost predicate PendingAt(s: Headers, genesis: Hash, bodies: Bodies, start: set<TxId>, pending: set<TxId>, newHead: Hash,
                            fork: nat, m: nat)
    requires Closed(s, genesis) && newHead in s && bodies.Keys == s.Keys
  {
    forall tx :: tx in pending <==> tx in start && !InBranch(s, genesis, bodies, newHead, fork, m, tx)
  }

  lemma PendingStart(s: Headers, genesis: Hash, bodies: Bodies, start: set<TxId>, newHead: Hash, fork: nat)
    requires Closed(s, genesis) && newHead in s && bodies.Keys == s.Keys
    ensures PendingAt(s, genesis, bodies, start, start, newHead, fork, fork)
  {
  }

  lemma PendingWithin(s: Headers, genesis: Hash, bodies: Bodies, start: set<TxId>, pending: set<TxId>, newHead: Hash, fork: nat, m: nat)
    requires Closed(s, genesis) && newHead in s && bodies.Keys == s.Keys
    requires PendingAt(s, genesis, bodies, start, pending, newHead, fork, m)
    ensures pending <= start
  {
  }

  lemma PendingStep(s: Headers, genesis: Hash, bodies: Bodies, start: set<TxId>, pending: set<TxId>, newHead: Hash,
                    fork: nat, m: nat)
    requires Closed(s, genesis) && newHead in s && bodies.Keys == s.Keys && fork <= m < s[newHead].number
    requires PendingAt(s, genesis, bodies, start, pending, newHead, fork, m)
    ensures PendingAt(s, genesis, bodies, start, pending - Members(bodies[Ancestor(s, genesis, newHead, m + 1)]),
                      newHead, fork, m + 1)
  {
    hide Closed, Ancestor;
    forall tx
      ensures InBranch(s, genesis, bodies, newHead, fork, m + 1, tx) <==>
                InBranch(s, genesis, bodies, newHead, fork, m, tx) || HeldAt(s, genesis, bodies, newHead, tx, m + 1)
    {
      InBranchStep(s, genesis, bodies, newHead, fork, m + 1, tx);
    }
  }

  /** Block `n` of the new branch is checked while something is pending, although it is recorded as mined. */
  ghost predicate Relisted(s: Headers, genesis: Hash, bodies: Bodies, start: set<TxId>, kept: Mined, newHead: Hash, lo: nat, n: nat)
    requires Closed(s, genesis) && newHead in s && bodies.Keys == s.Keys
  {
    && lo < n <= s[newHead].number && Ancestor(s, genesis, newHead, n) in kept
    && exists tx :: tx in start && !InBranch(s, genesis, bodies, newHead, lo, n - 1, tx)
  }

  ghost predicate AnyRelisted(s: Headers, genesis: Hash, bodies: Bodies, start: set<TxId>, kept: Mined, newHead: Hash, lo: nat, m: nat)
    requires Closed(s, genesis) && newHead in s && bodies.Keys == s.Keys
  {
    exists n: nat :: n <= m && Relisted(s, genesis, bodies, start, kept, newHead, lo, n)
  }

  lemma RelistedStart(s: Headers, genesis: Hash, bodies: Bodies, start: set<TxId>, kept: Mined, newHead: Hash, lo: nat)
    requires Closed(s, genesis) && newHead in s && bodies.Keys == s.Keys
    ensures !AnyRelisted(s, genesis, bodies, start, kept, newHead, lo, lo)
  {
    hide Closed, Ancestor, InBranch;
  }

  lemma RelistedStep(s: Headers, genesis: Hash, bodies: Bodies, start: set<TxId>, kept: Mined, pending: set<TxId>, newHead: Hash,
                     lo: nat, m: nat)
    requires Closed(s, genesis) && newHead in s && bodies.Keys == s.Keys && lo <= m < s[newHead].number
    requires PendingAt(s, genesis, bodies, start, pending, newHead, lo, m)
    ensures AnyRelisted(s, genesis, bodies, start, kept, newHead, lo, m + 1) <==>
              || AnyRelisted(s, genesis, bodies, start, kept, newHead, lo, m)
              || (pending != {} && Ancestor(s, genesis, newHead, m + 1) in kept)
  {
    hide Closed, Ancestor, InBranch;
    assert Relisted(s, genesis, bodies, start, kept, newHead, lo, m + 1) <==>
           pending != {} && Ancestor(s, genesis, newHead, m + 1) in kept by {
      if pending != {} {
        var tx :| tx in pending;
      }
    }
    hide Relisted;
  }

  /** Blocks that are not above the lower end are not listed again. */
  lemma NoneRelisted(s: Headers, genesis: Hash, bodies: Bodies, start: set<TxId>, kept: Mined, newHead: Hash, r: Hash, lo: nat, m: nat)
    requires Closed(s, genesis) && newHead in s && bodies.Keys == s.Keys && r in s && s[r].number <= lo
    requires OnPath(s, genesis, kept, r)
    ensures !AnyRelisted(s, genesis, bodies, start, kept, newHead, lo, m)
  {
    hide Closed, Ancestor, InBranch;
  }

  /** The blocks with mined transactions are not below the index from which clearing goes on. */
  ghost predicate NoneBelow(s: Headers, mined: Mined, clearIdx: nat) {
    forall h :: h in mined ==> h in s && s[h].number >= clearIdx
  }

  lemma KeysAgree(s: Headers, bodies: Bodies)
    requires BodiesOk(s, bodies)
    ensures bodies.Keys == s.Keys
  {
  }

  /** The canonical index holds the ancestors of the head. */
  ghost predicate Follows(s: Headers, genesis: Hash, canon: map<nat, Hash>, head: Hash)
    requires Closed(s, genesis) && head in s
  {
    forall n: nat :: n <= s[head].number ==> ReadCanonicalHash(canon, n) == Ancestor(s, genesis, head, n)
  }

  /** The block is canonical, with a number from `lo` up to `hi`. */
  ghost predicate Buried(canon: map<nat, Hash>, lo: nat, hi: nat, h: Hash) {
    exists i: nat :: lo <= i < hi && h == ReadCanonicalHash(canon, i)
  }

  /** The buried blocks are gone, and nothing else has changed. */
  ghost predicate ClearedRange(mined: Mined, mined': Mined, canon: map<nat, Hash>, lo: nat, hi: nat) {
    && (forall h :: h in mined' <==> h in mined && !Buried(canon, lo, hi, h))
    && (forall h :: h in mined' ==> mined'[h] == mined[h])
  }

  lemma ClearedRangeNone(mined: Mined, canon: map<nat, Hash>, lo: nat)
    ensures ClearedRange(mined, mined, canon, lo, lo)
  {
  }

  lemma NothingToClear(mined: Mined, canon: map<nat, Hash>, lo: nat, hi: nat)
    requires |mined| == 0
    ensures ClearedRange(mined, mined, canon, lo, hi)
  {
  }

  lemma BuriedStep(canon: map<nat, Hash>, lo: nat, i: nat, h: Hash)
    requires lo <= i
    ensures Buried(canon, lo, i + 1, h) <==> Buried(canon, lo, i, h) || h == ReadCanonicalHash(canon, i)
  {
    if Buried(canon, lo, i + 1, h) {
      var k: nat :| lo <= k < i + 1 && h == ReadCanonicalHash(canon, k);
      assert k == i || k < i;
    }
  }

  lemma ClearedRangeStep(mined: Mined, mined': Mined, canon: map<nat, Hash>, lo: nat, i: nat)
    requires ClearedRange(mined, mined', canon, lo, i) && lo <= i
    ensures ClearedRange(mined, mined' - {ReadCanonicalHash(canon, i)}, canon, lo, i + 1)
  {
    forall h
      ensures Buried(canon, lo, i + 1, h) <==> Buried(canon, lo, i, h) || h == ReadCanonicalHash(canon, i)
    {
      BuriedStep(canon, lo, i, h);
    }
  }

  method ClearBlocks(mined: Mined, canon: map<nat, Hash>, lo: nat, hi: nat, ghost pending: set<TxId>, ghost bodies: Bodies)
    returns (mined': Mined, discarded: set<TxId>)
    requires Tidy(pending, mined, bodies) && lo <= hi
    ensures Tidy(pending, mined', bodies) && ClearedRange(mined, mined', canon, lo, hi)
    ensures AllMined(mined') + discarded == AllMined(mined)
  {
    hide Tidy, AllMined, Members, ClearedRange;
    mined', discarded := mined, {};
    ClearedRangeNone(mined, canon, lo);
    for i := lo to hi
      invariant Tidy(pending, mined', bodies) && ClearedRange(mined, mined', canon, lo, i)
      invariant AllMined(mined') + discarded == AllMined(mined)
    {
      var hash := ReadCanonicalHash(canon, i);
      ClearedRangeStep(mined, mined', canon, lo, i);
      if hash in mined' {
        TidyRoll(pending, mined', bodies, hash);
        TidyClear(pending, mined', bodies, hash);
        discarded := discarded + Members(mined'[hash]);
        mined' := mined' - {hash};
      } else {
        assert mined' - {hash} == mined';
      }
    }
  }

  lemma ClearedOnPath(s: Headers, genesis: Hash, mined: Mined, mined': Mined, canon: map<nat, Hash>, head: Hash, lo: nat, hi: nat)
    requires Closed(s, genesis) && head in s && OnPath(s, genesis, mined, head) && ClearedRange(mined, mined', canon, lo, hi)
    ensures OnPath(s, genesis, mined', head)
    ensures NoneBelow(s, mined, lo) && Follows(s, genesis, canon, head) ==> NoneBelow(s, mined', hi)
  {
    hide Closed, Ancestor;
    forall h | h in mined && lo <= s[h].number < hi && Follows(s, genesis, canon, head)
      ensures Buried(canon, lo, hi, h)
    {
      assert h == ReadCanonicalHash(canon, s[h].number);
    }
  }

  lemma NoneBelowLess(s: Headers, mined: Mined, clearIdx: nat, fork: nat)
    ensures NoneBelow(s, mined, clearIdx) && fork < clearIdx ==> NoneBelow(s, mined, fork)
  {
  }

  lemma NoneBelowKept(s: Headers, genesis: Hash, mined: Mined, head: Hash, m: nat, clearIdx: nat)
    requires Closed(s, genesis) && head in s
    ensures NoneBelow(s, mined, clearIdx) ==> NoneBelow(s, KeptOff(s, genesis, mined, head, m), clearIdx)
  {
    hide Closed, Ancestor;
  }

  lemma NoneBelowMore(s: Headers, genesis: Hash, mined0: Mined, mined: Mined, newHead: Hash, lo: nat, m: nat, clearIdx: nat)
    requires Closed(s, genesis) && newHead in s && clearIdx <= lo && MinedUpTo(s, genesis, mined0, mined, newHead, lo, m)
    ensures NoneBelow(s, mined0, clearIdx) ==> NoneBelow(s, mined, clearIdx)
  {
  }

  lemma MinedLess(s: Headers, genesis: Hash, mined0: Mined, mined: Mined, mined': Mined, newHead: Hash, lo: nat, m: nat,
                  canon: map<nat, Hash>, i: nat, j: nat)
    requires Closed(s, genesis) && newHead in s && MinedUpTo(s, genesis, mined0, mined, newHead, lo, m)
    requires ClearedRange(mined, mined', canon, i, j)
    ensures MinedUpTo(s, genesis, mined0, mined', newHead, lo, m) && forall h :: h in mined' ==> h in mined
  {
    hide Closed, Ancestor;
  }

  lemma BranchBelow(s: Headers, genesis: Hash, chain: seq<Hash>, h: Hash, n: nat)
    requires Closed(s, genesis) && h in s && IsBranch(s, genesis, chain, h, n)
    ensures n <= s[h].number
  {
  }

  /** The blocks that are left of those that were kept. */
  ghost function Still(kept: Mined, mined: Mined): Mined {
    map h | h in kept && h in mined :: kept[h]
  }

  /** The mined blocks are on the path of the head exactly if those that were kept are; and they are
      when the branches have met. */
  lemma BackOnPath(s: Headers, genesis: Hash, kept: Mined, mined: Mined, oldHead: Hash, newHead: Hash, search: Search,
                   fork: nat, from: nat, m: nat, head: Hash)
    requires Closed(s, genesis) && oldHead in s && newHead in s && fork <= from <= m <= s[newHead].number && fork <= s[oldHead].number
    requires search == Met ==> from == fork && IsFork(s, genesis, oldHead, newHead, fork)
    requires OnPath(s, genesis, kept, Ancestor(s, genesis, oldHead, fork))
    requires MinedUpTo(s, genesis, kept, mined, newHead, from, m) && (m == from ==> forall h :: h in mined ==> h in kept)
    requires head == if m == from then Ancestor(s, genesis, oldHead, fork) else Ancestor(s, genesis, newHead, m)
    ensures OnPath(s, genesis, mined, head) <==> OnPath(s, genesis, Still(kept, mined), head)
    ensures search == Met || m == from ==> OnPath(s, genesis, mined, head)
  {
    hide Closed, Ancestor, MinedUpTo;
    if m > from {
      if search == Met {
        OnPathHigher(s, genesis, kept, newHead, fork, m);
      }
      if OnPath(s, genesis, Still(kept, mined), head) {
        MinedOnPath(s, genesis, kept, mined, newHead, from, m);
      }
    }
  }

  lemma ArrivesAt(s: Headers, genesis: Hash, oldHead: Hash, newHead: Hash, search: Search, fork: nat, from: nat, m: nat, head: Hash)
    requires Closed(s, genesis) && oldHead in s && newHead in s && fork <= from <= m <= s[newHead].number && fork <= s[oldHead].number
    requires if search == Met then from == fork && IsFork(s, genesis, oldHead, newHead, fork) else from < s[newHead].number
    requires head == if m == from then Ancestor(s, genesis, oldHead, fork) else Ancestor(s, genesis, newHead, m)
    ensures head in s && (m == s[newHead].number ==> head == newHead)
    ensures search == Met ==> head == Ancestor(s, genesis, newHead, m)
  {
    hide Closed, Ancestor;
    AncestorSelf(s, genesis, newHead);
  }

  /** Every mined block between the true fork and the place where the search ended is buried. */
  ghost predicate NoneStranded(s: Headers, mined: Mined, low: nat, high: nat, canon: map<nat, Hash>, lo: nat, hi: nat) {
    forall h :: h in mined && h in s && low < s[h].number <= high ==> Buried(canon, lo, hi, h)
  }

  /** After a gap the mined blocks are on the path of the new head exactly if none is stranded. */
  lemma StrandedOffPath(s: Headers, genesis: Hash, mined0: Mined, mined: Mined, oldHead: Hash, newHead: Hash,
                        low: nat, fork: nat, from: nat, m: nat, canon: map<nat, Hash>, lo: nat, hi: nat)
    requires Closed(s, genesis) && oldHead in s && newHead in s && IsFork(s, genesis, oldHead, newHead, low)
    requires fork <= from < m <= s[newHead].number && fork <= s[oldHead].number && OnPath(s, genesis, mined0, oldHead)
    requires forall h :: h in KeptOff(s, genesis, mined0, oldHead, fork) ==> (h in mined <==> !Buried(canon, lo, hi, h))
    ensures OnPath(s, genesis, Still(KeptOff(s, genesis, mined0, oldHead, fork), mined), Ancestor(s, genesis, newHead, m)) <==>
              NoneStranded(s, mined0, low, fork, canon, lo, hi)
  {
    hide Closed, Ancestor, IsFork, Buried;
    var kept := KeptOff(s, genesis, mined0, oldHead, fork);
    var head := Ancestor(s, genesis, newHead, m);
    forall h | h in mined0
      ensures h in kept <==> s[h].number <= fork
      ensures h in kept ==> (Ancestor(s, genesis, head, s[h].number) == h <==> s[h].number <= low)
    {
      if s[h].number <= fork {
        AncestorTransitive(s, genesis, newHead, m, s[h].number);
        SameBelowFork(s, genesis, oldHead, newHead, low, s[h].number);
      }
    }
  }

  /** What is left of the old blocks when the branch has been checked. */
  lemma CheckedOnPath(s: Headers, genesis: Hash, mined0: Mined, kept: Mined, mined: Mined, oldHead: Hash, newHead: Hash, search: Search,
                      fork: nat, from: nat, m: nat, head: Hash)
    requires Closed(s, genesis) && oldHead in s && newHead in s && fork <= from <= m <= s[newHead].number && fork <= s[oldHead].number
    requires search == Met ==> from == fork && IsFork(s, genesis, oldHead, newHead, fork)
    requires kept == KeptOff(s, genesis, mined0, oldHead, fork) && MinedUpTo(s, genesis, kept, mined, newHead, from, m)
    requires m == from ==> mined == kept
    requires head == if m == from then Ancestor(s, genesis, oldHead, fork) else Ancestor(s, genesis, newHead, m)
    ensures search == Met && OnPath(s, genesis, mined0, oldHead) ==> OnPath(s, genesis, mined, head)
  {
    hide Closed, Ancestor, MinedUpTo, OnPath, KeptOff, IsFork, Still;
    if OnPath(s, genesis, mined0, oldHead) {
      RollEnd(s, genesis, mined0, oldHead, fork);
      BackOnPath(s, genesis, kept, mined, oldHead, newHead, search, fork, from, m, head);
    }
  }

  /** What is left of them after clearing, and when the mined blocks are on the path of the head. */
  lemma AfterClearing(s: Headers, genesis: Hash, mined0: Mined, kept: Mined, checked: Mined, mined: Mined, oldHead: Hash, newHead: Hash,
                      search: Search, low: nat, fork: nat, from: nat, m: nat, head: Hash, canon: map<nat, Hash>, lo: nat, hi: nat)
    requires Closed(s, genesis) && oldHead in s && newHead in s && fork <= from <= m <= s[newHead].number && fork <= s[oldHead].number
    requires IsFork(s, genesis, oldHead, newHead, low) && (search == Met ==> from == fork == low)
    requires kept == KeptOff(s, genesis, mined0, oldHead, fork) && MinedUpTo(s, genesis, kept, checked, newHead, from, m)
    requires Untouched(s, genesis, kept, checked, newHead, from, m) && (m == from ==> checked == kept)
    requires ClearedRange(checked, mined, canon, lo, hi)
    requires head == if m == from then Ancestor(s, genesis, oldHead, fork) else Ancestor(s, genesis, newHead, m)
    ensures forall h :: h in kept ==> (h in mined <==> !Buried(canon, lo, hi, h))
    ensures OnPath(s, genesis, mined0, oldHead) ==>
              (OnPath(s, genesis, mined, head) <==> search == Met || m == from || NoneStranded(s, mined0, low, fork, canon, lo, hi))
  {
    hide Closed, Ancestor, MinedUpTo, OnPath, KeptOff, IsFork, Still, Buried, NoneStranded;
    assert forall h :: h in kept ==> (h in mined <==> !Buried(canon, lo, hi, h)) by {
      hide OnBranch;
    }
    MinedLess(s, genesis, kept, checked, mined, newHead, from, m, canon, lo, hi);
    hide Untouched, ClearedRange;
    if OnPath(s, genesis, mined0, oldHead) {
      RollEnd(s, genesis, mined0, oldHead, fork);
      BackOnPath(s, genesis, kept, mined, oldHead, newHead, search, fork, from, m, head);
      if m > from {
        StrandedOffPath(s, genesis, mined0, mined, oldHead, newHead, low, fork, from, m, canon, lo, hi);
      }
    }
  }

  /** No listed transaction is among the given ones. */
  ghost predicate ApartFrom(mined: Mined, txs: set<TxId>) {
    forall h :: h in mined ==> Members(mined[h]) !! txs
  }

  lemma KeptApart(s: Headers, genesis: Hash, pending: set<TxId>, mined: Mined, bodies: Bodies, head: Hash, m: nat)
    requires Closed(s, genesis) && head in s && Tidy(pending, mined, bodies)
    ensures ApartFrom(KeptOff(s, genesis, mined, head, m), pending)
  {
    hide Closed, Ancestor, Members, OnBranch;
  }

  /** What is listed for a block was not pending before the event. */
  lemma ListedApart(pending: set<TxId>, mined: Mined, bodies: Bodies, before: set<TxId>, h: Hash)
    requires Tidy(pending, mined, bodies) && ApartFrom(mined, before)
    ensures Members(MinedIn(mined, h)) <= before <==> h !in mined
  {
    if h in mined {
      EmptyMembers(mined[h]);
    }
  }

  lemma ListNonEmpty(pending: set<TxId>, mined: Mined, bodies: Bodies, h: Hash)
    requires Tidy(pending, mined, bodies)
    ensures |MinedIn(mined, h)| > 0 <==> h in mined
  {
  }

  lemma NoDiff(pending: set<TxId>)
    ensures Diff(pending, pending, map[])
  {
  }

  lemma NoneFound(pending: set<TxId>, body: seq<TxId>, list: seq<TxId>)
    requires Members(list) == Members(body) * pending
    ensures pending - Members(list) == pending - Members(body)
  {
  }

  // ----- What is pending, in terms of the chain -----

  /** No pending transaction is in a block on the path of the head. */
  ghost predicate Unmined(s: Headers, genesis: Hash, bodies: Bodies, pending: set<TxId>, head: Hash)
    requires Closed(s, genesis) && head in s && bodies.Keys == s.Keys
  {
    forall tx, n :: tx in pending ==> !HeldAt(s, genesis, bodies, head, tx, n)
  }

  /** Of the transactions known to the pool, exactly those in no block on the path of the head are
      pending. */
  ghost predicate Classified(s: Headers, genesis: Hash, bodies: Bodies, pending: set<TxId>, mined: Mined, head: Hash)
    requires Closed(s, genesis) && head in s && bodies.Keys == s.Keys
  {
    forall tx :: tx in pending + AllMined(mined) ==>
      (tx in pending <==> !InBranch(s, genesis, bodies, head, -1, s[head].number, tx))
  }

  lemma UnminedClassifies(s: Headers, genesis: Hash, bodies: Bodies, pending: set<TxId>, mined: Mined, head: Hash)
    requires Closed(s, genesis) && head in s && bodies.Keys == s.Keys
    requires Tidy(pending, mined, bodies) && OnPath(s, genesis, mined, head) && Unmined(s, genesis, bodies, pending, head)
    ensures Classified(s, genesis, bodies, pending, mined, head)
  {
    hide Closed, Ancestor;
    forall tx | tx in AllMined(mined)
      ensures tx !in pending && InBranch(s, genesis, bodies, head, -1, s[head].number, tx)
    {
      var h :| h in mined && tx in Members(mined[h]);
      assert HeldAt(s, genesis, bodies, head, tx, s[h].number);
    }
  }

  /** A transaction mined in a block of the old branch is on the path of the old head. */
  lemma MinedIsHeld(s: Headers, genesis: Hash, bodies: Bodies, pending: set<TxId>, mined: Mined, head: Hash, fork: nat, tx: TxId)
    returns (n: nat)
    requires Closed(s, genesis) && head in s && bodies.Keys == s.Keys
    requires Tidy(pending, mined, bodies) && tx in MinedOn(s, genesis, mined, head, fork)
    ensures fork < n && HeldAt(s, genesis, bodies, head, tx, n)
  {
    hide Closed, Ancestor;
    var h :| h in mined && OnBranch(s, genesis, head, fork, h) && tx in mined[h];
    assert tx in Members(mined[h]);
    n := s[h].number;
  }

  /** If no transaction repeats on the path of the old head, what is pending at the new one is in no
      block on its path. */
  lemma StaysUnmined(s: Headers, genesis: Hash, bodies: Bodies, pending: set<TxId>, mined: Mined, pending': set<TxId>,
                     oldHead: Hash, newHead: Hash, fork: nat, m: nat)
    requires Closed(s, genesis) && oldHead in s && newHead in s && bodies.Keys == s.Keys
    requires IsFork(s, genesis, oldHead, newHead, fork) && fork <= m <= s[newHead].number
    requires Tidy(pending, mined, bodies) && Unmined(s, genesis, bodies, pending, oldHead)
    requires NoRepeats(s, genesis, bodies, oldHead)
    requires PendingAt(s, genesis, bodies, pending + MinedOn(s, genesis, mined, oldHead, fork), pending', newHead, fork, m)
    ensures Unmined(s, genesis, bodies, pending', Ancestor(s, genesis, newHead, m))
  {
    hide Closed, Ancestor, Tidy, IsFork, MinedOn;
    forall tx, n | tx in pending'
      ensures !HeldAt(s, genesis, bodies, Ancestor(s, genesis, newHead, m), tx, n)
    {
      if 0 <= n <= m {
        AncestorTransitive(s, genesis, newHead, m, n);
        if HeldAt(s, genesis, bodies, newHead, tx, n) {
          assert n <= fork;
          HeldBelowFork(s, genesis, bodies, oldHead, newHead, fork, tx, n);
          assert tx in MinedOn(s, genesis, mined, oldHead, fork);
          var k := MinedIsHeld(s, genesis, bodies, pending, mined, oldHead, fork, tx);
          assert false;
        }
      }
    }
  }

  lemma NoRepeatsBelow(s: Headers, genesis: Hash, bodies: Bodies, h: Hash, m: nat)
    requires Closed(s, genesis) && h in s && bodies.Keys == s.Keys && m <= s[h].number && NoRepeats(s, genesis, bodies, h)
    ensures NoRepeats(s, genesis, bodies, Ancestor(s, genesis, h, m))
  {
    hide Closed, Ancestor;
    forall tx, n | HeldAt(s, genesis, bodies, Ancestor(s, genesis, h, m), tx, n)
      ensures HeldAt(s, genesis, bodies, h, tx, n)
    {
      AncestorTransitive(s, genesis, h, m, n);
    }
  }

  // ----- Runs of head events -----

  /** The headers and bodies of a chain at some time. */
  datatype View = View(headers: Headers, bodies: Bodies) {
    ghost predicate Complete(genesis: Hash) {
      Closed(headers, genesis) && BodiesOk(headers, bodies)
    }
  }

  /** A new head, with the chain at that time, the headers that are missing and the blocks that cannot
      be retrieved. */
  datatype HeadEvent = HeadEvent(newHead: Hash, view: View, missing: set<Hash>, canon: map<nat, Hash>,
                                 noBlock: set<Hash>, noReceipts: set<Hash>)

  ghost function ViewBefore(start: View, events: seq<HeadEvent>, i: nat): View
    requires i <= |events|
  {
    if i == 0 then start else events[i - 1].view
  }

  /** The chain only grows from event to event. */
  ghost predicate Timeline(start: View, events: seq<HeadEvent>, genesis: Hash) {
    && start.Complete(genesis)
    && forall i :: 0 <= i < |events| ==>
         && events[i].view.Complete(genesis) && events[i].newHead in events[i].view.headers
         && Extends(ViewBefore(start, events, i).headers, ViewBefore(start, events, i).bodies,
                    events[i].view.headers, events[i].view.bodies)
  }

  /** No transaction repeats on the path of a head. */
  ghost predicate NoneRepeat(events: seq<HeadEvent>, genesis: Hash) {
    forall i :: 0 <= i < |events| ==>
      var v := events[i].view;
      && v.Complete(genesis) && events[i].newHead in v.headers && NoRepeats(v.headers, genesis, v.bodies, events[i].newHead)
  }

  ghost function ApplyAll(pending: set<TxId>, changes: seq<Changes>): set<TxId> {
    if |changes| == 0 then pending else Apply(ApplyAll(pending, changes[..|changes| - 1]), changes[|changes| - 1])
  }

  /** What a run knows about its next event. */
  lemma EventAt(start: View, events: seq<HeadEvent>, genesis: Hash, i: nat)
    requires Timeline(start, events, genesis) && i < |events|
    ensures events[i].view.Complete(genesis) && events[i].newHead in events[i].view.headers
    ensures Extends(ViewBefore(start, events, i).headers, ViewBefore(start, events, i).bodies,
                    events[i].view.headers, events[i].view.bodies)
    ensures NoneRepeat(events, genesis) ==>
              NoRepeats(events[i].view.headers, genesis, events[i].view.bodies, events[i].newHead)
  {
    hide View.Complete, Extends, NoRepeats;
  }

  lemma StartComplete(start: View, events: seq<HeadEvent>, genesis: Hash)
    requires Timeline(start, events, genesis)
    ensures start.Complete(genesis)
  {
  }

  lemma ApplyNone(pending: set<TxId>)
    ensures ApplyAll(pending, []) == pending
  {
  }

  lemma ApplyNext(pending: set<TxId>, changes: seq<Changes>, txc: Changes)
    ensures ApplyAll(pending, changes + [txc]) == Apply(ApplyAll(pending, changes), txc)
  {
    assert (changes + [txc])[..|changes|] == changes;
  }

  lemma ViewGrows(v: View, v': View, genesis: Hash, pending: set<TxId>, mined: Mined, head: Hash)
    requires v.Complete(genesis) && v'.Complete(genesis) && Extends(v.headers, v.bodies, v'.headers, v'.bodies)
    requires head in v.headers && Tidy(pending, mined, v.bodies)
    ensures head in v'.headers && Tidy(pending, mined, v'.bodies)
    ensures OnPath(v.headers, genesis, mined, head) ==> OnPath(v'.headers, genesis, mined, head)
    ensures Unmined(v.headers, genesis, v.bodies, pending, head) <==> Unmined(v'.headers, genesis, v'.bodies, pending, head)
    ensures NoRepeats(v.headers, genesis, v.bodies, head) <==> NoRepeats(v'.headers, genesis, v'.bodies, head)
  {
    hide Closed, Ancestor;
    if OnPath(v.headers, genesis, mined, head) {
      OnPathGrows(v.headers, v'.headers, genesis, mined, head);
    }
    GrowHeld(v.headers, v.bodies, v'.headers, v'.bodies, genesis, head);
    hide OnPath, HeldAt, NoRepeats;
  }

  class TxPool {
    var head: Hash
    var pending: set<TxId>
    var mined: Mined
    var clearIdx: nat

    /** What holds after every head event. */
    ghost predicate Sane(s: Headers, bodies: Bodies)
      reads this
    {
      head in s && Tidy(pending, mined, bodies)
    }

    /** The mined blocks are on the path of the head as well. */
    ghost predicate Valid(s: Headers, genesis: Hash, bodies: Bodies)
      requires Closed(s, genesis)
      reads this
    {
      Sane(s, bodies) && OnPath(s, genesis, mined, head)
    }

    /** The pool's own transactions, wherever they are. */
    ghost function Known(): set<TxId>
      reads this
    {
      pending + AllMined(mined)
    }

    constructor (head: Hash, number: nat)
      ensures this.head == head && pending == {} && mined == map[] && clearIdx == number
    {
      this.head, pending, mined, clearIdx := head, {}, map[], number;
    }

    method RollbackTxs(hash: Hash, txc: Changes, ghost before: set<TxId>, ghost bodies: Bodies) returns (txc': Changes)
      requires Tidy(pending, mined, bodies) && Diff(before, pending, txc)
      modifies `pending, `mined
      ensures Tidy(pending, mined, bodies) && Diff(before, pending, txc')
      ensures pending == old(pending + Members(MinedIn(mined, hash))) && mined == old(mined) - {hash}
      ensures Known() == old(Known())
    {
      hide Tidy, Diff, AllMined, Members;
      TidyRoll(pending, mined, bodies, hash);
      txc' := txc;
      if hash in mined {
        pending, txc' := Unmine(mined[hash], pending, txc, before);
        mined := mined - {hash};
      } else {
        NoMembers<TxId>();
      }
    }

    /** Rolls back the old branch, down to number `m`. */
    method RollBack(hashes: seq<Hash>, to: Hash, ghost s: Headers, ghost genesis: Hash, ghost bodies: Bodies, ghost m: nat)
      returns (txc: Changes)
      requires Closed(s, genesis) && Sane(s, bodies) && IsBranch(s, genesis, hashes, head, m)
      requires to == Ancestor(s, genesis, head, m)
      modifies `pending, `mined, `head
      ensures Sane(s, bodies) && head == to && Diff(old(pending), pending, txc)
      ensures pending == old(pending + MinedOn(s, genesis, mined, head, m)) && mined == old(KeptOff(s, genesis, mined, head, m))
      ensures Known() == old(Known())
    {
      hide Closed, Ancestor, Tidy, Diff, AllMined, MinedOn, KeptOff, Members, MinedIn;
      txc := map[];
      ghost var mined0, top := mined, s[head].number;
      NoDiff(pending);
      RollStart(s, genesis, mined, head);
      for i := 0 to |hashes|
        invariant head == old(head) && Tidy(pending, mined, bodies) && Diff(old(pending), pending, txc)
        invariant mined == KeptOff(s, genesis, mined0, head, top - i)
        invariant pending == old(pending) + MinedOn(s, genesis, mined0, head, top - i)
        invariant Known() == old(Known())
      {
        RollStep(s, genesis, mined0, head, hashes[i], top - i - 1);
        txc := RollbackTxs(hashes[i], txc, old(pending), bodies);
      }
      head := to;
    }

    /** Looks for pending transactions in a new block; fails when the block or its receipts cannot be
        retrieved, which is not attempted if nothing is pending. If the block is recorded as mined
        already, what is listed for it is reported once more. */
    method CheckMinedTxs(hash: Hash, bodies: Bodies, noBlock: set<Hash>, noReceipts: set<Hash>, txc: Changes,
                         ghost s: Headers, ghost before: set<TxId>)
      returns (ok: bool, txc': Changes)
      requires BodiesOk(s, bodies) && hash in bodies
      requires Tidy(pending, mined, bodies) && Reports(before, pending, txc)
      modifies `pending, `mined
      ensures Tidy(pending, mined, bodies) && Reports(before, pending, txc')
      ensures ok ==> pending == old(pending) - Members(bodies[hash])
      ensures !ok ==> pending == old(pending) && mined == old(mined) && txc' == txc
      ensures !ok <==> old(pending) != {} && (hash in noBlock ||
                         (hash in noReceipts && (hash in old(mined) || Members(bodies[hash]) * old(pending) != {})))
      ensures forall h :: h in mined ==> h in old(mined) || h == hash
      ensures forall h :: h in old(mined) ==> h in mined && (h != hash ==> mined[h] == old(mined)[h])
      ensures ok ==> (Spurious(before, txc') <==>
                        Spurious(before, txc) || (old(pending) != {} && !(Members(MinedIn(old(mined), hash)) <= before)))
      ensures Known() == old(Known())
    {
      hide Tidy, Reports, Spurious, AllMined, Members, Distinct;
      if pending == {} {
        return true, txc;
      }
      if hash in noBlock {
        return false, txc;
      }
      var list := MinedIn(mined, hash);
      var found := Gather(bodies[hash], pending);
      list := list + found;
      EmptyMembers(found);
      NoneFound(pending, bodies[hash], found);
      TidyRoll(pending, mined, bodies, hash);
      ListNonEmpty(pending, mined, bodies, hash);
      if |list| > 0 {
        if hash in noReceipts {
          return false, txc;
        }
        TidyMine(pending, mined, bodies, hash, found);
        assert pending - Members(list) == pending - Members(found);
        pending, txc' := Mine(list, pending, txc, before);
        mined := mined[hash := list];
        ok := true;
      } else {
        ok, txc' := true, txc;
        NoMembers<TxId>();
      }
    }

    /** Checks the new branch upwards from number `lo`, leaving the head on the last block that was
        checked, number `m`, or where it was if there is none. The changes stay exact unless a block is
        checked that is recorded as mined. */
    method CheckBranch(hashes: seq<Hash>, bodies: Bodies, noBlock: set<Hash>, noReceipts: set<Hash>, txc0: Changes,
                       ghost s: Headers, ghost genesis: Hash, ghost newHead: Hash, ghost lo: nat, ghost before: set<TxId>)
      returns (ok: bool, txc: Changes, ghost m: nat)
      requires Closed(s, genesis) && Sane(s, bodies) && BodiesOk(s, bodies) && newHead in s
      requires IsBranch(s, genesis, hashes, newHead, lo)
      requires Diff(before, pending, txc0) && ApartFrom(mined, before)
      modifies `pending, `mined, `head
      ensures Tidy(pending, mined, bodies) && Reports(before, pending, txc) && Known() == old(Known())
      ensures lo <= m <= s[newHead].number && head == if m == lo then old(head) else Ancestor(s, genesis, newHead, m)
      ensures PendingAt(s, genesis, bodies, old(pending), pending, newHead, lo, m)
      ensures Diff(before, pending, txc) <==> !AnyRelisted(s, genesis, bodies, old(pending), old(mined), newHead, lo, m)
      ensures MinedUpTo(s, genesis, old(mined), mined, newHead, lo, m) && Untouched(s, genesis, old(mined), mined, newHead, lo, m)
      ensures m == lo ==> mined == old(mined)
      ensures ok ==> m == s[newHead].number
      ensures noBlock == {} && noReceipts == {} ==> ok
    {
      hide Closed, Ancestor, Tidy, Diff, Reports, Spurious, AllMined, PendingAt, Members, BodiesOk, MinedUpTo, Untouched, AnyRelisted,
           ApartFrom, MinedIn;
      txc, ok, m := txc0, true, lo;
      ghost var top := s[newHead].number;
      KeysAgree(s, bodies);
      PendingStart(s, genesis, bodies, pending, newHead, lo);
      MinedStart(s, genesis, mined, newHead, lo);
      RelistedStart(s, genesis, bodies, pending, mined, newHead, lo);
      DiffIsExact(before, pending, txc);
      var i := |hashes|;
      while i > 0
        invariant 0 <= i <= |hashes| && m == top - i
        invariant head == if m == lo then old(head) else Ancestor(s, genesis, newHead, m)
        invariant Tidy(pending, mined, bodies) && Reports(before, pending, txc) && (m == lo ==> mined == old(mined))
        invariant Spurious(before, txc) <==> AnyRelisted(s, genesis, bodies, old(pending), old(mined), newHead, lo, m)
        invariant MinedUpTo(s, genesis, old(mined), mined, newHead, lo, m) && Untouched(s, genesis, old(mined), mined, newHead, lo, m)
        invariant PendingAt(s, genesis, bodies, old(pending), pending, newHead, lo, m)
        invariant Known() == old(Known())
      {
        i := i - 1;
        var hash := hashes[i];
        ghost var mined1 := mined;
        NextUnchecked(s, genesis, old(mined), mined, newHead, lo, m);
        RelistedStep(s, genesis, bodies, old(pending), old(mined), pending, newHead, lo, m);
        PendingStep(s, genesis, bodies, old(pending), pending, newHead, lo, m);
        ListedApart(old(pending), old(mined), bodies, before, hash);
        ok, txc := CheckMinedTxs(hash, bodies, noBlock, noReceipts, txc, s, before);
        DiffIsExact(before, pending, txc);
        if !ok {
          return;
        }
        MinedStep(s, genesis, old(mined), mined1, mined, newHead, lo, m);
        head, m := hash, m + 1;
      }
      DiffIsExact(before, pending, txc);
    }

    /** Forgets the mined transactions of blocks that lie far enough below the new head. */
    method ClearOld(number: nat, canon: map<nat, Hash>, ghost s: Headers, ghost genesis: Hash, ghost bodies: Bodies)
      returns (discarded: set<TxId>)
      requires Closed(s, genesis) && Sane(s, bodies)
      modifies `mined, `clearIdx
      ensures Tidy(pending, mined, bodies) && Known() + discarded == old(Known())
      ensures old(OnPath(s, genesis, mined, head) && NoneBelow(s, mined, clearIdx)) && Follows(s, genesis, canon, head) ==>
                NoneBelow(s, mined, clearIdx)
      ensures clearIdx == if number > old(clearIdx) + TX_PERMANENT then number - TX_PERMANENT else old(clearIdx)
      ensures clearIdx == old(clearIdx) ==> discarded == {}
      ensures ClearedRange(old(mined), mined, canon, old(clearIdx), clearIdx)
    {
      hide Closed, Ancestor, Tidy, AllMined, Members, OnPath, ClearedRange, NoneBelow, Follows;
      discarded := {};
      ClearedRangeNone(mined, canon, clearIdx);
      if number > clearIdx + TX_PERMANENT {
        var upTo := number - TX_PERMANENT;
        if |mined| > 0 {
          mined, discarded := ClearBlocks(mined, canon, clearIdx, upTo, pending, bodies);
        } else {
          NothingToClear(mined, canon, clearIdx, upTo);
        }
        clearIdx := upTo;
        if old(OnPath(s, genesis, mined, head)) {
          ClearedOnPath(s, genesis, old(mined), mined, canon, head, old(clearIdx), clearIdx);
        }
      }
    }

    /** Moves the pool to a new head, in any state that head events lead to. The changes lead from what was
        pending to what is, also when a retrieval fails on the way; then the head stays on the last
        checked block of the new branch, number `m`, from which the next call goes on. They are exactly
        the difference unless a block is checked that is recorded as mined. Pending are those that
        were, or were mined on the old branch above number `fork`, and are in no block of the new branch
        that was checked, from number `from` on. No transaction is lost but those of buried blocks. */
    method ReorgOnNewHead(newHead: Hash, s: Headers, missing: set<Hash>, ghost genesis: Hash, bodies: Bodies, canon: map<nat, Hash>,
                          noBlock: set<Hash>, noReceipts: set<Hash>)
      returns (search: Search, txc: Changes, ok: bool, discarded: set<TxId>, ghost fork: nat, ghost from: nat, ghost m: nat)
      requires Closed(s, genesis) && Sane(s, bodies) && BodiesOk(s, bodies) && newHead in s
      modifies this
      ensures Intact(s, genesis, missing, old(head)) ==>
                && search != Crashed
                && (search == Gap <==> Hidden(s, genesis, missing, newHead, ForkNumber(s, genesis, old(head), newHead)))
      ensures missing == {} ==> search == Met
      ensures search == Crashed ==> unchanged(this)
      ensures search == Met ==> from == fork == ForkNumber(s, genesis, old(head), newHead)
      ensures search == Gap ==>
                && from < s[newHead].number && Ancestor(s, genesis, newHead, from) in missing
                && !Hidden(s, genesis, missing, newHead, from) && fork == Lesser(s[old(head)].number, from)
      ensures search != Crashed ==>
                && Sane(s, bodies) && Reports(old(pending), pending, txc) && Known() + discarded == old(Known())
                && fork <= s[old(head)].number && from <= m <= s[newHead].number
                && head == (if m == from then Ancestor(s, genesis, old(head), fork) else Ancestor(s, genesis, newHead, m))
                && PendingAt(s, genesis, bodies, old(pending + MinedOn(s, genesis, mined, head, fork)), pending, newHead, from, m)
                && (Diff(old(pending), pending, txc) <==>
                    !AnyRelisted(s, genesis, bodies, old(pending + MinedOn(s, genesis, mined, head, fork)),
                                 old(KeptOff(s, genesis, mined, head, fork)), newHead, from, m))
                && (ok ==> m == s[newHead].number && head == newHead)
                && (noBlock == {} && noReceipts == {} ==> ok)
      ensures search != Crashed ==>
                && var lowest := Lesser(old(clearIdx), fork);
                && clearIdx == (if ok && s[newHead].number > lowest + TX_PERMANENT then s[newHead].number - TX_PERMANENT else lowest)
                && (clearIdx == lowest ==> discarded == {})
                && forall h :: h in old(KeptOff(s, genesis, mined, head, fork)) ==>
                     (h in mined <==> !Buried(canon, lowest, clearIdx, h))
      ensures search != Crashed && old(Valid(s, genesis, bodies)) ==>
                && Diff(old(pending), pending, txc)
                && (Valid(s, genesis, bodies) <==>
                    || search == Met || m == from
                    || NoneStranded(s, old(mined), ForkNumber(s, genesis, old(head), newHead), fork, canon,
                                    Lesser(old(clearIdx), fork), clearIdx))
      ensures (search == Met && old(Valid(s, genesis, bodies) && NoneBelow(s, mined, clearIdx)) &&
               (ok ==> Follows(s, genesis, canon, newHead))) ==> NoneBelow(s, mined, clearIdx)
    {
      hide Closed, Ancestor, Tidy, Diff, Reports, AllMined, OnPath, PendingAt, BodiesOk, IsFork, IsBranch, MinedOn, NoneBelow, Follows,
           ClearedRange, KeptOff, MinedUpTo, Untouched, Still, ForkNumber, Hidden, Intact, AnyRelisted, Buried, NoneStranded, ApartFrom;
      KeysAgree(s, bodies);
      txc, ok, discarded, fork, m := map[], false, {}, 0, 0;
      var oldHashes, newHashes, ancestor;
      search, oldHashes, newHashes, ancestor, from := FindFork(s, missing, genesis, head, newHead);
      if search == Crashed {
        return;
      }
      fork := s[ancestor].number;
      ghost var before, oldHead, mined0 := pending, head, mined;
      ghost var low := ForkNumber(s, genesis, head, newHead);
      NoneBelowLess(s, mined, clearIdx, fork);
      if s[ancestor].number < clearIdx {
        clearIdx := s[ancestor].number;
      }
      ghost var lowest := clearIdx;
      NoneBelowKept(s, genesis, mined, head, fork, clearIdx);
      KeptApart(s, genesis, pending, mined, bodies, head, fork);
      txc := RollBack(oldHashes, ancestor, s, genesis, bodies, fork);
      ghost var kept, start := mined, pending;
      BranchBelow(s, genesis, newHashes, newHead, from);
      ok, txc, m := CheckBranch(newHashes, bodies, noBlock, noReceipts, txc, s, genesis, newHead, from, before);
      ArrivesAt(s, genesis, oldHead, newHead, search, fork, from, m, head);
      NoneBelowMore(s, genesis, kept, mined, newHead, from, m, clearIdx);
      ghost var checked := mined;
      CheckedOnPath(s, genesis, mined0, kept, checked, oldHead, newHead, search, fork, from, m, head);
      if ok {
        discarded := ClearOld(s[newHead].number, canon, s, genesis, bodies);
      } else {
        ClearedRangeNone(mined, canon, clearIdx);
      }
      AfterClearing(s, genesis, mined0, kept, checked, mined, oldHead, newHead, search, low, fork, from, m, head, canon, lowest, clearIdx);
      if old(OnPath(s, genesis, mined, head)) {
        RollEnd(s, genesis, mined0, oldHead, fork);
        NoneRelisted(s, genesis, bodies, start, kept, newHead, ancestor, from, m);
      }
    }

    /** The state of the pool fits a view of the chain. */
    ghost predicate Fits(v: View, genesis: Hash)
      reads this
      requires v.Complete(genesis)
    {
      Sane(v.headers, v.bodies)
    }

    /** The mined blocks are on the path of the head and no pending transaction is, and none repeats
        there. */
    ghost predicate Separated(v: View, genesis: Hash)
      reads this
      requires v.Complete(genesis)
    {
      && head in v.headers && OnPath(v.headers, genesis, mined, head) && Unmined(v.headers, genesis, v.bodies, pending, head)
      && NoRepeats(v.headers, genesis, v.bodies, head)
    }

    /** One head event of a run. */
    method SetNewHead(event: HeadEvent, ghost genesis: Hash, ghost before: View)
      returns (search: Search, txc: Changes, discarded: set<TxId>)
      requires before.Complete(genesis) && event.view.Complete(genesis) && event.newHead in event.view.headers
      requires Extends(before.headers, before.bodies, event.view.headers, event.view.bodies) && Fits(before, genesis)
      modifies this
      ensures old(head) in event.view.headers && Fits(event.view, genesis)
      ensures if search == Crashed then unchanged(this)
              else Reports(old(pending), pending, txc) && Known() + discarded == old(Known())
      ensures search != Crashed && event.noBlock == {} && event.noReceipts == {} ==> head == event.newHead
      ensures (old(Separated(before, genesis)) && search == Met &&
               NoRepeats(event.view.headers, genesis, event.view.bodies, event.newHead)) ==> Separated(event.view, genesis)
      ensures event.missing == {} ==> search == Met
      ensures Intact(event.view.headers, genesis, event.missing, old(head)) ==> search != Crashed
    {
      hide Closed, Ancestor, Tidy, Diff, Reports, AllMined, OnPath, PendingAt, BodiesOk, IsFork, MinedOn, NoneBelow, Follows, KeptOff,
           Unmined, NoRepeats, Extends, ForkNumber, Hidden, Intact, AnyRelisted, Buried, NoneStranded;
      ghost var v := event.view;
      KeysAgree(before.headers, before.bodies);
      KeysAgree(v.headers, v.bodies);
      ViewGrows(before, v, genesis, pending, mined, head);
      var ok;
      ghost var fork, from, m;
      search, txc, ok, discarded, fork, from, m :=
        ReorgOnNewHead(event.newHead, event.view.headers, event.missing, genesis, event.view.bodies, event.canon,
                       event.noBlock, event.noReceipts);
      if old(Separated(before, genesis)) && search == Met && NoRepeats(v.headers, genesis, v.bodies, event.newHead) {
        ForkBelow(v.headers, genesis, old(head), event.newHead, fork);
        StaysUnmined(v.headers, genesis, v.bodies, old(pending), old(mined), pending, old(head), event.newHead, fork, m);
        NoRepeatsBelow(v.headers, genesis, v.bodies, event.newHead, m);
      }
    }

    /** Any run of head events while the chain grows, up to a crash if there is one. Applying the
        reported changes one after the other to what was pending gives what is pending, whatever gaps
        there are. No transaction is lost but the discarded ones. As long as there is no gap and no
        transaction repeats on the path of a head, exactly the known transactions that are in no
        block on the path of the pool's head are pending. */
    method RunHeads(events: seq<HeadEvent>, ghost genesis: Hash, ghost start: View)
      returns (searches: seq<Search>, changes: seq<Changes>, discarded: set<TxId>)
      requires Timeline(start, events, genesis) && Fits(start, genesis)
      modifies this
      ensures |changes| == |searches| <= |events|
      ensures |searches| < |events| ==>
                && var event := events[|searches|];
                && event.view.Complete(genesis) && head in event.view.headers
                && !Intact(event.view.headers, genesis, event.missing, head)
      ensures ViewBefore(start, events, |searches|).Complete(genesis) && Fits(ViewBefore(start, events, |searches|), genesis)
      ensures pending == ApplyAll(old(pending), changes) && Known() + discarded == old(Known())
      ensures |searches| > 0 && events[|searches| - 1].noBlock == {} && events[|searches| - 1].noReceipts == {} ==>
                head == events[|searches| - 1].newHead
      ensures old(Separated(start, genesis)) && NoneRepeat(events, genesis) && AllMet(searches) ==>
                var v := ViewBefore(start, events, |searches|);
                && v.bodies.Keys == v.headers.Keys && head in v.headers
                && Classified(v.headers, genesis, v.bodies, pending, mined, head)
    {
      hide Closed, Tidy, Diff, AllMined, OnPath, BodiesOk, Unmined, NoRepeats, Extends, View.Complete, Separated, Fits, Classified,
           AllMet, ApplyAll, Intact, Timeline, NoneRepeat, Reports, Apply;
      ApplyNone(pending);
      StartComplete(start, events, genesis);
      searches, changes, discarded := [], [], {};
      ghost var v := start;
      for i := 0 to |events|
        invariant v == ViewBefore(start, events, i) && v.Complete(genesis) && Fits(v, genesis)
        invariant |changes| == |searches| == i && pending == ApplyAll(old(pending), changes) && Known() + discarded == old(Known())
        invariant i > 0 && events[i - 1].noBlock == {} && events[i - 1].noReceipts == {} ==> head == events[i - 1].newHead
        invariant old(Separated(start, genesis)) && NoneRepeat(events, genesis) && AllMet(searches) ==> Separated(v, genesis)
      {
        ghost var was := pending;
        EventAt(start, events, genesis, i);
        var search, txc, more := SetNewHead(events[i], genesis, v);
        if search == Crashed {
          SeparatedClassifies(v, genesis);
          return;
        }
        ReportsApply(was, pending, txc);
        ApplyNext(old(pending), changes, txc);
        MetNext(searches, search);
        searches, changes, discarded, v := searches + [search], changes + [txc], discarded + more, events[i].view;
      }
      SeparatedClassifies(v, genesis);
    }

    lemma SeparatedClassifies(v: View, genesis: Hash)
      requires v.Complete(genesis) && Fits(v, genesis)
      ensures v.bodies.Keys == v.headers.Keys && head in v.headers
      ensures Separated(v, genesis) ==> Classified(v.headers, genesis, v.bodies, pending, mined, head)
    {
      hide Closed, Ancestor, Tidy, OnPath, Unmined, NoRepeats, Classified;
      if Separated(v, genesis) {
        UnminedClassifies(v.headers, genesis, v.bodies, pending, mined, head);
      }
    }
  }

  // ----- A gap that goes wrong -----

  /** Two branches above the genesis block 1: the blocks 2 and 5, and the blocks 3 and 4. */
  function ForkedHeaders(): Headers {
    map[1 := Header(ZERO, 0, 1), 2 := Header(1, 1, 1), 3 := Header(1, 1, 1), 4 := Header(3, 2, 1), 5 := Header(2, 2, 1)]
  }

  /** Transaction 7 is in block 2. */
  function ForkedBodies(): Bodies {
    map[1 := [], 2 := [7], 3 := [], 4 := [], 5 := []]
  }

  lemma ForkedNumbers()
    ensures var s := ForkedHeaders();
            && s.Keys == {1, 2, 3, 4, 5} && ForkedBodies().Keys == s.Keys
            && s[1].number == 0 && s[2].number == 1 && s[3].number == 1 && s[4].number == 2 && s[5].number == 2
            && s[1].parent == ZERO && s[2].parent == 1 && s[3].parent == 1 && s[4].parent == 3 && s[5].parent == 2
  {
  }

  lemma ForkedClosed()
    ensures Closed(ForkedHeaders(), 1) && BodiesOk(ForkedHeaders(), ForkedBodies())
  {
    ForkedNumbers();
    assert forall h :: h in ForkedBodies() ==> |ForkedBodies()[h]| <= 1;
    hide ForkedHeaders, ForkedBodies;
    var s := ForkedHeaders();
    assert forall h :: h in s ==> h == 1 || h == 2 || h == 3 || h == 4 || h == 5;
  }

  lemma ForkedAncestors()
    requires Closed(ForkedHeaders(), 1)
    ensures var s := ForkedHeaders();
            && Ancestor(s, 1, 1, 0) == 1 && Ancestor(s, 1, 2, 0) == 1 && Ancestor(s, 1, 4, 0) == 1 && Ancestor(s, 1, 5, 0) == 1
            && Ancestor(s, 1, 2, 1) == 2 && Ancestor(s, 1, 4, 1) == 3 && Ancestor(s, 1, 5, 1) == 2
            && Ancestor(s, 1, 4, 2) == 4 && Ancestor(s, 1, 5, 2) == 5
  {
    ForkedNumbers();
    ForkedClosed();
    hide Closed, Ancestor, ForkedHeaders;
    var s := ForkedHeaders();
    AncestorSelf(s, 1, 2);
    AncestorSelf(s, 1, 3);
    AncestorSelf(s, 1, 4);
    AncestorSelf(s, 1, 5);
    AncestorParent(s, 1, 4, 1);
    AncestorParent(s, 1, 5, 1);
    AncestorZero(s, 1, 1);
    AncestorZero(s, 1, 2);
    AncestorZero(s, 1, 4);
    AncestorZero(s, 1, 5);
  }

  lemma ForkedForks()
    requires Closed(ForkedHeaders(), 1)
    ensures var s := ForkedHeaders();
            ForkNumber(s, 1, 1, 2) == 0 && ForkNumber(s, 1, 2, 4) == 0 && ForkNumber(s, 1, 4, 5) == 0
  {
    ForkedNumbers();
    ForkedClosed();
    ForkedAncestors();
    hide Closed, Ancestor, ForkNumber, ForkedHeaders;
    var s := ForkedHeaders();
    ForkUnique(s, 1, 1, 2, 0);
    ForkUnique(s, 1, 2, 4, 0);
    ForkUnique(s, 1, 4, 5, 0);
  }

  /** The only listed transaction is in the block that holds it. */
  lemma ListedInBlock2(pending: set<TxId>, mined: Mined)
    requires Tidy(pending, mined, ForkedBodies()) && pending + AllMined(mined) == {7} && 7 !in pending
    ensures 2 in mined
  {
    assert 7 in AllMined(mined);
    var h :| h in mined && 7 in Members(mined[h]);
    assert 7 in Members(ForkedBodies()[h]);
  }

  lemma NothingMined(pending: set<TxId>)
    requires Closed(ForkedHeaders(), 1)
    ensures Tidy(pending, map[], ForkedBodies()) && OnPath(ForkedHeaders(), 1, map[], 1)
    ensures MinedOn(ForkedHeaders(), 1, map[], 1, 0) == {} && AllMined(map[]) == {}
  {
    hide Closed, Ancestor;
  }

  lemma MinedInBlock2(pending: set<TxId>)
    requires Closed(ForkedHeaders(), 1) && Ancestor(ForkedHeaders(), 1, 2, 1) == 2
    requires PendingAt(ForkedHeaders(), 1, ForkedBodies(), {7}, pending, 2, 0, 1)
    ensures pending == {}
  {
    hide Closed, Ancestor;
    assert HeldAt(ForkedHeaders(), 1, ForkedBodies(), 2, 7, 1);
    assert InBranch(ForkedHeaders(), 1, ForkedBodies(), 2, 0, 1, 7);
  }

  lemma NothingBuried(canon: map<nat, Hash>, i: nat)
    ensures forall h :: !Buried(canon, i, i, h)
  {
  }

  /** On the way from block 2 to block 4 without header 3, the search stops at number 1. */
  lemma AroundTheGap(mined: Mined)
    requires Closed(ForkedHeaders(), 1) && 2 in mined
    ensures var s := ForkedHeaders();
            && Intact(s, 1, {3}, 2) && Hidden(s, 1, {3}, 4, 0) && (forall n: nat :: n < 2 && Ancestor(s, 1, 4, n) in {3} ==> n == 1)
            && 2 in KeptOff(s, 1, mined, 2, 1) && MinedOn(s, 1, mined, 2, 1) == {}
            && !NoneStranded(s, mined, 0, 1, map[], 0, 0)
  {
    var s := ForkedHeaders();
    ForkedNumbers();
    ForkedClosed();
    ForkedAncestors();
    NothingBuried(map[], 0);
    hide Closed, Ancestor, ForkedHeaders;
    assert forall h :: !OnBranch(s, 1, 2, 1, h);
    assert Ancestor(s, 1, 4, 1) in {3};
  }

  /** Transaction 7 is mined in block 2, and then the new head is 4, whose parent 3 is not known: block 2
      stays mined, but is not on the path of the new head. */
  method GapExample() returns (pool: TxPool, search: Search)
    ensures search == Gap && pool.head == 4 && 2 in pool.mined
    ensures Closed(ForkedHeaders(), 1) && pool.Sane(ForkedHeaders(), ForkedBodies())
    ensures !pool.Valid(ForkedHeaders(), 1, ForkedBodies())
    ensures fresh(pool) && pool.pending == {}
  {
    hide Closed, Ancestor, Tidy, Diff, Reports, AllMined, PendingAt, BodiesOk, IsFork, MinedOn, NoneBelow, Follows, KeptOff, ForkNumber,
         AnyRelisted, OnPath, Intact, Hidden, Buried, NoneStranded, ForkedHeaders, ForkedBodies;
    ForkedNumbers();
    ForkedClosed();
    ForkedForks();
    ForkedAncestors();
    var s, bodies := ForkedHeaders(), ForkedBodies();
    pool := new TxPool(1, 0);
    pool.pending := {7};
    NothingMined({7});
    NothingBuried(map[], 0);
    var txc, ok, discarded;
    ghost var fork, from, m;
    search, txc, ok, discarded, fork, from, m := pool.ReorgOnNewHead(2, s, {}, 1, bodies, map[], {}, {});
    assert {7} + {} == {7};
    MinedInBlock2(pool.pending);
    ListedInBlock2(pool.pending, pool.mined);
    AroundTheGap(pool.mined);
    search, txc, ok, discarded, fork, from, m := pool.ReorgOnNewHead(4, s, {3}, 1, bodies, map[], {}, {});
    PendingWithin(s, 1, bodies, {} + {}, pool.pending, 4, from, m);
  }

  /** Block 2 is listed again when the chain comes back to it. */
  lemma BackToBlock2(mined: Mined)
    requires Closed(ForkedHeaders(), 1) && Tidy({}, mined, ForkedBodies()) && 2 in mined
    ensures Tidy({8}, mined, ForkedBodies())
    ensures AnyRelisted(ForkedHeaders(), 1, ForkedBodies(), {8} + MinedOn(ForkedHeaders(), 1, mined, 4, 0),
                        KeptOff(ForkedHeaders(), 1, mined, 4, 0), 5, 0, 2)
  {
    assert forall h :: h in mined ==> 8 !in Members(ForkedBodies()[h]);
    ForkedNumbers();
    ForkedClosed();
    ForkedAncestors();
    hide Closed, Ancestor, ForkedHeaders, Tidy, ForkedBodies;
    var s, bodies := ForkedHeaders(), ForkedBodies();
    assert 2 in KeptOff(s, 1, mined, 4, 0);
    assert 8 in {8} + MinedOn(s, 1, mined, 4, 0) && !InBranch(s, 1, bodies, 5, 0, 0, 8);
    assert Relisted(s, 1, bodies, {8} + MinedOn(s, 1, mined, 4, 0), KeptOff(s, 1, mined, 4, 0), 5, 0, 1);
  }

  /** After that gap the head moves to 5, on top of block 2: transaction 7 is reported as mined once more,
      so the changes are not the difference. */
  method RelistExample() returns (pool: TxPool, ghost before: set<TxId>, txc: Changes)
    ensures Reports(before, pool.pending, txc) && !Diff(before, pool.pending, txc)
  {
    hide Closed, Ancestor, Tidy, Diff, Reports, AllMined, PendingAt, BodiesOk, IsFork, MinedOn, NoneBelow, Follows, KeptOff, ForkNumber,
         AnyRelisted, OnPath, Intact, Hidden, Buried, NoneStranded, ForkedHeaders, ForkedBodies;
    ForkedNumbers();
    ForkedClosed();
    ForkedForks();
    var s, bodies := ForkedHeaders(), ForkedBodies();
    var search, ok, discarded;
    pool, search := GapExample();
    BackToBlock2(pool.mined);
    pool.pending := {8};
    before := pool.pending;
    ghost var fork, from, m;
    search, txc, ok, discarded, fork, from, m := pool.ReorgOnNewHead(5, s, {}, 1, bodies, map[], {}, {});
  }
}
