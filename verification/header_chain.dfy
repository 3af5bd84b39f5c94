/** The header chain: all known headers with their total difficulties, and the number-to-hash
    index of the canonical chain. */
module HeaderChains {
  import opened BlockTrees
  import opened Options

  datatype HeaderStatus = Canonical | Side | UnknownAncestor

  /** How the insertion of several headers ends; the index is that of the header it stopped at. */
  datatype Insertion = Inserted | Aborted(index: nat) | Orphaned(index: nat)

  /** What a batch of index writes will do once it is flushed. */
  datatype Batch = Batch(deletes: set<nat>, writes: map<nat, Hash>)

  function Flush(canon: map<nat, Hash>, b: Batch): map<nat, Hash> {
    (canon - b.deletes) + b.writes
  }

  /** The index is exactly the ancestor path of `head`, with nothing above it. */
  ghost predicate Indexes(s: Headers, genesis: Hash, canon: map<nat, Hash>, head: Hash)
    requires Closed(s, genesis) && head in s
  {
    IsPath(s, genesis, canon, head) && forall n: nat :: n in canon ==> n <= s[head].number
  }

  /** The index entries that have to be overwritten for `hash` to become the head: from its
      parent down to the highest number at which its ancestors are on the index already, which is
      reached at the genesis block at the latest. */
  method Overwrites(s: Headers, ghost genesis: Hash, canon: map<nat, Hash>, ghost current: Hash, hash: Hash)
    returns (writes: map<nat, Hash>, ghost fork: nat)
    requires Closed(s, genesis) && current in s && Indexes(s, genesis, canon, current)
    requires hash in s && s[hash].number > 0
    ensures fork < s[hash].number && fork <= s[current].number && canon[fork] == Ancestor(s, genesis, hash, fork)
    ensures forall n: nat :: n in writes <==> fork < n < s[hash].number
    ensures forall n: nat :: n in writes ==> writes[n] == Ancestor(s, genesis, hash, n)
    ensures forall n: nat :: n in writes && n in canon ==> canon[n] != writes[n]
  {
    hide Closed, Ancestor;
    ParentStored(s, genesis, hash);
    AncestorParent(s, genesis, hash, s[hash].number - 1);
    AncestorSelf(s, genesis, hash);
    IndexNonZero(s, genesis, canon, current);
    writes := map[];
    var headHash, headNumber := s[hash].parent, s[hash].number - 1;
    AncestorZero(s, genesis, hash);
    AncestorZero(s, genesis, current);
    while ReadCanonicalHash(canon, headNumber) != headHash
      invariant 0 <= headNumber < s[hash].number && headHash == Ancestor(s, genesis, hash, headNumber)
      invariant forall n: nat :: n in writes <==> headNumber < n < s[hash].number
      invariant forall n: nat :: n in writes ==> writes[n] == Ancestor(s, genesis, hash, n)
      invariant forall n: nat :: n in writes && n in canon ==> canon[n] != writes[n]
      decreases headNumber
    {
      ParentStored(s, genesis, headHash);
      AncestorParent(s, genesis, hash, headNumber - 1);
      writes := writes[headNumber := headHash];
      headHash, headNumber := s[headHash].parent, headNumber - 1;
    }
    fork := headNumber;
  }

  lemma Flushed(canon: map<nat, Hash>, deletes: set<nat>, writes: map<nat, Hash>)
    ensures var canon' := Flush(canon, Batch(deletes, writes));
            && (forall n: nat :: n in canon' <==> n in writes || (n in canon && n !in deletes))
            && (forall n: nat :: n in canon' ==> canon'[n] == if n in writes then writes[n] else canon[n])
  {
  }

  /** After the flush the index follows the new head. */
  lemma Rerouted(s: Headers, genesis: Hash, canon: map<nat, Hash>, current: Hash, hash: Hash,
                 deletes: set<nat>, writes: map<nat, Hash>, fork: nat)
    requires Closed(s, genesis) && current in s && Indexes(s, genesis, canon, current)
    requires hash in s && s[hash].number > 0
    requires forall n: nat :: n in canon && n > s[hash].number ==> n in deletes
    requires forall n: nat :: n in deletes ==> n > s[hash].number
    requires fork < s[hash].number && fork <= s[current].number && canon[fork] == Ancestor(s, genesis, hash, fork)
    requires forall n: nat :: n in writes <==> fork < n < s[hash].number
    requires forall n: nat :: n in writes ==> writes[n] == Ancestor(s, genesis, hash, n)
    ensures Indexes(s, genesis, Flush(canon, Batch(deletes, writes[s[hash].number := hash])), hash)
  {
    hide Closed, Ancestor, Flush;
    var w := writes[s[hash].number := hash];
    var canon' := Flush(canon, Batch(deletes, w));
    AncestorSelf(s, genesis, hash);
    Flushed(canon, deletes, w);
    forall n: nat | 0 <= n <= s[hash].number ensures n in canon' && canon'[n] == Ancestor(s, genesis, hash, n) {
      if n <= fork {
        PathBelow(s, genesis, canon, current, hash, fork, n);
      }
    }
  }

  lemma Grow(s: Headers, genesis: Hash, td: map<Hash, nat>, canon: map<nat, Hash>, current: Hash, hash: Hash, header: Header)
    requires Closed(s, genesis) && DifficultiesOk(s, genesis, td) && current in s && Indexes(s, genesis, canon, current)
    requires hash != ZERO && (hash in s ==> s[hash] == header)
    requires header.parent in s && header.number == s[header.parent].number + 1
    ensures var s' := s[hash := header];
            && Closed(s', genesis) && Indexes(s', genesis, canon, current)
            && DifficultiesOk(s', genesis, td[hash := td[header.parent] + header.difficulty])
    ensures hash in td ==> td[hash] == td[header.parent] + header.difficulty
  {
    GrowDifficulties(s, genesis, td, hash, header);
    var s' := s[hash := header];
    hide DifficultiesOk;
    forall n: nat | 0 <= n <= s'[current].number ensures n in canon && canon[n] == Ancestor(s', genesis, current, n) {
      GrowAncestor(s, s', genesis, current, n);
    }
  }

  /** Hashes determine headers, and numbers have been checked against parents. */
  ghost predicate WellNumbered(s: Headers, chain: seq<(Hash, Header)>) {
    && (forall i :: 0 <= i < |chain| ==> chain[i].0 != ZERO && (chain[i].0 in s ==> s[chain[i].0] == chain[i].1))
    && (forall i, j :: 0 <= i < |chain| && 0 <= j < |chain| && chain[i].0 == chain[j].0 ==> chain[i].1 == chain[j].1)
    && (forall i :: 0 <= i < |chain| && chain[i].1.parent in s ==> chain[i].1.number == s[chain[i].1.parent].number + 1)
    && (forall i, j :: 0 <= i < |chain| && 0 <= j < |chain| && chain[i].1.parent == chain[j].0 ==>
                       chain[i].1.number == chain[j].1.number + 1)
  }

  /** The headers `s` with those of `chain` added. */
  ghost function With(s: Headers, chain: seq<(Hash, Header)>): Headers {
    if |chain| == 0 then s
    else
      var last := chain[|chain| - 1];
      With(s, chain[..|chain| - 1])[last.0 := last.1]
  }

  lemma WithStep(s: Headers, chain: seq<(Hash, Header)>, i: nat)
    requires i < |chain|
    ensures With(s, chain[..i + 1]) == With(s, chain[..i])[chain[i].0 := chain[i].1]
  {
    assert chain[..i + 1][..i] == chain[..i];
  }

  lemma WithNone(s: Headers, chain: seq<(Hash, Header)>)
    ensures With(s, chain[..0]) == s
  {
  }

  lemma WellNumberedAt(s: Headers, chain: seq<(Hash, Header)>, i: nat)
    requires WellNumbered(s, chain) && i < |chain|
    ensures chain[i].0 != ZERO && (chain[i].0 in s ==> s[chain[i].0] == chain[i].1)
    ensures chain[i].1.parent in s ==> chain[i].1.number == s[chain[i].1.parent].number + 1
  {
  }

  lemma WellNumberedStep(s: Headers, chain: seq<(Hash, Header)>, i: nat)
    requires WellNumbered(s, chain) && i < |chain|
    ensures WellNumbered(s[chain[i].0 := chain[i].1], chain)
  {
  }

  /** How many headers have been handled when the insertion ends. */
  ghost function HandledBy(r: Insertion, chain: seq<(Hash, Header)>): nat {
    if r.Inserted? then |chain| else if r.index < |chain| then r.index else 0
  }

  class HeaderChain {
    const genesis: Hash
    var headers: Headers
    var td: map<Hash, nat>
    var canon: map<nat, Hash>
    var current: Hash

    ghost predicate Stored()
      reads this
    {
      Closed(headers, genesis) && current in headers && DifficultiesOk(headers, genesis, td)
    }

    /** The index is the ancestor path of the head with nothing above it, and no stored header
        has more total difficulty than the head. */
    ghost predicate Valid()
      reads this
    {
      && Stored() && Indexes(headers, genesis, canon, current)
      && forall h :: h in td ==> td[h] <= td[current]
    }

    constructor (genesis: Hash, header: Header)
      requires genesis != ZERO && header.number == 0 && header.parent == ZERO
      ensures Valid() && current == genesis && this.genesis == genesis && headers == map[genesis := header]
    {
      this.genesis := genesis;
      headers, td, canon, current := map[genesis := header], map[genesis := header.difficulty], map[0 := genesis], genesis;
    }

    /** Writes a header whose number the engine has checked against its parent; `coin` decides
        ties at the same height. */
    method WriteHeader(hash: Hash, header: Header, coin: bool) returns (status: HeaderStatus)
      requires Valid() && hash != ZERO
      requires hash in headers ==> headers[hash] == header
      requires header.parent in headers ==> header.number == headers[header.parent].number + 1
      modifies this
      ensures Valid()
      ensures status == UnknownAncestor <==> header.parent !in old(headers)
      ensures status == UnknownAncestor ==> unchanged(this)
      ensures status != UnknownAncestor ==> headers == old(headers)[hash := header]
      ensures current == if status == Canonical then hash else old(current)
      ensures status != UnknownAncestor ==>
                var extern := old(td)[header.parent] + header.difficulty;
                var localTd := old(td)[old(current)];
                && td[hash] == extern
                && (status == Canonical <==>
                    extern > localTd || (extern == localTd &&
                      (header.number < old(headers)[old(current)].number ||
                       (header.number == old(headers)[old(current)].number && coin))))
    {
      hide Closed, Ancestor, Indexes, DifficultiesOk;
      SameKeys(headers, genesis, td);
      if header.parent !in td {
        return UnknownAncestor;
      }
      var head := headers[current].number;
      var localTd, externTd := td[current], td[header.parent] + header.difficulty;
      Grow(headers, genesis, td, canon, current, hash, header);
      td, headers := td[hash := externTd], headers[hash := header];
      var reorg := externTd > localTd;
      if !reorg && externTd == localTd {
        if header.number < head {
          reorg := true;
        } else if header.number == head {
          reorg := coin;
        }
      }
      if !reorg {
        return Side;
      }
      Adopt(hash, header);
      return Canonical;
    }

    /** Inserts headers one by one and stops at the first whose parent is unknown, or when the
        chain is shutting down; a known header is skipped unless it has more total difficulty than
        the head. */
    method InsertHeaderChain(chain: seq<(Hash, Header)>, coins: seq<bool>, interrupt: nat -> bool) returns (r: Insertion)
      requires Valid() && |coins| == |chain| && WellNumbered(headers, chain)
      modifies this
      ensures Valid()
      ensures headers == With(old(headers), chain[..HandledBy(r, chain)])
      ensures forall i: nat :: i < HandledBy(r, chain) ==> !interrupt(i)
      ensures r.Aborted? ==> r.index < |chain| && interrupt(r.index)
      ensures r.Orphaned? ==> r.index < |chain| && !interrupt(r.index) && chain[r.index].1.parent !in headers
    {
      hide Closed, Ancestor, Indexes, DifficultiesOk, WellNumbered, With;
      WithNone(headers, chain);
      var i: nat := 0;
      while i < |chain|
        invariant Valid() && i <= |chain|
        invariant headers == With(old(headers), chain[..i]) && WellNumbered(headers, chain)
        invariant forall j: nat :: j < i ==> !interrupt(j)
      {
        if interrupt(i) {
          return Aborted(i);
        }
        var (hash, header) := chain[i];
        WellNumberedAt(headers, chain, i);
        SameKeys(headers, genesis, td);
        WellNumberedStep(headers, chain, i);
        WithStep(old(headers), chain, i);
        if hash !in headers || td[hash] > td[current] {
          var status := WriteHeader(hash, header, coins[i]);
          if status == UnknownAncestor {
            return Orphaned(i);
          }
        }
        i := i + 1;
      }
      assert chain[..|chain|] == chain;
      return Inserted;
    }

    /** The header of a block, which the cache finds by its hash alone and the database only under
        the right number. */
    function GetHeader(cached: set<Hash>, hash: Hash, number: nat): Option<Header>
      reads this
    {
      if hash in headers && (hash in cached || headers[hash].number == number) then Some(headers[hash]) else None
    }

    /** The one way to ask for an ancestor that misleads on an index of the head's ancestors: walking back from a number above the
        block's own runs past the genesis block while the number is still above the head, where
        the index reads as the zero hash as well, and jumps to an ancestor on the index. The zero
        hash itself is such a question too. */
    ghost predicate Misleading(cached: set<Hash>, hash: Hash, number: nat, ancestor: nat, budget: nat)
      reads this
      requires Stored()
    {
      && 2 <= ancestor <= number && number - ancestor <= headers[current].number
      && if hash == ZERO then headers[current].number < number
         else
           && hash in headers && (forall m: nat :: m <= headers[hash].number ==> Ancestor(headers, genesis, hash, m) in cached)
           && headers[hash].number < ancestor - 1 && headers[hash].number < budget
           && headers[current].number < number - headers[hash].number - 1
    }

    /** The walk of GetAncestor after `i` steps: at the ancestor that many links above, or past
        the genesis block. */
    ghost predicate Walked(cached: set<Hash>, hash: Hash, number: nat, i: nat, h: Hash)
      reads this
      requires Stored()
    {
      if hash !in headers then i == 0 && h == hash
      else
        var t := headers[hash].number;
        && (if i <= t then h == Ancestor(headers, genesis, hash, t - i) else i == t + 1 && h == ZERO)
        && (t != number ==> forall m: nat :: t - i < m <= t ==> Ancestor(headers, genesis, hash, m) in cached)
    }

    lemma WalkStep(cached: set<Hash>, hash: Hash, number: nat, i: nat, h: Hash)
      requires Stored() && Walked(cached, hash, number, i, h) && i <= number && GetHeader(cached, h, number - i).Some?
      ensures Walked(cached, hash, number, i + 1, headers[h].parent)
    {
      hide Ancestor, DifficultiesOk;
      assert hash in headers && i <= headers[hash].number by {
        ParentStored(headers, genesis, current);
      }
      var t := headers[hash].number;
      if i < t {
        AncestorParent(headers, genesis, hash, t - i - 1);
      } else {
        AncestorZero(headers, genesis, hash);
      }
    }

    /** Where the walk is after `k` steps. */
    ghost function At(hash: Hash, k: nat): Hash
      reads this
      requires Stored()
    {
      if hash !in headers then hash
      else if k <= headers[hash].number then Ancestor(headers, genesis, hash, headers[hash].number - k)
      else ZERO
    }

    /** The walk gets to step `k` and finds itself on the index. */
    ghost predicate Meets(cached: set<Hash>, hash: Hash, number: nat, k: nat)
      reads this
      requires Stored()
    {
      k <= number && Walked(cached, hash, number, k, At(hash, k)) && ReadCanonicalHash(canon, number - k) == At(hash, k)
    }

    /** The index misleads: the walk meets it within the budget, and it has another block in the place of the
        ancestor. */
    ghost predicate Misled(cached: set<Hash>, hash: Hash, number: nat, ancestor: nat, budget: nat)
      reads this
      requires Stored()
    {
      && 2 <= ancestor <= number && ReadCanonicalHash(canon, number - ancestor) != ZERO
      && FollowParents(headers, hash, ancestor) != Some(ReadCanonicalHash(canon, number - ancestor))
      && exists k: nat :: k < ancestor && k <= budget && Meets(cached, hash, number, k)
    }

    /** A walk that gets further finds the header at each step before. */
    lemma FoundBefore(cached: set<Hash>, hash: Hash, number: nat, i: nat, k: nat)
      requires Stored() && i < k <= number && Walked(cached, hash, number, k, At(hash, k))
      ensures GetHeader(cached, At(hash, i), number - i).Some?
    {
      hide Closed, Ancestor, DifficultiesOk;
    }

    lemma WalkedAt(cached: set<Hash>, hash: Hash, number: nat, i: nat, h: Hash)
      requires Stored() && Walked(cached, hash, number, i, h)
      ensures h == At(hash, i)
    {
      hide Closed, Ancestor, DifficultiesOk;
    }

    /** The ancestor `ancestor` links above a block, jumping through the index as soon as the walk
        meets it; `budget` bounds the walk before that. Whatever the index holds, a non-zero answer is
        what following parent links yields unless the index misleads. */
    method GetAncestor(cached: set<Hash>, hash: Hash, number: nat, ancestor: nat, budget: nat) returns (h: Hash, n: nat, left: nat)
      requires Stored()
      ensures h != ZERO && FollowParents(headers, hash, ancestor) != Some(h) <==> Misled(cached, hash, number, ancestor, budget)
      ensures h != ZERO ==> n == number - ancestor
      ensures Valid() && hash in headers && headers[hash].number == number && ancestor <= number && ancestor <= budget ==> h != ZERO
      ensures left <= budget
    {
      hide Closed, Ancestor, DifficultiesOk, Walked, At, Indexes;
      left := budget;
      if ancestor > number {
        return ZERO, 0, left;
      }
      if ancestor == 1 {
        var header := GetHeader(cached, hash, number);
        if header.Some? {
          ParentStored(headers, genesis, hash);
          return header.value.parent, number - 1, left;
        }
        return ZERO, 0, left;
      }
      var rest := ancestor;
      h, n := hash, number;
      WalkStart(cached, hash, number);
      while rest != 0
        invariant 0 <= rest <= n && left <= budget
        invariant n - rest == number - ancestor && budget - left == ancestor - rest
        invariant Walked(cached, hash, number, ancestor - rest, h) && h == At(hash, ancestor - rest)
        invariant FollowParents(headers, hash, ancestor) == FollowParents(headers, h, rest)
        invariant forall k: nat :: k < ancestor - rest ==> !Meets(cached, hash, number, k)
        decreases rest
      {
        ghost var i := ancestor - rest;
        if ReadCanonicalHash(canon, n) == h {
          assert Meets(cached, hash, number, i);
          OnIndex(cached, hash, number, i, h, n - rest);
          return ReadCanonicalHash(canon, n - rest), n - rest, left;
        }
        if left == 0 {
          return ZERO, 0, left;
        }
        var header := GetHeader(cached, h, n);
        if header.None? {
          forall k: nat | i < k < ancestor ensures !Meets(cached, hash, number, k) {
            if Meets(cached, hash, number, k) { FoundBefore(cached, hash, number, i, k); }
          }
          StillFound(cached, hash, number, i, h);
          left := left - 1;
          return ZERO, 0, left;
        }
        WalkStep(cached, hash, number, i, h);
        WalkedAt(cached, hash, number, i + 1, header.value.parent);
        left, rest := left - 1, rest - 1;
        h, n := header.value.parent, n - 1;
      }
      StillStored(cached, hash, number, ancestor, h);
    }

    lemma WalkStart(cached: set<Hash>, hash: Hash, number: nat)
      requires Stored()
      ensures Walked(cached, hash, number, 0, hash) && At(hash, 0) == hash
    {
      hide Closed, Ancestor, DifficultiesOk;
      if hash in headers {
        AncestorSelf(headers, genesis, hash);
      }
    }

    /** With a clean index, meeting it at a block leads to an entry. */
    lemma OnIndex(cached: set<Hash>, hash: Hash, number: nat, i: nat, h: Hash, target: nat)
      requires Stored() && i <= number && Walked(cached, hash, number, i, h)
      requires ReadCanonicalHash(canon, number - i) == h && target <= number - i
      ensures Valid() && hash in headers && headers[hash].number == number ==> ReadCanonicalHash(canon, target) != ZERO
    {
      hide Closed, Ancestor, DifficultiesOk;
      if Valid() && hash in headers && headers[hash].number == number {
        IndexNonZero(headers, genesis, canon, current);
        ParentStored(headers, genesis, h);
      }
    }

    lemma StillStored(cached: set<Hash>, hash: Hash, number: nat, i: nat, h: Hash)
      requires Stored() && Walked(cached, hash, number, i, h) && i <= number
      ensures hash in headers && headers[hash].number == number ==> h in headers && h != ZERO && headers[h].number == number - i
    {
      hide Closed, Ancestor, DifficultiesOk;
      if hash in headers && headers[hash].number == number {
        ParentStored(headers, genesis, h);
      }
    }

    lemma StillFound(cached: set<Hash>, hash: Hash, number: nat, i: nat, h: Hash)
      requires Stored() && Walked(cached, hash, number, i, h) && i <= number
      ensures hash in headers && headers[hash].number == number ==> GetHeader(cached, h, number - i).Some?
    {
      StillStored(cached, hash, number, i, h);
    }

    /** On an index of the head's ancestors with nothing above, only misleading questions are answered
        wrongly. */
    lemma MisledExactly(cached: set<Hash>, hash: Hash, number: nat, ancestor: nat, budget: nat)
      requires Valid()
      ensures Misled(cached, hash, number, ancestor, budget) <==> Misleading(cached, hash, number, ancestor, budget)
    {
      hide Closed, Ancestor, DifficultiesOk, Indexes;
      if Misled(cached, hash, number, ancestor, budget) {
        var k: nat :| k < ancestor && k <= budget && Meets(cached, hash, number, k);
        MeetsMisleading(cached, hash, number, ancestor, budget, k);
      }
      if Misleading(cached, hash, number, ancestor, budget) {
        MisleadingMeets(cached, hash, number, ancestor, budget);
      }
    }

    lemma MeetsMisleading(cached: set<Hash>, hash: Hash, number: nat, ancestor: nat, budget: nat, k: nat)
      requires Valid() && Misled(cached, hash, number, ancestor, budget)
      requires k < ancestor && k <= budget && Meets(cached, hash, number, k)
      ensures Misleading(cached, hash, number, ancestor, budget)
    {
      hide Closed, Ancestor, DifficultiesOk;
      IndexNonZero(headers, genesis, canon, current);
      ParentStored(headers, genesis, current);
      var h := At(hash, k);
      if h in headers {
        AncestorSelf(headers, genesis, h);
        AncestorTransitive(headers, genesis, hash, number - k, number - ancestor);
        FollowIsAncestor(headers, genesis, hash, ancestor);
        PathBelow(headers, genesis, canon, current, h, number - k, number - ancestor);
        assert false;
      }
    }

    lemma MisleadingMeets(cached: set<Hash>, hash: Hash, number: nat, ancestor: nat, budget: nat)
      requires Valid() && Misleading(cached, hash, number, ancestor, budget)
      ensures Misled(cached, hash, number, ancestor, budget)
    {
      hide Closed, Ancestor, DifficultiesOk;
      IndexNonZero(headers, genesis, canon, current);
      ParentStored(headers, genesis, current);
      FollowPast(headers, genesis, hash, ancestor);
      var k := if hash == ZERO then 0 else headers[hash].number + 1;
      assert Meets(cached, hash, number, k);
    }

    /** Makes a stored header the head: rewrites the index from it down to the fork point. */
    method Adopt(hash: Hash, header: Header)
      requires Stored() && Indexes(headers, genesis, canon, current)
      requires hash in headers && headers[hash] == header && header.number > 0
      modifies `canon, `current
      ensures current == hash && Stored() && Indexes(headers, genesis, canon, hash)
    {
      hide Closed, Ancestor, Indexes, DifficultiesOk;
      IndexNonZero(headers, genesis, canon, current);
      var deletes, end := EntriesAbove(canon, header.number);
      var writes, fork := Overwrites(headers, genesis, canon, current, hash);
      Rerouted(headers, genesis, canon, current, hash, deletes, writes, fork);
      canon := Flush(canon, Batch(deletes, writes[header.number := hash]));
      current := hash;
    }
  }

  /** Following parent links `k` times. */
  function FollowParents(s: Headers, hash: Hash, k: nat): Option<Hash>
    decreases k
  {
    if k == 0 then Some(hash)
    else if hash in s then FollowParents(s, s[hash].parent, k - 1)
    else None
  }

  lemma {:induction false} FollowIsAncestor(s: Headers, genesis: Hash, hash: Hash, k: nat)
    requires Closed(s, genesis) && hash in s && k <= s[hash].number
    ensures FollowParents(s, hash, k) == Some(Ancestor(s, genesis, hash, s[hash].number - k))
    decreases k
  {
    ParentStored(s, genesis, hash);
    AncestorSelf(s, genesis, hash);
    if k > 0 {
      FollowIsAncestor(s, genesis, s[hash].parent, k - 1);
      AncestorParent(s, genesis, hash, s[hash].number - k);
    }
  }

  /** Following more links than there are leads nowhere. */
  lemma {:induction false} FollowPast(s: Headers, genesis: Hash, hash: Hash, k: nat)
    requires Closed(s, genesis) && (hash == ZERO || hash in s) && k > if hash == ZERO then 0 else s[hash].number + 1
    ensures FollowParents(s, hash, k) == None
    decreases k
  {
    if hash != ZERO {
      FollowPast(s, genesis, s[hash].parent, k - 1);
    }
  }

  lemma IndexNonZero(s: Headers, genesis: Hash, canon: map<nat, Hash>, head: Hash)
    requires Closed(s, genesis) && head in s && Indexes(s, genesis, canon, head)
    ensures forall n: nat :: n in canon <==> n <= s[head].number
    ensures forall n: nat :: n in canon ==> canon[n] != ZERO
  {
    ParentStored(s, genesis, head);
    hide Closed, Ancestor;
  }

  /** A question that misleads: two links above the genesis block, asked for with number 2, there is a
      block all the same. */
  method TooHighExample() returns (chain: HeaderChain, h: Hash)
    ensures h != ZERO && 1 in chain.headers && FollowParents(chain.headers, 1, 2) == None
  {
    chain := new HeaderChain(1, Header(ZERO, 0, 1));
    var n, left;
    chain.MisledExactly({1}, 1, 2, 2, 1);
    h, n, left := chain.GetAncestor({1}, 1, 2, 2, 1);
  }

  /** A question that misleads: two links above the zero hash there is a block, the genesis block. */
  method MisleadingExample() returns (chain: HeaderChain, h: Hash)
    ensures h != ZERO && FollowParents(chain.headers, ZERO, 2) == None
  {
    chain := new HeaderChain(1, Header(ZERO, 0, 1));
    var n, left;
    chain.MisledExactly({}, ZERO, 2, 2, 0);
    h, n, left := chain.GetAncestor({}, ZERO, 2, 2, 0);
  }

  /** An index that misleads: block 4, on top of 1, has become the head of the blocks 1, 2, 3 and 5, and the
      entries of 3 and 5 are left above it. Two links above block 5 is block 2, but the answer is
      another one. */
  method StaleAncestorExample() returns (chain: HeaderChain, h: Hash)
    ensures chain.canon == map[0 := 1, 1 := 4, 2 := 3, 3 := 5]
    ensures FollowParents(chain.headers, 5, 2) == Some(2) && h != ZERO && h != 2
  {
    hide Closed, Ancestor, DifficultiesOk, Indexes;
    chain := new HeaderChain(1, Header(ZERO, 0, 1));
    var s2 := chain.WriteHeader(2, Header(1, 1, 1), false);
    var s3 := chain.WriteHeader(3, Header(2, 2, 1), false);
    var s5 := chain.WriteHeader(5, Header(3, 3, 1), false);
    var s4 := chain.WriteHeader(4, Header(1, 1, 1), false);
    chain.canon, chain.current := map[0 := 1, 1 := 4, 2 := 3, 3 := 5], 4;
    chain.WalkStart({}, 5, 3);
    assert chain.Meets({}, 5, 3, 0);
    var n, left;
    h, n, left := chain.GetAncestor({}, 5, 3, 2, 0);
  }
}
