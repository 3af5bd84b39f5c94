/** The block hash function handed to the virtual machine: it walks parent links from the current
    header and remembers what it has seen. */
module HashFns {
  import opened BlockTrees
  import opened Options
  import opened Uint64

  function GetHeader(s: Headers, h: Hash, n: nat): Option<Header> {
    if h in s && s[h].number == n then Some(s[h]) else None
  }

  /** The hash found by following parent links: that of the parent for k = 0. */
  function Link(s: Headers, ref: Header, k: nat): Option<Hash> {
    if k == 0 then Some(ref.parent)
    else
      match Link(s, ref, k - 1)
      case None => None
      case Some(h) =>
        match GetHeader(s, h, Wrap(ref.number - k))
        case None => None
        case Some(header) => Some(header.parent)
  }

  lemma FirstLink(s: Headers, ref: Header)
    ensures Link(s, ref, 0) == Some(ref.parent)
  {
  }

  lemma LinkNext(s: Headers, ref: Header, k: nat, h: Hash)
    requires Link(s, ref, k) == Some(h)
    ensures var header := GetHeader(s, h, Wrap(ref.number - k - 1));
            Link(s, ref, k + 1) == if header.Some? then Some(header.value.parent) else None
  {
  }

  lemma GenesisParent(s: Headers, genesis: Hash)
    requires Closed(s, genesis)
    ensures genesis in s && s[genesis].parent == ZERO && ZERO !in s
  {
  }

  /** How many links lie between the parent and the block with number n. */
  function Steps(ref: Header, n: nat): nat {
    Wrap(ref.number - n - 1)
  }

  /** What a fresh walk answers. */
  function FreshHash(s: Headers, ref: Header, n: nat): Hash {
    var found := Link(s, ref, Steps(ref, n));
    if found.Some? then found.value else ZERO
  }

  lemma {:induction false} LinkEnds(s: Headers, ref: Header, k: nat, m: nat)
    requires k <= m && Link(s, ref, k).None?
    ensures Link(s, ref, m).None?
  {
    if k < m {
      LinkEnds(s, ref, k, m - 1);
    }
  }

  lemma {:induction false} LinkIsAncestor(s: Headers, genesis: Hash, ref: Header, k: nat)
    requires Closed(s, genesis) && ref.parent in s && 0 < ref.number < TWO_64 && s[ref.parent].number == ref.number - 1
    requires k < ref.number
    ensures Link(s, ref, k) == Some(Ancestor(s, genesis, ref.parent, ref.number - 1 - k))
  {
    hide Closed, Ancestor;
    if k == 0 {
      AncestorSelf(s, genesis, ref.parent);
    } else {
      LinkIsAncestor(s, genesis, ref, k - 1);
      AncestorParent(s, genesis, ref.parent, ref.number - 1 - k);
    }
  }

  /** Where all ancestors are known, the walk answers with the ancestor for every number below the
      current one, and with the zero hash for all others. */
  lemma FreshIsAncestor(s: Headers, genesis: Hash, ref: Header, n: nat)
    requires Closed(s, genesis) && ref.parent in s && 0 < ref.number < TWO_64 && s[ref.parent].number == ref.number - 1
    requires n < TWO_64
    ensures FreshHash(s, ref, n) == if n < ref.number then Ancestor(s, genesis, ref.parent, n) else ZERO
  {
    hide Closed, Ancestor, Wrap;
    WrapOnce(ref.number - n - 1);
    if n < ref.number {
      LinkIsAncestor(s, genesis, ref, ref.number - 1 - n);
    } else {
      PastGenesis(s, genesis, ref);
      if Steps(ref, n) > ref.number {
        LinkEnds(s, ref, ref.number + 1, Steps(ref, n));
      }
    }
  }

  /** The parent of the genesis block is the zero hash, and nothing is stored under that. */
  lemma PastGenesis(s: Headers, genesis: Hash, ref: Header)
    requires Closed(s, genesis) && ref.parent in s && 0 < ref.number < TWO_64 && s[ref.parent].number == ref.number - 1
    ensures Link(s, ref, ref.number) == Some(ZERO) && Link(s, ref, ref.number + 1).None?
  {
    hide Closed, Ancestor, Wrap, Link;
    var k := ref.number;
    LinkIsAncestor(s, genesis, ref, k - 1);
    AncestorZero(s, genesis, ref.parent);
    ParentStored(s, genesis, genesis);
    GenesisParent(s, genesis);
    WrapOnce(0);
    LinkNext(s, ref, k - 1, genesis);
    LinkNext(s, ref, k, ZERO);
  }

  class HashFn {
    const s: Headers
    const ref: Header
    var cache: seq<Hash>

    /** The cache holds the first links, in order. */
    ghost predicate Valid()
      reads this
    {
      |cache| <= TWO_64 && forall k :: 0 <= k < |cache| ==> Link(s, ref, k) == Some(cache[k])
    }

    constructor (s: Headers, ref: Header)
      ensures Valid() && this.s == s && this.ref == ref
    {
      this.s, this.ref, cache := s, ref, [];
    }

    /** The answer does not depend on what earlier queries left in the cache. */
    method GetHash(n: nat) returns (h: Hash)
      requires Valid() && n < TWO_64 && ref.number < TWO_64
      modifies this
      ensures Valid() && old(cache) <= cache
      ensures h == FreshHash(s, ref, n)
    {
      hide Wrap, Link;
      WrapOnce(ref.number - n - 1);
      if |cache| == 0 {
        FirstLink(s, ref);
        cache := [ref.parent];
      }
      var idx := Wrap(ref.number - n - 1);
      if idx < |cache| {
        return cache[idx];
      }
      var lastKnownHash, lastKnownNumber := cache[|cache| - 1], Wrap(ref.number - |cache|);
      while true
        invariant Valid() && old(cache) <= cache && 1 <= |cache| <= idx
        invariant lastKnownHash == cache[|cache| - 1] && lastKnownNumber == Wrap(ref.number - |cache|)
        decreases idx - |cache|
      {
        WrapOnce(ref.number - |cache|);
        LinkNext(s, ref, |cache| - 1, lastKnownHash);
        var header := GetHeader(s, lastKnownHash, lastKnownNumber);
        if header.None? {
          LinkEnds(s, ref, |cache|, idx);
          break;
        }
        WrapOnce(header.value.number - 1);
        WrapOnce(ref.number - |cache| - 1);
        cache := cache + [header.value.parent];
        lastKnownHash := header.value.parent;
        lastKnownNumber := Wrap(header.value.number - 1);
        if n == lastKnownNumber {
          return lastKnownHash;
        }
      }
      return ZERO;
    }

    /** Any queries, in any order. */
    method GetHashes(ns: seq<nat>) returns (hs: seq<Hash>)
      requires Valid() && ref.number < TWO_64 && forall i :: 0 <= i < |ns| ==> ns[i] < TWO_64
      modifies this
      ensures Valid() && |hs| == |ns| && forall i :: 0 <= i < |ns| ==> hs[i] == FreshHash(s, ref, ns[i])
    {
      hs := [];
      for i := 0 to |ns|
        invariant Valid() && |hs| == i && forall j :: 0 <= j < i ==> hs[j] == FreshHash(s, ref, ns[j])
      {
        var h := GetHash(ns[i]);
        hs := hs + [h];
      }
    }
  }
}
