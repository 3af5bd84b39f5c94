/** The chain indexer: processes sections of the canonical chain in the background, with the lock
    released, while head events roll back what a reorganisation has invalidated. */
module ChainIndexers {
  import opened BlockTrees
  import opened Options
  import opened Uint64

  /** `hi` is exactly `k` parent links above `lo`. */
  ghost predicate Linked(s: Headers, lo: Hash, hi: Hash, k: nat)
    decreases k
  {
    if k == 0 then lo == hi else hi in s && hi != ZERO && Linked(s, lo, s[hi].parent, k - 1)
  }

  lemma {:induction false} LinkedGrows(s: Headers, s': Headers, lo: Hash, hi: Hash, k: nat)
    requires Linked(s, lo, hi, k) && forall h :: h in s ==> h in s' && s'[h] == s[h]
    ensures Linked(s', lo, hi, k)
    decreases k
  {
    if k > 0 { LinkedGrows(s, s', lo, s[hi].parent, k - 1); }
  }

  /** The lower end of a linked stretch is determined by the upper one. */
  lemma {:induction false} LinkedUnique(s: Headers, lo: Hash, lo': Hash, hi: Hash, k: nat)
    requires Linked(s, lo, hi, k) && Linked(s, lo', hi, k)
    ensures lo == lo'
    decreases k
  {
    if k > 0 { LinkedUnique(s, lo, lo', s[hi].parent, k - 1); }
  }

  /** Entries of the canonical index are known headers, each on top of the one below. */
  predicate IsChain(s: Headers, canon: map<nat, Hash>) {
    forall n: nat :: n in canon ==>
      && canon[n] in s
      && (n == 0 ==> s[canon[n]].parent == ZERO)
      && (n > 0 ==> n - 1 in canon && s[canon[n]].parent == canon[n - 1])
  }

  /** Going down a linked stretch from a canonical block stays on the canonical chain. */
  lemma {:induction false} LinkedIsCanonical(s: Headers, canon: map<nat, Hash>, lo: Hash, n: nat, k: nat)
    requires IsChain(s, canon) && n in canon && k <= n && Linked(s, lo, canon[n], k)
    ensures n - k in canon && canon[n - k] == lo
    decreases k
  {
    if k > 0 { LinkedIsCanonical(s, canon, lo, n - 1, k - 1); }
  }

  /** The section that is being processed: how many of its blocks have been read, the last of
      them, and whether anything has gone wrong. */
  datatype Job = Job(section: nat, oldHead: Hash, done: nat, last: Hash, failed: bool)

  /** The quotient counts the whole sections that fit. */
  lemma Wholes(n: nat, size: nat)
    requires size > 0
    ensures forall k: nat :: k * size <= n <==> k <= n / size
  {
    forall k: nat
      ensures k * size <= n <==> k <= n / size
    {
      var q := n / size;
      assert n == q * size + n % size;
      if k <= q {
        assert k * size <= q * size;
      } else {
        assert k * size >= (q + 1) * size;
      }
    }
  }

  class ChainIndexer {
    const size: nat
    const confirms: nat
    const checkpoint: nat
    const checkpointHead: Hash
    var headers: Headers
    var heads: map<nat, Hash>
    var stored: nat
    var known: nat
    var cascaded: nat
    var job: Option<Job>

    function SectionHead(i: int): Hash
      reads `heads
    {
      if 0 <= i && i in heads then heads[i] else ZERO
    }

    /** Section `i` is stored with a head that is `size` links above the head before it. */
    ghost predicate SectionOk(i: nat)
      reads `heads, `headers
    {
      i in heads && heads[i] != ZERO && Linked(headers, SectionHead(i - 1), heads[i], size)
    }

    ghost predicate HeadsOk()
      reads `heads, `headers, `stored
    {
      && (forall i: nat :: i in heads ==> i < stored)
      && (forall i: nat :: checkpoint <= i < stored ==> SectionOk(i))
      && (0 < checkpoint <= stored ==> SectionHead(checkpoint - 1) != ZERO)
      && (0 < stored < checkpoint ==> SectionHead(stored - 1) != ZERO)
    }

    ghost predicate JobOk()
      reads `job, `headers, `stored
    {
      job.Some? ==>
        var j := job.value;
        && stored <= j.section && j.done <= size && (j.section > 0 ==> j.oldHead != ZERO) && (j.section == 0 ==> j.oldHead == ZERO)
        && (j.done > 0 ==> j.last != ZERO) && Linked(headers, j.oldHead, j.last, j.done)
    }

    ghost predicate Valid()
      reads this
    {
      size > 0 && HeadsOk() && JobOk()
    }

    /** An index that starts from a checkpoint, or from nothing when `checkpoint` is zero. */
    constructor (size: nat, confirms: nat, checkpoint: nat, checkpointHead: Hash)
      requires size > 0 && (checkpoint > 0 ==> checkpointHead != ZERO)
      ensures Valid() && stored == checkpoint && known == cascaded == 0 && headers == map[] && job == None
      ensures heads == if checkpoint > 0 then map[checkpoint - 1 := checkpointHead] else map[]
      ensures this.size == size && this.confirms == confirms && this.checkpoint == checkpoint && this.checkpointHead == checkpointHead
    {
      this.size, this.confirms, this.checkpoint, this.checkpointHead := size, confirms, checkpoint, checkpointHead;
      headers, known, cascaded, job := map[], 0, 0, None;
      stored := checkpoint;
      heads := if checkpoint > 0 then map[checkpoint - 1 := checkpointHead] else map[];
    }

    /** A new header becomes known to the chain. */
    method LearnHeader(hash: Hash, header: Header)
      requires Valid() && hash !in headers
      modifies `headers
      ensures Valid() && headers == old(headers)[hash := header]
    {
      headers := headers[hash := header];
      forall i: nat | checkpoint <= i < stored ensures SectionOk(i) {
        assert old(SectionOk(i));
        LinkedGrows(old(headers), headers, SectionHead(i - 1), heads[i], size);
      }
      if job.Some? {
        LinkedGrows(old(headers), headers, job.value.oldHead, job.value.last, job.value.done);
      }
    }

    /** Sets the number of stored sections; section heads beyond it are removed. */
    method SetValidSections(sections: nat)
      requires forall i: nat :: i in heads ==> i < stored || i < sections
      modifies `stored, `heads
      ensures stored == sections
      ensures forall i: nat :: i in heads <==> i in old(heads) && i < sections
      ensures forall i: nat :: i in heads ==> heads[i] == old(heads)[i]
    {
      while stored > sections
        invariant forall i: nat :: i in heads ==> i in old(heads) && heads[i] == old(heads)[i]
        invariant forall i: nat :: i in old(heads) && i < sections ==> i in heads
        invariant forall i: nat :: i in heads ==> i < stored || i < sections
      {
        stored := stored - 1;
        heads := heads - {stored};
      }
      stored := sections;
    }

    /** Rolling back keeps every remaining section as it was. */
    method Rollback(sections: nat)
      requires Valid() && sections <= stored && (sections == 0 || checkpoint <= sections)
      modifies `stored, `heads
      ensures Valid() && stored == sections
      ensures forall i: nat :: i in heads <==> i in old(heads) && i < sections
      ensures forall i: nat :: i in heads ==> heads[i] == old(heads)[i]
    {
      hide Linked;
      SetValidSections(sections);
      forall i: nat | checkpoint <= i < sections ensures SectionOk(i) { assert old(SectionOk(i)); }
    }

    /** A section ends by a block exactly if it is among the whole sections up to it. */
    lemma EndsBy(head: nat)
      requires size > 0
      ensures forall i: nat :: SectionEnd(i) <= head <==> i < (head + 1) / size
    {
      Wholes(head + 1, size);
      forall i: nat
        ensures SectionEnd(i) <= head <==> i < (head + 1) / size
      {
        assert (i + 1) * size <= head + 1 <==> i + 1 <= (head + 1) / size;
      }
    }

    /** The whole sections up to `head`, or none while they do not reach the checkpoint. */
    function KnownBy(head: nat): nat
      requires size > 0
    {
      if (head + 1) / size < checkpoint then 0 else (head + 1) / size
    }

    /** Section `i` outlasts a reorganisation down to `head`. */
    ghost predicate Outlasts(i: nat, head: nat)
      requires size > 0
    {
      i < checkpoint || SectionEnd(i) <= head
    }

    /** The chain was reorganised down to `head`; `cascade` is the head the child indexers are
        told to go back to, if they have been told of a later one. */
    method Reorganised(head: nat) returns (cascade: Option<nat>)
      requires Valid()
      modifies `stored, `heads, `known, `cascaded
      ensures Valid()
      ensures forall i: nat :: i in heads ==> i in old(heads) && heads[i] == old(heads)[i]
      ensures known <= old(known) && known * size <= head + 1
      ensures forall i: nat :: i < stored <==> i < old(stored) && Outlasts(i, head)
      ensures cascade == if KnownBy(head) * size < old(cascaded) then Some(KnownBy(head) * size) else None
      ensures cascaded == if cascade.Some? then cascade.value else old(cascaded)
    {
      hide Linked, HeadsOk, JobOk, SectionEnd;
      EndsBy(head);
      var sections := (head + 1) / size;
      var knownSections := KnownBy(head);
      var storedSections := if sections < checkpoint then checkpoint else sections;
      if knownSections < known {
        known := knownSections;
      }
      assert known * size <= head + 1 by {
        Wholes(head + 1, size);
      }
      if storedSections < stored {
        Rollback(storedSections);
      }
      cascade := None;
      if knownSections * size < cascaded {
        cascaded := knownSections * size;
        cascade := Some(cascaded);
      }
    }

    /** The chain has grown to `head`; `synced` is the canonical hash at the end of the checkpointed
        range. */
    method Grown(head: nat, synced: Hash)
      requires size > 0
      modifies `known
      ensures old(known) <= known
      ensures old(known) < known ==>
                known * size + confirms <= head + 1 && checkpoint <= known && (old(known) < checkpoint ==> synced == checkpointHead)
      ensures (old(known) < checkpoint ==> synced == checkpointHead) ==>
                forall k: nat :: checkpoint <= k && 0 < k && k * size + confirms <= head + 1 ==> k <= known
    {
      if head >= confirms {
        var sections := (head + 1 - confirms) / size;
        Wholes(head + 1 - confirms, size);
        if sections < checkpoint {
          sections := 0;
        }
        if sections > known {
          if known < checkpoint && synced != checkpointHead {
            return;
          }
          known := sections;
        }
      }
    }

    /** A head event. */
    method NewHead(head: nat, reorg: bool, synced: Hash) returns (cascade: Option<nat>)
      requires Valid()
      modifies `stored, `heads, `known, `cascaded
      ensures Valid()
      ensures forall i: nat :: i in heads ==> i in old(heads) && heads[i] == old(heads)[i]
      ensures reorg ==> known <= old(known) && known * size <= head + 1
      ensures reorg ==> forall i: nat :: i < stored <==> i < old(stored) && Outlasts(i, head)
      ensures cascade == if reorg && KnownBy(head) * size < old(cascaded) then Some(KnownBy(head) * size) else None
      ensures cascaded == if cascade.Some? then cascade.value else old(cascaded)
      ensures !reorg ==> stored == old(stored) && heads == old(heads) && old(known) <= known
      ensures !reorg && old(known) < known ==>
                known * size + confirms <= head + 1 && checkpoint <= known && (old(known) < checkpoint ==> synced == checkpointHead)
      ensures !reorg && (old(known) < checkpoint ==> synced == checkpointHead) ==>
                forall k: nat :: checkpoint <= k && 0 < k && k * size + confirms <= head + 1 ==> k <= known
    {
      hide Linked, HeadsOk, JobOk, SectionEnd, Outlasts, KnownBy;
      cascade := None;
      if reorg {
        cascade := Reorganised(head);
      } else {
        Grown(head, synced);
      }
    }

    /** The event loop gets a new head on top of `parent`, after the head `previous`. It signals a
        reorganisation down to the common ancestor only if the index has another block in the place of
        the previous head, and that ancestor is known. */
    method OnEvent(parent: Hash, number: nat, previous: Hash, previousNumber: nat, canon: map<nat, Hash>, ancestor: Option<nat>,
                   synced: Hash)
      requires Valid()
      modifies `stored, `heads, `known, `cascaded
      ensures Valid()
      ensures forall i: nat :: i in heads ==> i in old(heads) && heads[i] == old(heads)[i]
      ensures if parent != previous && ReadCanonicalHash(canon, previousNumber) != previous && ancestor.Some?
              then forall i: nat :: i < stored <==> i < old(stored) && Outlasts(i, ancestor.value)
              else stored == old(stored) && heads == old(heads) && old(known) <= known
    {
      hide Linked, HeadsOk, JobOk, SectionEnd, Outlasts, KnownBy;
      if parent != previous {
        if ReadCanonicalHash(canon, previousNumber) != previous {
          if ancestor.Some? {
            var _ := NewHead(ancestor.value, true, synced);
          }
        }
      }
      var _ := NewHead(number, false, synced);
    }

    lemma HeadsBelow()
      requires Valid()
      ensures forall i: nat :: i in heads ==> i < stored
    {
    }

    lemma LastStored()
      requires Valid() && checkpoint < stored
      ensures stored - 1 in heads && heads[stored - 1] != ZERO
    {
      hide Linked;
      assert SectionOk(stored - 1);
    }

    /** Drops stored sections from the top as long as their heads are not canonical, down to the
        checkpoint at most. Whatever the index holds, the last head is canonical then. */
    method VerifyLastHead(canon: map<nat, Hash>)
      requires Valid()
      modifies `stored, `heads
      ensures Valid() && stored <= old(stored) && (stored == old(stored) || stored >= checkpoint)
      ensures checkpoint < stored ==> IsCanonical(stored - 1, canon)
      ensures forall i: nat :: stored <= i < old(stored) ==>
                i in old(heads) && ReadCanonicalHash(canon, SectionEnd(i)) != old(heads)[i]
      ensures forall i: nat :: i in heads <==> i in old(heads) && i < stored
      ensures forall i: nat :: i in heads ==> heads[i] == old(heads)[i]
    {
      hide Linked, SectionEnd, HeadsOk, JobOk, SectionOk;
      HeadsBelow();
      while stored > 0 && stored > checkpoint
        invariant Valid() && stored <= old(stored) && (stored == old(stored) || stored >= checkpoint)
        invariant forall i: nat :: stored <= i < old(stored) ==>
                    i in old(heads) && ReadCanonicalHash(canon, SectionEnd(i)) != old(heads)[i]
        invariant forall i: nat :: i in heads <==> i in old(heads) && i < stored
        invariant forall i: nat :: i in heads ==> heads[i] == old(heads)[i]
        decreases stored
      {
        LastStored();
        if ReadCanonicalHash(canon, SectionEnd(stored - 1)) == SectionHead(stored - 1) {
          return;
        }
        Rollback(stored - 1);
      }
    }

    /** The number of the last block of section `i`. */
    function SectionEnd(i: nat): nat
      requires size > 0
    {
      Multiples(i);
      (i + 1) * size - 1
    }

    lemma Multiples(i: nat)
      ensures (i + 1) * size >= size && (i + 2) * size == (i + 1) * size + size
    {
      assert (i + 1) * size == i * size + size;
      assert i * size >= 0;
    }

    lemma NextEnd(i: nat)
      requires size > 0
      ensures SectionEnd(i + 1) == SectionEnd(i) + size
    {
      Multiples(i);
    }

    /** Section `i` is stored and its head is the canonical block at its end. */
    ghost predicate IsCanonical(i: nat, canon: map<nat, Hash>)
      reads `heads
      requires size > 0
    {
      i in heads && SectionEnd(i) in canon && heads[i] == canon[SectionEnd(i)]
    }

    /** The index entry at the end of section `i` is linked to the one a section later. */
    ghost predicate EndLinked(canon: map<nat, Hash>, i: nat)
      reads `headers
      requires size > 0
    {
      && SectionEnd(i) in canon && SectionEnd(i + 1) in canon
      && Linked(headers, canon[SectionEnd(i)], canon[SectionEnd(i + 1)], size)
    }

    ghost predicate EndsLinked(canon: map<nat, Hash>, n: nat)
      reads `headers
      requires size > 0
    {
      forall i: nat :: checkpoint <= i < n - 1 ==> EndLinked(canon, i)
    }

    ghost predicate AllCanonical(canon: map<nat, Hash>, n: nat)
      reads `heads
      requires size > 0
    {
      forall i: nat :: checkpoint <= i < n ==> IsCanonical(i, canon)
    }

    lemma {:induction false} LinkedDown(canon: map<nat, Hash>, i: nat)
      requires Valid() && checkpoint <= i < stored && IsCanonical(stored - 1, canon) && EndsLinked(canon, stored)
      ensures IsCanonical(i, canon)
      decreases stored - i
    {
      hide Linked, SectionEnd;
      if i < stored - 1 {
        LinkedDown(canon, i + 1);
        assert SectionOk(i) && SectionOk(i + 1) && EndLinked(canon, i);
        LinkedUnique(headers, heads[i], canon[SectionEnd(i)], heads[i + 1], size);
      }
    }

    /** One canonical head vouches for the sections below it exactly if the index entries at their ends
        are linked. */
    lemma VouchesExactly(canon: map<nat, Hash>)
      requires Valid() && (checkpoint < stored ==> IsCanonical(stored - 1, canon))
      ensures AllCanonical(canon, stored) <==> EndsLinked(canon, stored)
    {
      hide Linked, SectionEnd;
      if EndsLinked(canon, stored) {
        forall i: nat | checkpoint <= i < stored ensures IsCanonical(i, canon) {
          LinkedDown(canon, i);
        }
      }
      if AllCanonical(canon, stored) {
        forall i: nat | checkpoint <= i < stored - 1 ensures EndLinked(canon, i) {
          assert SectionOk(i + 1) && IsCanonical(i, canon) && IsCanonical(i + 1, canon);
        }
      }
    }

    lemma {:induction false} CanonicalDown(canon: map<nat, Hash>, i: nat)
      requires Valid() && IsChain(headers, canon) && checkpoint <= i < stored && IsCanonical(stored - 1, canon)
      ensures IsCanonical(i, canon)
      decreases stored - i
    {
      hide Linked, IsChain;
      if i < stored - 1 {
        CanonicalDown(canon, i + 1);
        assert SectionOk(i) && SectionOk(i + 1);
        NextEnd(i);
        LinkedIsCanonical(headers, canon, heads[i], SectionEnd(i + 1), size);
      }
    }

    /** It does on every index that is one linked chain. */
    lemma ChainVouches(canon: map<nat, Hash>)
      requires Valid() && (checkpoint < stored ==> IsCanonical(stored - 1, canon)) && IsChain(headers, canon)
      ensures AllCanonical(canon, stored) && EndsLinked(canon, stored)
    {
      hide Linked, IsChain, SectionEnd, EndsLinked;
      forall i: nat | checkpoint <= i < stored ensures IsCanonical(i, canon) {
        CanonicalDown(canon, i);
      }
      VouchesExactly(canon);
    }

    // ----- Processing a section with the lock released -----

    /** Picks the next section and remembers the head below it; then the lock is released. */
    method BeginUpdate(canon: map<nat, Hash>)
      requires Valid() && job.None?
      modifies `stored, `heads, `job
      ensures Valid() && stored <= old(stored)
      ensures job.Some? <==> old(known > stored)
      ensures job.None? ==> stored == old(stored) && heads == old(heads)
      ensures job.Some? && checkpoint < stored ==> IsCanonical(stored - 1, canon)
      ensures forall i: nat :: stored <= i < old(stored) ==>
                i in old(heads) && ReadCanonicalHash(canon, SectionEnd(i)) != old(heads)[i]
      ensures forall i: nat :: i in heads <==> i in old(heads) && i < stored
      ensures forall i: nat :: i in heads ==> heads[i] == old(heads)[i]
      ensures job.Some? ==> job.value == Job(stored, SectionHead(stored - 1), 0, SectionHead(stored - 1), false)
    {
      if known <= stored {
        return;
      }
      hide SectionEnd;
      VerifyLastHead(canon);
      if stored > checkpoint { assert SectionOk(stored - 1); }
      job := Some(Job(stored, SectionHead(stored - 1), 0, SectionHead(stored - 1), false));
    }

    /** The backend refuses the section: everything stored is given up, without the lock. */
    method FailReset()
      requires Valid() && job.Some?
      modifies `stored, `heads, `job
      ensures Valid() && stored == 0 && job.Some? && job.value.failed
    {
      hide Linked;
      Rollback(0);
      job := Some(job.value.(failed := true));
    }

    /** Reads the next block of the section: `hash` is what the canonical index holds at that
        moment. It must be a known header on top of the block read before. */
    method ProcessBlock(hash: Hash, processed: bool)
      requires Valid() && job.Some? && !job.value.failed && job.value.done < size
      modifies `job
      ensures Valid() && job.Some?
      ensures var j, j' := old(job.value), job.value;
              if hash != ZERO && hash in headers && headers[hash].parent == j.last && processed
              then j' == j.(done := j.done + 1, last := hash)
              else j' == j.(failed := true)
    {
      var j := job.value;
      if hash == ZERO || hash !in headers || headers[hash].parent != j.last || !processed {
        job := Some(j.(failed := true));
      } else {
        job := Some(j.(done := j.done + 1, last := hash));
      }
    }

    /** Stores a section that was read completely on top of the last stored head. */
    method StoreSection()
      requires Valid() && job.Some? && job.value.done == size
      requires job.value.section == 0 || job.value.oldHead == SectionHead(job.value.section - 1)
      modifies `stored, `heads, `job
      ensures Valid() && job.None?
      ensures stored == old(job.value.section) + 1 && heads == old(heads)[old(job.value.section) := old(job.value.last)]
    {
      hide Linked;
      var j := job.value;
      job := None;
      heads := heads[j.section := j.last];
      stored := j.section + 1;
      forall i: nat | checkpoint <= i < stored ensures SectionOk(i) {
        if i < j.section { assert old(SectionOk(i)); }
      }
    }

    /** Takes the lock again. The section counts only if it was read completely and the head below
        it is still the one it was built on; the child indexers are then told of its last block. */
    method EndUpdate(canon: map<nat, Hash>, committed: bool) returns (cascade: Option<nat>)
      requires Valid() && job.Some?
      modifies `stored, `heads, `known, `cascaded, `job
      ensures Valid() && job.None?
      ensures var j := old(job.value);
              if !j.failed && j.done == size && committed && (j.section == 0 || j.oldHead == old(SectionHead(j.section - 1)))
              then
                && stored == j.section + 1 && heads == old(heads)[j.section := j.last] && known == old(known)
                && cascaded == SectionEnd(j.section) && cascade == Some(cascaded)
              else
                && stored <= old(stored) && known == stored && cascaded == old(cascaded) && cascade == None
                && (checkpoint < stored ==> IsCanonical(stored - 1, canon))
                && (AllCanonical(canon, stored) <==> EndsLinked(canon, stored))
    {
      hide Linked, SectionEnd, HeadsOk, IsCanonical, AllCanonical, EndsLinked;
      var j := job.value;
      if !j.failed && j.done == size && committed && (j.section == 0 || j.oldHead == SectionHead(j.section - 1)) {
        StoreSection();
        cascaded := SectionEnd(j.section);
        cascade := Some(cascaded);
      } else {
        job := None;
        VerifyLastHead(canon);
        VouchesExactly(canon);
        known, cascade := stored, None;
      }
    }

    /** The number of sections, for others to use, with the number and the hash of the last block they
        cover. Without any section the number wraps around. All reported sections from the checkpoint
        on are canonical exactly if the index entries at their ends are linked. */
    method Sections(canon: map<nat, Hash>) returns (n: nat, number: nat, head: Hash)
      requires Valid()
      modifies `stored, `heads
      ensures Valid() && n == stored <= old(stored) && head == SectionHead(n - 1)
      ensures number == if n == 0 then MAX_UINT64 else SectionEnd(n - 1)
      ensures checkpoint < n ==> number in canon && canon[number] == head
      ensures AllCanonical(canon, n) <==> EndsLinked(canon, n)
      ensures IsChain(headers, canon) ==> AllCanonical(canon, n)
      ensures forall i: nat :: n <= i < old(stored) ==>
                i in old(heads) && ReadCanonicalHash(canon, SectionEnd(i)) != old(heads)[i]
      ensures forall i: nat :: i in heads <==> i in old(heads) && i < n
      ensures forall i: nat :: i in heads ==> heads[i] == old(heads)[i]
    {
      hide IsChain, Linked, SectionEnd, HeadsOk, JobOk, AllCanonical, EndsLinked;
      VerifyLastHead(canon);
      VouchesExactly(canon);
      if IsChain(headers, canon) { ChainVouches(canon); }
      n, head := stored, SectionHead(stored - 1);
      number := if stored == 0 then MAX_UINT64 else SectionEnd(stored - 1);
    }

    // ----- Every interleaving -----

    /** One step of the chain, of the event loop or of the update loop, where it is possible. */
    method Step(step: IndexerStep)
      requires Valid()
      modifies `headers, `heads, `stored, `known, `cascaded, `job
      ensures Valid()
    {
      match step
      case Learn(hash, header) =>
        if hash !in headers { LearnHeader(hash, header); }
      case Head(head, reorg, synced) =>
        var cascade := NewHead(head, reorg, synced);
      case Begin(canon) =>
        if job.None? { BeginUpdate(canon); }
      case Refuse =>
        if job.Some? { FailReset(); }
      case Process(hash, processed) =>
        if job.Some? && !job.value.failed && job.value.done < size { ProcessBlock(hash, processed); }
      case End(canon, committed) =>
        if job.Some? { var cascade := EndUpdate(canon, committed); }
      case Query(canon) =>
        var n, number, sectionHead := Sections(canon);
    }

    method Run(steps: seq<IndexerStep>)
      requires Valid()
      modifies `headers, `heads, `stored, `known, `cascaded, `job
      ensures Valid()
    {
      hide Valid;
      for i := 0 to |steps|
        invariant Valid()
      {
        Step(steps[i]);
      }
    }
  }

  datatype IndexerStep =
    | Learn(hash: Hash, header: Header)
    | Head(head: nat, reorg: bool, synced: Hash)
    | Begin(canon: map<nat, Hash>)
    | Refuse
    | Process(read: Hash, processed: bool)
    | End(canon: map<nat, Hash>, committed: bool)
    | Query(canon: map<nat, Hash>)

  // ----- A head that vouches for nothing -----

  /** Stores the next section of size one, whose block is `hash`. */
  method IndexBlock(c: ChainIndexer, canon: map<nat, Hash>, hash: Hash)
    requires c.Valid() && c.job.None? && c.size == 1 && c.checkpoint == 0 && c.stored < c.known
    requires c.stored > 0 ==> ReadCanonicalHash(canon, c.stored - 1) == c.SectionHead(c.stored - 1)
    requires hash != ZERO && hash in c.headers && c.headers[hash].parent == c.SectionHead(c.stored - 1)
    modifies c`stored, c`heads, c`known, c`cascaded, c`job
    ensures c.Valid() && c.job.None? && c.stored == old(c.stored) + 1 && c.known == old(c.known)
    ensures c.heads == old(c.heads)[old(c.stored) := hash]
  {
    hide Linked, ChainIndexer.HeadsOk, ChainIndexer.JobOk;
    c.HeadsBelow();
    c.BeginUpdate(canon);
    assert c.stored == old(c.stored);
    assert c.heads == old(c.heads);
    c.ProcessBlock(hash, true);
    var cascade := c.EndUpdate(canon, true);
  }

  /** The blocks 1, 2 and 3 are indexed in sections of one block. */
  method ThreeSections() returns (c: ChainIndexer)
    ensures fresh(c) && c.Valid() && c.job.None? && c.size == 1 && c.checkpoint == 0
    ensures c.stored == 3 && c.heads == map[0 := 1, 1 := 2, 2 := 3]
  {
    hide Linked, ChainIndexer.HeadsOk, ChainIndexer.JobOk;
    c := new ChainIndexer(1, 0, 0, ZERO);
    c.LearnHeader(1, Header(ZERO, 0, 1));
    c.LearnHeader(2, Header(1, 1, 1));
    c.LearnHeader(3, Header(2, 2, 1));
    c.LearnHeader(4, Header(1, 1, 5));
    var _ := c.NewHead(2, false, ZERO);
    assert 3 * c.size + c.confirms <= 2 + 1;
    var canon: map<nat, Hash> := map[0 := 1, 1 := 2, 2 := 3];
    IndexBlock(c, canon, 1);
    IndexBlock(c, canon, 2);
    IndexBlock(c, canon, 3);
  }

  /** Then block 4, on top of 1, becomes the head and leaves the index entry of block 3 above it. No
      reorganisation is signalled, the last section head matches, and all three sections are
      reported, although block 2 is not canonical any more. */
  method StaleSectionExample() returns (c: ChainIndexer, n: nat, canon: map<nat, Hash>)
    ensures c.Valid() && c.checkpoint == 0 && n == c.stored == 3
    ensures canon == map[0 := 1, 1 := 4, 2 := 3] && !c.IsCanonical(1, canon) && !c.AllCanonical(canon, n)
  {
    hide Linked, ChainIndexer.HeadsOk, ChainIndexer.JobOk, IsChain, ChainIndexer.EndsLinked, ChainIndexer.Outlasts;
    c := ThreeSections();
    canon := map[0 := 1, 1 := 4, 2 := 3];
    c.OnEvent(1, 1, 3, 2, canon, Some(0), ZERO);
    assert c.SectionEnd(1) == 1 && c.SectionEnd(2) == 2;
    var number, head;
    n, number, head := c.Sections(canon);
    assert 1 in c.heads && c.heads[1] == 2;
  }
}
