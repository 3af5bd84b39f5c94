/** The members of sequences. */
module Collections {
  function Members<T>(s: seq<T>): set<T> {
    set x | x in s
  }

  ghost predicate Distinct<T(!new)>(s: seq<T>) {
    forall i, j :: 0 <= i < j < |s| ==> s[i] != s[j]
  }

  lemma NoMembers<T(!new)>()
    ensures Members<T>([]) == {} && Distinct<T>([])
  {
  }

  lemma MembersAppend<T(!new)>(s: seq<T>, x: T)
    ensures Members(s + [x]) == Members(s) + {x}
    ensures Distinct(s + [x]) <==> Distinct(s) && x !in s
  {
    if Distinct(s + [x]) {
      assert forall i :: 0 <= i < |s| ==> (s + [x])[i] == s[i];
      assert (s + [x])[|s|] == x;
    }
  }

  lemma MembersStep<T(!new)>(s: seq<T>, i: nat)
    requires i < |s|
    ensures Members(s[..i + 1]) == Members(s[..i]) + {s[i]}
    ensures Members(s[i..]) - {s[i]} <= Members(s[i + 1..]) <= Members(s[i..])
    ensures Distinct(s) ==> s[i] !in Members(s[..i])
  {
    assert s[..i + 1] == s[..i] + [s[i]];
    assert s[i..] == [s[i]] + s[i + 1..];
  }

  lemma EmptyMembers<T>(s: seq<T>)
    ensures |s| == 0 <==> Members(s) == {}
  {
    if |s| > 0 {
      assert s[0] in Members(s);
    }
  }

  lemma {:induction false} MultiplicityOfDistinct<T(!new)>(s: seq<T>, x: T)
    requires Distinct(s)
    ensures multiset(s)[x] == if x in s then 1 else 0
  {
    if |s| > 0 {
      var front, last := s[..|s| - 1], s[|s| - 1];
      assert s == front + [last];
      MultiplicityOfDistinct(front, x);
    }
  }

  /** A sequence without repeats has none in any other order. */
  lemma RearrangedDistinct<T(!new)>(s: seq<T>, r: seq<T>)
    requires Distinct(s) && multiset(r) == multiset(s)
    ensures Distinct(r)
  {
    forall i, j | 0 <= i < j < |r|
      ensures r[i] != r[j]
    {
      MultiplicityOfDistinct(s, r[j]);
      RepeatCounts(r, i, j);
    }
  }

  lemma RepeatCounts<T(!new)>(s: seq<T>, i: nat, j: nat)
    requires i < j < |s|
    ensures s[i] == s[j] ==> multiset(s)[s[j]] >= 2
  {
    assert s == s[..j] + [s[j]] + s[j + 1..];
    assert s[i] in s[..j];
  }

  lemma {:induction false} CountedDistinct<T(!new)>(s: seq<T>)
    ensures Distinct(s) <==> forall x :: multiset(s)[x] <= 1
  {
    if Distinct(s) {
      forall x
        ensures multiset(s)[x] <= 1
      {
        MultiplicityOfDistinct(s, x);
      }
    } else {
      var i, j :| 0 <= i < j < |s| && s[i] == s[j];
      RepeatCounts(s, i, j);
    }
  }

  lemma {:induction false} TwiceAt<T(!new)>(s: seq<T>, x: T) returns (i: nat, j: nat)
    requires multiset(s)[x] >= 2
    ensures i < j < |s| && s[i] == x && s[j] == x
  {
    var front, last := s[..|s| - 1], s[|s| - 1];
    assert s == front + [last];
    if last == x {
      assert x in multiset(front);
      i :| 0 <= i < |front| && front[i] == x;
      j := |s| - 1;
    } else {
      i, j := TwiceAt(front, x);
    }
  }

  /** The elements of a set, in any order. */
  method Enumerate<T(!new, ==)>(elements: set<T>) returns (s: seq<T>)
    ensures Distinct(s) && forall x :: x in s <==> x in elements
  {
    s := [];
    var rest := elements;
    while rest != {}
      invariant rest <= elements && Distinct(s) && forall x :: x in s <==> x in elements - rest
    {
      var x :| x in rest;
      MembersAppend(s, x);
      s, rest := s + [x], rest - {x};
    }
  }

  /** A non-empty set has an element with the greatest key. */
  lemma {:induction false} Greatest<T(!new)>(elements: set<T>, key: T -> int) returns (most: T)
    requires elements != {}
    ensures most in elements && forall x :: x in elements ==> key(x) <= key(most)
  {
    var a :| a in elements;
    var rest := elements - {a};
    assert forall x :: x in elements ==> x == a || x in rest;
    most := a;
    if rest != {} {
      var other := Greatest(rest, key);
      if key(other) > key(a) {
        most := other;
      }
    }
  }
}
