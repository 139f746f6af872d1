/** Removing the elements of a list that a test picks out, keeping the order of
    the rest: the shape shared by every removal loop of the filter engine. */
module Sieves {

  /** The elements of `list` that `removed` does not pick out, in their order. */
  function Sieve<R(==)>(list: seq<R>, removed: R -> bool): (r: seq<R>)
    ensures |r| <= |list|
  {
    if list == [] then []
    else (if removed(list[0]) then [] else [list[0]]) + Sieve(list[1..], removed)
  }

  /** A sieve keeps exactly the elements of the list its test does not pick out. */
  lemma {:induction false} SieveMembers<R>(list: seq<R>, removed: R -> bool)
    ensures forall x | x in Sieve(list, removed) :: x in list && !removed(x)
    ensures forall x | x in list :: x in Sieve(list, removed) <==> !removed(x)
    decreases |list|
  {
    if list != [] {
      SieveMembers(list[1..], removed);
      assert forall x | x in list :: x == list[0] || x in list[1..];
    }
  }

  /** The greedy test that `a` is `b` with some elements left out, order kept. */
  predicate IsSubsequence<R(==)>(a: seq<R>, b: seq<R>)
    decreases |b|
  {
    if a == [] then true
    else if b == [] then false
    else if a[0] == b[0] then IsSubsequence(a[1..], b[1..])
    else IsSubsequence(a, b[1..])
  }

  /** Leaving out the first element of a subsequence keeps it a subsequence. */
  lemma {:induction false} SubsequenceDropFirst<R>(a: seq<R>, b: seq<R>)
    requires a != [] && IsSubsequence(a, b)
    ensures IsSubsequence(a[1..], b)
    decreases |b|, 1
  {
    if a[0] == b[0] {
      SubsequenceConsRight(a[1..], b);
    } else {
      SubsequenceDropFirst(a, b[1..]);
      SubsequenceConsRight(a[1..], b);
    }
  }

  /** A subsequence of the tail of `b` is a subsequence of `b`. */
  lemma {:induction false} SubsequenceConsRight<R>(a: seq<R>, b: seq<R>)
    requires b != [] && IsSubsequence(a, b[1..])
    ensures IsSubsequence(a, b)
    decreases |b|, 0
  {
    if a != [] && a[0] == b[0] {
      SubsequenceDropFirst(a, b[1..]);
    }
  }

  /** Every list is a subsequence of itself. */
  lemma {:induction false} SubsequenceRefl<R>(a: seq<R>)
    ensures IsSubsequence(a, a)
    decreases |a|
  {
    if a != [] {
      SubsequenceRefl(a[1..]);
    }
  }

  /** A sieve keeps the order of the elements it keeps. */
  lemma {:induction false} SieveIsSubsequence<R>(list: seq<R>, removed: R -> bool)
    ensures IsSubsequence(Sieve(list, removed), list)
    decreases |list|
  {
    if list != [] {
      var rest := Sieve(list[1..], removed);
      SieveIsSubsequence(list[1..], removed);
      if removed(list[0]) {
        assert Sieve(list, removed) == rest;
        SubsequenceConsRight(rest, list);
      } else {
        assert ([list[0]] + rest)[1..] == rest;
      }
    }
  }

  /** A sieve that removes nothing gives back the list. */
  lemma {:induction false} SieveNothing<R>(list: seq<R>, removed: R -> bool)
    requires forall x | x in list :: !removed(x)
    ensures Sieve(list, removed) == list
    decreases |list|
  {
    if list != [] {
      assert forall x | x in list[1..] :: x in list;
      SieveNothing(list[1..], removed);
    }
  }

  /** A sieve only looks at what its test says about the elements of the list. */
  lemma {:induction false} SieveAgrees<R>(list: seq<R>, a: R -> bool, b: R -> bool)
    requires forall x | x in list :: a(x) == b(x)
    ensures Sieve(list, a) == Sieve(list, b)
    decreases |list|
  {
    if list != [] {
      assert forall x | x in list[1..] :: x in list;
      SieveAgrees(list[1..], a, b);
    }
  }

  /** Sieving twice is sieving once with the disjunction of the two tests. */
  lemma {:induction false} SieveSieve<R>(list: seq<R>, a: R -> bool, b: R -> bool)
    ensures Sieve(Sieve(list, a), b) == Sieve(list, Either(a, b))
    decreases |list|
  {
    if list != [] {
      SieveSieve(list[1..], a, b);
      var s := Sieve(list, a);
      if !a(list[0]) {
        assert s == [list[0]] + Sieve(list[1..], a);
        assert s[1..] == Sieve(list[1..], a);
      } else {
        assert s == Sieve(list[1..], a);
      }
    }
  }

  /** The test that picks out what either test picks out. */
  function Either<R>(a: R -> bool, b: R -> bool): R -> bool {
    x => a(x) || b(x)
  }

  /** Sieving is idempotent. */
  lemma SieveTwice<R>(list: seq<R>, removed: R -> bool)
    ensures Sieve(Sieve(list, removed), removed) == Sieve(list, removed)
  {
    SieveMembers(list, removed);
    SieveNothing(Sieve(list, removed), removed);
  }

  /** What two sieves keep between them is the whole list, plus what survives
      both, when no element is removed by both. */
  lemma {:induction false} SieveCount<R>(list: seq<R>, a: R -> bool, b: R -> bool)
    requires forall x | x in list :: !(a(x) && b(x))
    ensures multiset(Sieve(list, a)) + multiset(Sieve(list, b))
            == multiset(list) + multiset(Sieve(list, Either(a, b)))
    decreases |list|
  {
    if list != [] {
      assert forall x | x in list[1..] :: x in list;
      SieveCount(list[1..], a, b);
      SieveCountStep(list, a, b);
    }
  }

  /** The step of `SieveCount`: the head of the list adds the same on both sides. */
  lemma SieveCountStep<R>(list: seq<R>, a: R -> bool, b: R -> bool)
    requires list != [] && !(a(list[0]) && b(list[0]))
    requires multiset(Sieve(list[1..], a)) + multiset(Sieve(list[1..], b))
             == multiset(list[1..]) + multiset(Sieve(list[1..], Either(a, b)))
    ensures multiset(Sieve(list, a)) + multiset(Sieve(list, b))
            == multiset(list) + multiset(Sieve(list, Either(a, b)))
  {
    var h, t := list[0], list[1..];
    var e := Either(a, b);
    assert multiset(list) == multiset{h} + multiset(t) by { assert list == [h] + t; }
    var sa := SieveStep(list, a);
    var sb := SieveStep(list, b);
    var se := SieveStep(list, e);
    assert e(h) == (a(h) || b(h));
    AddHead(h, multiset(Sieve(t, a)), multiset(Sieve(t, b)), multiset(t), multiset(Sieve(t, e)), a(h), b(h));
  }

  /** Multiset arithmetic of the step: an element kept by one side only, or by
      both sides and by the intersection, adds the same on the left and right. */
  lemma AddHead<R>(h: R, x: multiset<R>, y: multiset<R>, t: multiset<R>, z: multiset<R>, ca: bool, cb: bool)
    requires !(ca && cb) && x + y == t + z
    ensures (if ca then x else multiset{h} + x) + (if cb then y else multiset{h} + y)
            == (multiset{h} + t) + (if ca || cb then z else multiset{h} + z)
  {
    if ca {
      assert x + (multiset{h} + y) == multiset{h} + (x + y);
    } else if cb {
      assert (multiset{h} + x) + y == multiset{h} + (x + y);
    } else {
      assert (multiset{h} + x) + (multiset{h} + y) == multiset{h} + multiset{h} + (x + y);
    }
  }

  /** The sieve of a non-empty list, in terms of the sieve of its tail. */
  lemma SieveStep<R>(list: seq<R>, c: R -> bool) returns (s: seq<R>)
    requires list != []
    ensures s == Sieve(list, c)
    ensures c(list[0]) ==> s == Sieve(list[1..], c)
    ensures !c(list[0]) ==> s == [list[0]] + Sieve(list[1..], c)
  {
    s := Sieve(list, c);
  }

  /** A sieve that removes everything leaves nothing. */
  lemma {:induction false} SieveEverything<R>(list: seq<R>, removed: R -> bool)
    requires forall x | x in list :: removed(x)
    ensures Sieve(list, removed) == []
    decreases |list|
  {
    if list != [] {
      assert forall x | x in list[1..] :: x in list;
      SieveEverything(list[1..], removed);
    }
  }

  /** Two sieves with complementary tests split the list between them. */
  lemma SievePartition<R>(list: seq<R>, a: R -> bool, b: R -> bool)
    requires forall x | x in list :: a(x) != b(x)
    ensures multiset(Sieve(list, a)) + multiset(Sieve(list, b)) == multiset(list)
  {
    SieveCount(list, a, b);
    SieveEverything(list, Either(a, b));
  }

  /** The sieve of the suffix from `i`, in terms of the suffix from `i + 1`. */
  lemma SieveFrom<R>(list: seq<R>, i: nat, removed: R -> bool)
    requires i < |list|
    ensures list[..i + 1] == list[..i] + [list[i]]
    ensures Sieve(list[i..], removed)
            == (if removed(list[i]) then [] else [list[i]]) + Sieve(list[i + 1..], removed)
  {
    assert list[i..][1..] == list[i + 1..];
  }

  /** Splicing out the element at position `|front|` of `front + [x] + back`. */
  lemma Splice<R>(r: seq<R>, front: seq<R>, x: R, back: seq<R>)
    requires r == front + [x] + back
    ensures r[..|front|] + r[|front| + 1..] == front + back
  {
    assert r[..|front|] == front;
    assert r[|front| + 1..] == back;
  }

  /** The removal loop of `filter.type`: scanning from the end and splicing out
      each picked record, so that no record is skipped. */
  method RemoveWhere<R(==)>(list: seq<R>, removed: R -> bool) returns (r: seq<R>)
    ensures r == Sieve(list, removed)
    ensures forall x | x in list :: x in r <==> !removed(x)
  {
    r := list;
    var i := |list|;
    while i > 0
      invariant 0 <= i <= |list|
      invariant r == list[..i] + Sieve(list[i..], removed)
    {
      i := i - 1;
      SieveFrom(list, i, removed);
      if removed(list[i]) {
        Splice(r, list[..i], list[i], Sieve(list[i + 1..], removed));
        r := r[..i] + r[i + 1..];
      }
    }
    assert list[0..] == list;
    SieveMembers(list, removed);
  }
}
