/** The library sort the source calls on vectors, as stable insertion of each element. */
module Sorting {

  /** `le` orders any two elements and is transitive. */
  ghost predicate TotalPreorder<T(!new)>(le: (T, T) -> bool) {
    && (forall x, y :: le(x, y) || le(y, x))
    && (forall x, y, z :: le(x, y) && le(y, z) ==> le(x, z))
  }

  ghost predicate Sorted<T>(le: (T, T) -> bool, s: seq<T>) {
    forall i, j :: 0 <= i < j < |s| ==> le(s[i], s[j])
  }

  /** No two positions hold elements that compare equal. */
  ghost predicate StrictlyOrdered<T>(le: (T, T) -> bool, s: seq<T>) {
    forall i, j :: 0 <= i < j < |s| ==> !le(s[j], s[i])
  }

  function Insert<T>(le: (T, T) -> bool, x: T, s: seq<T>): seq<T> {
    if s == [] || le(x, s[0]) then [x] + s
    else [s[0]] + Insert(le, x, s[1..])
  }

  function Sort<T>(le: (T, T) -> bool, s: seq<T>): seq<T> {
    if s == [] then [] else Insert(le, s[0], Sort(le, s[1..]))
  }

  lemma {:induction false} InsertPermutes<T>(le: (T, T) -> bool, x: T, s: seq<T>)
    ensures multiset(Insert(le, x, s)) == multiset(s) + multiset{x}
  {
    if s != [] && !le(x, s[0]) {
      InsertPermutes(le, x, s[1..]);
      assert s == [s[0]] + s[1..];
    }
  }

  lemma {:induction false} SortPermutes<T>(le: (T, T) -> bool, s: seq<T>)
    ensures multiset(Sort(le, s)) == multiset(s)
  {
    if s != [] {
      SortPermutes(le, s[1..]);
      InsertPermutes(le, s[0], Sort(le, s[1..]));
      assert s == [s[0]] + s[1..];
    }
  }

  /** Equal multisets come from lists of equal length with the same members. */
  lemma SameMultisetSameMembers<T>(s: seq<T>, t: seq<T>)
    requires multiset(s) == multiset(t)
    ensures |s| == |t| && forall x :: x in s <==> x in t
  {
    assert |multiset(s)| == |multiset(t)|;
    forall x
      ensures x in s <==> x in t
    {
      assert x in s <==> x in multiset(s);
    }
  }

  lemma {:induction false} InsertKeepsSorted<T(!new)>(le: (T, T) -> bool, x: T, s: seq<T>)
    requires TotalPreorder(le) && Sorted(le, s)
    ensures Sorted(le, Insert(le, x, s))
  {
    if s != [] && !le(x, s[0]) {
      InsertKeepsSorted(le, x, s[1..]);
      InsertPermutes(le, x, s[1..]);
      var rest := Insert(le, x, s[1..]);
      forall y | y in rest
        ensures le(s[0], y)
      {
        assert y in multiset(rest);
        assert y == x || y in s[1..];
      }
    }
  }

  lemma {:induction false} SortSorts<T(!new)>(le: (T, T) -> bool, s: seq<T>)
    requires TotalPreorder(le)
    ensures Sorted(le, Sort(le, s))
  {
    if s != [] {
      SortSorts(le, s[1..]);
      InsertKeepsSorted(le, s[0], Sort(le, s[1..]));
    }
  }

  /** Two sorted arrangements start with the same element, if the first is strictly ordered. */
  lemma SortedHeadsAgree<T(!new)>(le: (T, T) -> bool, s: seq<T>, t: seq<T>)
    requires TotalPreorder(le) && s != []
    requires StrictlyOrdered(le, s) && Sorted(le, s) && Sorted(le, t)
    requires multiset(s) == multiset(t)
    ensures t != [] && s[0] == t[0]
  {
    SameMultisetSameMembers(s, t);
    assert t[0] in s && s[0] in t;
    var i :| 0 <= i < |s| && s[i] == t[0];
    var j :| 0 <= j < |t| && t[j] == s[0];
    assert le(t[0], s[0]);
  }

  lemma SameTailMultisets<T>(s: seq<T>, t: seq<T>)
    requires s != [] && t != [] && s[0] == t[0] && multiset(s) == multiset(t)
    ensures multiset(s[1..]) == multiset(t[1..])
  {
    assert s == [s[0]] + s[1..] && t == [t[0]] + t[1..];
    assert multiset(s[1..]) == multiset(s) - multiset{s[0]};
    assert multiset(t[1..]) == multiset(t) - multiset{t[0]};
  }

  /** A strictly ordered list is the only sorted arrangement of its elements. */
  lemma {:induction false} SortedArrangementsAgree<T(!new)>(le: (T, T) -> bool, s: seq<T>, t: seq<T>)
    requires TotalPreorder(le)
    requires StrictlyOrdered(le, s) && Sorted(le, s) && Sorted(le, t)
    requires multiset(s) == multiset(t)
    ensures s == t
    decreases |s|
  {
    SameMultisetSameMembers(s, t);
    if s != [] {
      SortedHeadsAgree(le, s, t);
      SameTailMultisets(s, t);
      SortedArrangementsAgree(le, s[1..], t[1..]);
      assert s == [s[0]] + s[1..] && t == [t[0]] + t[1..];
    }
  }

  /** The result does not depend on the order of the input when all elements compare different. */
  lemma SortIsCanonical<T(!new)>(le: (T, T) -> bool, s: seq<T>, t: seq<T>)
    requires TotalPreorder(le)
    requires multiset(s) == multiset(t)
    requires forall i, j :: 0 <= i < j < |s| ==> !(le(s[i], s[j]) && le(s[j], s[i]))
    ensures Sort(le, s) == Sort(le, t)
  {
    SortSorts(le, s);
    SortSorts(le, t);
    SortPermutes(le, s);
    SortPermutes(le, t);
    DistinctnessIsOrderFree(le, s, Sort(le, s));
    SortedArrangementsAgree(le, Sort(le, s), Sort(le, t));
  }

  /** Rearranging a list with no two equal-comparing elements creates none. */
  lemma DistinctnessIsOrderFree<T(!new)>(le: (T, T) -> bool, s: seq<T>, t: seq<T>)
    requires TotalPreorder(le) && Sorted(le, t)
    requires multiset(s) == multiset(t)
    requires forall i, j :: 0 <= i < j < |s| ==> !(le(s[i], s[j]) && le(s[j], s[i]))
    ensures StrictlyOrdered(le, t)
  {
    forall i, j | 0 <= i < j < |t|
      ensures !le(t[j], t[i])
    {
      var a, b := PositionsAfterRearranging(s, t, i, j);
    }
  }

  /** Two elements of a list are found at two different positions of any rearrangement. */
  lemma PositionsAfterRearranging<T>(s: seq<T>, t: seq<T>, i: nat, j: nat) returns (a: nat, b: nat)
    requires multiset(s) == multiset(t) && i < j < |t|
    ensures a < |s| && b < |s| && a != b && s[a] == t[i] && s[b] == t[j]
  {
    assert t[i] in multiset(s) && t[j] in multiset(s);
    if t[i] == t[j] {
      RepeatedElement(t, i, j);
      a, b := TwoPositions(s, t[i]);
    } else {
      a :| 0 <= a < |s| && s[a] == t[i];
      b :| 0 <= b < |s| && s[b] == t[j];
    }
  }

  lemma RepeatedElement<T>(t: seq<T>, i: nat, j: nat)
    requires i < j < |t| && t[i] == t[j]
    ensures multiset(t)[t[i]] >= 2
  {
    assert t == t[..j] + [t[j]] + t[j + 1..];
    assert t[i] in t[..j];
  }

  /** An element of multiplicity two or more sits at two positions. */
  lemma TwoPositions<T>(s: seq<T>, x: T) returns (a: nat, b: nat)
    requires multiset(s)[x] >= 2
    ensures a < b < |s| && s[a] == x && s[b] == x
  {
    assert x in multiset(s);
    a := FirstPosition(s, x);
    var rest := s[a + 1..];
    assert s == s[..a] + [x] + rest;
    assert multiset(s[..a])[x] == 0;
    assert x in multiset(rest);
    var c := FirstPosition(rest, x);
    b := a + 1 + c;
  }

  lemma FirstPosition<T>(s: seq<T>, x: T) returns (a: nat)
    requires x in s
    ensures a < |s| && s[a] == x && x !in s[..a]
  {
    a := 0;
    while s[a] != x
      invariant 0 <= a < |s| && x !in s[..a]
      invariant x in s[a..]
      decreases |s| - a
    {
      a := a + 1;
    }
  }
}
