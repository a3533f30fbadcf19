/** Stable sorting, and the uniqueness of its result when the order has no ties. */
module Sorting {

  ghost predicate Distinct<T>(s: seq<T>)
  {
    forall i, j :: 0 <= i < j < |s| ==> s[i] != s[j]
  }

  function Elements<T>(s: seq<T>): set<T> { set x | x in s }

  lemma ElementsAppend<T>(s: seq<T>, x: T)
    ensures Elements(s + [x]) == Elements(s) + {x}
  {
  }

  /** A strict order on `s` whose incomparability is transitive. */
  ghost predicate WeakOrder<T(!new)>(s: set<T>, less: (T, T) -> bool)
  {
    && (forall x, y :: x in s && y in s && less(x, y) ==> !less(y, x))
    && (forall x, y, z :: x in s && y in s && z in s && !less(x, y) && !less(y, z) ==> !less(x, z))
  }

  /** No two different elements of `s` tie. */
  ghost predicate NoTies<T(!new)>(s: set<T>, less: (T, T) -> bool)
  {
    forall x, y :: x in s && y in s && x != y ==> less(x, y) || less(y, x)
  }

  /** No later element goes before an earlier one. */
  ghost predicate Sorted<T>(s: seq<T>, less: (T, T) -> bool)
  {
    forall i, j :: 0 <= i < j < |s| ==> !less(s[j], s[i])
  }

  function Insert<T>(x: T, s: seq<T>, less: (T, T) -> bool): (r: seq<T>)
    ensures multiset(r) == multiset(s) + multiset{x}
    ensures |r| == |s| + 1
  {
    if s == [] || !less(s[0], x) then [x] + s
    else
      assert s == [s[0]] + s[1..];
      [s[0]] + Insert(x, s[1..], less)
  }

  /** Insertion sort: elements that tie keep their order. */
  function Sort<T>(s: seq<T>, less: (T, T) -> bool): (r: seq<T>)
    ensures multiset(r) == multiset(s)
    ensures |r| == |s|
  {
    if s == [] then [] else
      assert s == [s[0]] + s[1..];
      Insert(s[0], Sort(s[1..], less), less)
  }

  lemma MultisetElements<T>(s: seq<T>, t: seq<T>)
    requires multiset(s) == multiset(t)
    ensures Elements(s) == Elements(t)
  {
    forall x ensures x in s <==> x in t {
      assert x in s <==> x in multiset(s);
      assert x in t <==> x in multiset(t);
    }
  }

  lemma {:induction false} InsertSorted<T(!new)>(x: T, s: seq<T>, less: (T, T) -> bool, all: set<T>)
    requires WeakOrder(all, less) && x in all && Elements(s) <= all && Sorted(s, less)
    ensures Sorted(Insert(x, s, less), less)
  {
    var r := Insert(x, s, less);
    if s != [] {
      forall i | 0 <= i < |s| ensures s[i] in all { assert s[i] in Elements(s); }
      if !less(s[0], x) {
        forall j | 0 < j < |r| ensures !less(r[j], x) {
          assert r[j] == s[j - 1];
        }
      } else {
        InsertSorted(x, s[1..], less, all);
        var tail := Insert(x, s[1..], less);
        forall j | 0 <= j < |tail| ensures !less(tail[j], s[0]) {
          assert tail[j] in multiset(tail);
          if tail[j] != x {
            assert tail[j] in s[1..];
          }
        }
      }
    }
  }

  lemma {:induction false} SortSorted<T(!new)>(s: seq<T>, less: (T, T) -> bool)
    requires WeakOrder(Elements(s), less)
    ensures Sorted(Sort(s, less), less)
  {
    if s != [] {
      var tail := Sort(s[1..], less);
      assert Elements(s[1..]) <= Elements(s);
      SortSorted(s[1..], less);
      MultisetElements(tail, s[1..]);
      InsertSorted(s[0], tail, less, Elements(s));
    }
  }

  /** Without ties, a multiset has only one sorted arrangement. */
  lemma {:induction false} SortedUnique<T(!new)>(s: seq<T>, t: seq<T>, less: (T, T) -> bool)
    requires Sorted(s, less) && Sorted(t, less) && multiset(s) == multiset(t)
    requires NoTies(Elements(s), less)
    ensures s == t
  {
    assert |s| == |multiset(s)| == |multiset(t)| == |t|;
    if s != [] {
      MultisetElements(s, t);
      SameFirst(s, t, less);
      assert s == [s[0]] + s[1..] && t == [t[0]] + t[1..];
      assert multiset(s[1..]) == multiset(s) - multiset{s[0]};
      assert multiset(t[1..]) == multiset(t) - multiset{t[0]};
      assert Elements(s[1..]) <= Elements(s);
      SortedUnique(s[1..], t[1..], less);
    }
  }

  lemma SameFirst<T(!new)>(s: seq<T>, t: seq<T>, less: (T, T) -> bool)
    requires Sorted(s, less) && Sorted(t, less) && Elements(s) == Elements(t) && s != [] && t != []
    requires NoTies(Elements(s), less)
    ensures s[0] == t[0]
  {
    assert s[0] in Elements(t) && t[0] in Elements(s);
    var i :| 0 <= i < |t| && t[i] == s[0];
    var j :| 0 <= j < |s| && s[j] == t[0];
  }

  /** Whatever order the elements arrive in, sorting gives the same list. */
  lemma SortConfluent<T(!new)>(s: seq<T>, t: seq<T>, less: (T, T) -> bool)
    requires multiset(s) == multiset(t)
    requires WeakOrder(Elements(s), less) && NoTies(Elements(s), less)
    ensures Sort(s, less) == Sort(t, less)
  {
    MultisetElements(s, t);
    SortSorted(s, less);
    SortSorted(t, less);
    MultisetElements(s, Sort(s, less));
    SortedUnique(Sort(s, less), Sort(t, less), less);
  }

  lemma {:induction false} DistinctMultiset<T>(s: seq<T>)
    requires Distinct(s)
    ensures multiset(s) == multiset(Elements(s))
  {
    if s != [] {
      var tail := s[1..];
      assert s == [s[0]] + tail;
      DistinctMultiset(tail);
      assert s[0] !in tail;
      assert Elements(s) == Elements(tail) + {s[0]};
    }
  }

  lemma {:induction false} MultisetDistinct<T>(s: seq<T>, t: seq<T>)
    requires Distinct(s) && multiset(s) == multiset(t)
    ensures Distinct(t)
  {
    DistinctMultiset(s);
    forall i, j | 0 <= i < j < |t| ensures t[i] != t[j] {
      Repeated(t, i, j);
    }
  }

  lemma Repeated<T>(t: seq<T>, i: nat, j: nat)
    requires i < j < |t|
    ensures t[i] == t[j] ==> multiset(t)[t[i]] >= 2
  {
    assert t == t[..i] + [t[i]] + t[i + 1..j] + [t[j]] + t[j + 1..];
  }

  /** Equal multisets: the first element of one list occurs in the other, and the rests agree. */
  lemma MatchFirst<T>(s: seq<T>, t: seq<T>) returns (i: nat, rest: seq<T>)
    requires s != [] && multiset(s) == multiset(t)
    ensures i < |t| && t[i] == s[0] && rest == t[..i] + t[i + 1..]
    ensures multiset(s[1..]) == multiset(rest)
  {
    assert s[0] in multiset(t);
    i :| 0 <= i < |t| && t[i] == s[0];
    rest := t[..i] + t[i + 1..];
    assert s == [s[0]] + s[1..];
    assert t == t[..i] + [t[i]] + t[i + 1..];
    assert multiset(s[1..]) == multiset(s) - multiset{s[0]};
    assert multiset(rest) == multiset(t) - multiset{t[i]};
  }

  lemma DistinctSize<T>(s: seq<T>)
    requires Distinct(s)
    ensures |Elements(s)| == |s|
  {
    DistinctMultiset(s);
    assert |multiset(s)| == |s|;
    assert |multiset(Elements(s))| == |Elements(s)|;
  }

  /** Some list of the elements of `s`, each once. */
  ghost function Enumerate<T>(s: set<T>): (r: seq<T>)
    ensures Elements(r) == s && Distinct(r)
  {
    if s == {} then [] else
      var x :| x in s;
      var rest := Enumerate(s - {x});
      assert Elements([x] + rest) == {x} + Elements(rest) == s;
      [x] + rest
  }

  /** The sorted list of a set. */
  ghost function Arrange<T(!new)>(s: set<T>, less: (T, T) -> bool): seq<T>
  {
    Sort(Enumerate(s), less)
  }

  lemma ArrangeIs<T(!new)>(s: seq<T>, less: (T, T) -> bool)
    requires Distinct(s) && WeakOrder(Elements(s), less) && NoTies(Elements(s), less)
    ensures Sort(s, less) == Arrange(Elements(s), less)
  {
    DistinctMultiset(s);
    DistinctMultiset(Enumerate(Elements(s)));
    SortConfluent(s, Enumerate(Elements(s)), less);
  }

  lemma ArrangeContents<T(!new)>(s: set<T>, less: (T, T) -> bool)
    requires WeakOrder(s, less)
    ensures Elements(Arrange(s, less)) == s && Distinct(Arrange(s, less)) && Sorted(Arrange(s, less), less)
  {
    var e := Enumerate(s);
    SortSorted(e, less);
    MultisetElements(e, Sort(e, less));
    MultisetDistinct(e, Sort(e, less));
  }

  predicate NatBefore(x: nat, y: nat) { x < y }

  /** A strictly increasing list is the sorted list of its elements. */
  lemma IncreasingIsArranged(s: seq<nat>)
    requires forall i, j :: 0 <= i < j < |s| ==> s[i] < s[j]
    ensures s == Arrange(Elements(s), NatBefore)
  {
    ArrangeContents(Elements(s), NatBefore);
    DistinctMultiset(s);
    DistinctMultiset(Arrange(Elements(s), NatBefore));
    SortedUnique(s, Arrange(Elements(s), NatBefore), NatBefore);
  }
}
