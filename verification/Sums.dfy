/** Finite sums over sets, independent of the order in which the set is enumerated. */
module Sums {

  ghost function Sum<T(!new)>(s: set<T>, f: T -> nat): nat
  {
    if s == {} then 0 else
      var x :| x in s;
      f(x) + Sum(s - {x}, f)
  }

  lemma {:induction false} SumRemove<T(!new)>(s: set<T>, f: T -> nat, x: T)
    requires x in s
    ensures Sum(s, f) == f(x) + Sum(s - {x}, f)
    decreases s
  {
    var y :| y in s && Sum(s, f) == f(y) + Sum(s - {y}, f);
    if y != x {
      SumRemove(s - {y}, f, x);
      SumRemove(s - {x}, f, y);
      assert s - {y} - {x} == s - {x} - {y};
    }
  }

  lemma SumAdd<T(!new)>(s: set<T>, f: T -> nat, x: T)
    requires x !in s
    ensures Sum(s + {x}, f) == Sum(s, f) + f(x)
  {
    SumRemove(s + {x}, f, x);
    assert s + {x} - {x} == s;
  }

  lemma {:induction false} SumUnion<T(!new)>(s: set<T>, t: set<T>, f: T -> nat)
    requires s !! t
    ensures Sum(s + t, f) == Sum(s, f) + Sum(t, f)
    decreases t
  {
    if t == {} {
      assert s + t == s;
    } else {
      var x :| x in t;
      SumRemove(t, f, x);
      SumUnion(s, t - {x}, f);
      assert s + t == s + (t - {x}) + {x};
      SumAdd(s + (t - {x}), f, x);
    }
  }

  lemma SumSubset<T(!new)>(s: set<T>, t: set<T>, f: T -> nat)
    requires s <= t
    ensures Sum(t, f) == Sum(s, f) + Sum(t - s, f)
    ensures Sum(s, f) <= Sum(t, f)
  {
    assert t == s + (t - s);
    SumUnion(s, t - s, f);
  }

  /** Positive summands: only the full set attains the full sum. */
  lemma SumStrict<T(!new)>(s: set<T>, t: set<T>, f: T -> nat)
    requires s <= t && forall x :: x in t ==> f(x) > 0
    ensures Sum(s, f) == Sum(t, f) <==> s == t
  {
    SumSubset(s, t, f);
    if x :| x in t && x !in s {
      SumRemove(t - s, f, x);
    } else {
      assert s == t;
    }
  }

  lemma {:induction false} SumCongruent<T(!new)>(s: set<T>, f: T -> nat, g: T -> nat)
    requires forall x :: x in s ==> f(x) == g(x)
    ensures Sum(s, f) == Sum(s, g)
    decreases s
  {
    if s != {} {
      var x :| x in s;
      SumRemove(s, f, x);
      SumRemove(s, g, x);
      SumCongruent(s - {x}, f, g);
    }
  }

  lemma {:induction false} SumZero<T(!new)>(s: set<T>, f: T -> nat)
    requires forall x :: x in s ==> f(x) == 0
    ensures Sum(s, f) == 0
    decreases s
  {
    if s != {} {
      var x :| x in s;
      SumRemove(s, f, x);
      SumZero(s - {x}, f);
    }
  }

  /** The union of the groups `gs`, each group `g` standing for the set `member(g)`. */
  ghost function Union<G(!new), T(!new)>(gs: set<G>, member: G -> set<T>): set<T>
  {
    set g, x | g in gs && x in member(g) :: x
  }

  /** Summing group totals equals summing over the union, when the groups are disjoint. */
  lemma {:induction false} SumGroups<G(!new), T(!new)>(gs: set<G>, member: G -> set<T>, f: T -> nat, total: G -> nat)
    requires forall g, h :: g in gs && h in gs && g != h ==> member(g) !! member(h)
    requires forall g :: g in gs ==> total(g) == Sum(member(g), f)
    ensures Sum(Union(gs, member), f) == Sum(gs, total)
    decreases gs
  {
    if gs == {} {
      assert Union(gs, member) == {};
    } else {
      var g :| g in gs;
      var rest := gs - {g};
      SumGroups(rest, member, f, total);
      assert Union(gs, member) == Union(rest, member) + member(g);
      assert Union(rest, member) !! member(g);
      SumUnion(Union(rest, member), member(g), f);
      SumRemove(gs, total, g);
    }
  }

  ghost function Image<A(!new), B(!new)>(s: set<A>, g: A -> B): set<B>
  {
    set x | x in s :: g(x)
  }

  /** Renaming the summands one-to-one does not change the sum. */
  lemma {:induction false} SumImage<A(!new), B(!new)>(s: set<A>, g: A -> B, f: A -> nat, h: B -> nat)
    requires forall x, y :: x in s && y in s && x != y ==> g(x) != g(y)
    requires forall x :: x in s ==> f(x) == h(g(x))
    ensures Sum(s, f) == Sum(Image(s, g), h)
    decreases s
  {
    if s == {} {
      assert Image(s, g) == {};
    } else {
      var x :| x in s;
      SumImage(s - {x}, g, f, h);
      SumRemove(s, f, x);
      assert Image(s, g) == Image(s - {x}, g) + {g(x)};
      SumAdd(Image(s - {x}, g), h, g(x));
    }
  }
}
