/** State shared by the two branch and bound searches. */
module Search {
  import opened Sorting
  import opened Values
  import opened Instances

  /** Parameters of one search; `items` is the list whose subsets are explored. */
  datatype ProcessInfo<T> = ProcessInfo(
    totalWeight: nat,
    lowerBoundWeight: nat,
    items: seq<T>,
    maxOperations: int,
    excludeFirst: bool)

  /** A candidate solution found by a search. */
  datatype Partial = Partial(votes: set<AggregatedVote>, bits: set<AggregatedBit>, value: Value)

  /** Snapshot of the mutable search status. */
  datatype Status = Status(bound: Value, ops: nat) {
    function Tick(n: nat): Status { this.(ops := ops + n) }
  }

  /** The outcome `r` of a search that can only return `leaf`: it does so if that beats the bound, unless it was cut. */
  ghost predicate Lonely(st: Status, leaf: Partial, maxOperations: int, r: (Option<Partial>, Status))
  {
    && st.ops < r.1.ops
    && (r.0.None? ==> r.1.bound == st.bound)
    && (r.0.Some? ==> r.0.value == leaf && Less(st.bound, leaf.value) && r.1.bound == leaf.value)
    && (r.1.ops < maxOperations ==> (r.0.None? <==> !Less(st.bound, leaf.value)))
  }

  /** The elements at position `branch` and later. */
  ghost function From<T>(s: seq<T>, branch: nat): set<T>
    requires branch <= |s|
  {
    Elements(s[branch..])
  }

  lemma FromStep<T>(s: seq<T>, branch: nat)
    requires branch < |s| && Distinct(s)
    ensures s[branch] !in From(s, branch + 1)
    ensures From(s, branch) == From(s, branch + 1) + {s[branch]}
  {
    assert s[branch..] == [s[branch]] + s[branch + 1..];
  }

  lemma SubsetSize<T>(s: set<T>, t: set<T>)
    requires s <= t
    ensures |s| <= |t|
  {
    assert |t| == |s| + |t - s| by {
      assert t == s + (t - s);
    }
  }

  /** Mutable status of one search: the best value so far and the operations spent. */
  class SharedStatus {
    var currentBound: Value
    var numOperations: nat

    constructor (initialBound: Value)
      ensures View() == Status(initialBound, 0)
    {
      currentBound, numOperations := initialBound, 0;
    }

    ghost function View(): Status
      reads this
    {
      Status(currentBound, numOperations)
    }
  }
}
