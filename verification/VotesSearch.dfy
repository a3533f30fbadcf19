/** Branch and bound over subsets of aggregated votes. */
module VotesSearch {
  import opened Sorting
  import opened Sums
  import opened Values
  import opened Instances
  import opened Search

  /** What the recursion returns from a node. `weight` counts the votes taken so far and the assumed weight. */
  ghost function Branch(info: ProcessInfo<AggregatedVote>, assumedFees: nat, st: Status, branch: nat,
                        included: set<AggregatedBit>, weight: nat): (Option<Partial>, Status)
    requires branch <= |info.items|
    decreases |info.items| - branch
  {
    var here := st.(ops := st.ops + 1);
    var value := CalcValue(assumedFees + Fees(included), weight + Weight(From(info.items, branch)),
                           info.totalWeight);
    if branch == |info.items| then
      if Less(st.bound, value) then (Some(Partial({}, included, value)), here.(bound := value)) else (None, here)
    else if here.ops >= info.maxOperations || !Less(st.bound, value) then
      (None, here)
    else if info.excludeFirst then
      var without := Exclude(info, assumedFees, here, branch, included, weight);
      var with := Include(info, assumedFees, without.1, branch, included, weight);
      (Join(without.0, with.0, info.items[branch]), with.1)
    else
      var with := Include(info, assumedFees, here, branch, included, weight);
      var without := Exclude(info, assumedFees, with.1, branch, included, weight);
      (Join(without.0, with.0, info.items[branch]), without.1)
  }

  /** The branch that takes vote number `branch` and keeps only the bits it confirms. */
  ghost function Include(info: ProcessInfo<AggregatedVote>, assumedFees: nat, st: Status, branch: nat,
                         included: set<AggregatedBit>, weight: nat): (Option<Partial>, Status)
    requires branch < |info.items|
    decreases |info.items| - branch, 0
  {
    var vote := info.items[branch];
    Branch(info, assumedFees, st.Tick(Cost(included, vote)), branch + 1, Common(included, {vote}),
           weight + vote.weight)
  }

  /** One operation for each bit dropped, half an operation for each bit kept. */
  ghost function Cost(included: set<AggregatedBit>, vote: AggregatedVote): (c: nat)
    ensures |included| / 2 <= c <= |included|
  {
    var kept := Common(included, {vote});
    SubsetSize(kept, included);
    |included| - |kept| + |kept| / 2
  }

  /** The branch that drops vote number `branch`: explored only if the rest can still reach the majority. */
  ghost function Exclude(info: ProcessInfo<AggregatedVote>, assumedFees: nat, st: Status, branch: nat,
                         included: set<AggregatedBit>, weight: nat): (Option<Partial>, Status)
    requires branch < |info.items|
    decreases |info.items| - branch, 0
  {
    if weight + Weight(From(info.items, branch + 1)) > info.totalWeight / 2 then
      Branch(info, assumedFees, st, branch + 1, included, weight)
    else
      (None, st)
  }

  function Join(without: Option<Partial>, with: Option<Partial>, vote: AggregatedVote): Option<Partial>
  {
    if with.None? then without
    else if without.None? || Less(without.value.value, with.value.value) then
      Some(with.value.(votes := with.value.votes + {vote}))
    else without
  }

  // ---------------------------------------------------------------- exactness

  ghost function LeafValue(info: ProcessInfo<AggregatedVote>, assumedFees: nat, included: set<AggregatedBit>, weight: nat,
                           votes: set<AggregatedVote>): Value
  {
    CalcValue(assumedFees + Fees(Common(included, votes)), weight + Weight(votes), info.totalWeight)
  }

  ghost predicate Leaf(info: ProcessInfo<AggregatedVote>, branch: nat, weight: nat, votes: set<AggregatedVote>)
    requires branch <= |info.items|
  {
    votes <= From(info.items, branch) && weight + Weight(votes) > info.totalWeight / 2
  }

  /** Every leaf below the node is worth at most `bound`. */
  ghost predicate Bounded(info: ProcessInfo<AggregatedVote>, assumedFees: nat, branch: nat, included: set<AggregatedBit>,
                          weight: nat, bound: Value)
    requires branch <= |info.items|
  {
    forall votes :: Leaf(info, branch, weight, votes)
      ==> !Less(bound, LeafValue(info, assumedFees, included, weight, votes))
  }

  /** `s` is one of the leaves below the node, reported with the bits its votes agree on and its value. */
  ghost predicate Reached(info: ProcessInfo<AggregatedVote>, assumedFees: nat, branch: nat, included: set<AggregatedBit>,
                          weight: nat, s: Partial)
    requires branch <= |info.items|
  {
    && Leaf(info, branch, weight, s.votes)
    && s.bits == Common(included, s.votes)
    && s.value == LeafValue(info, assumedFees, included, weight, s.votes)
  }

  /** The outcome `r` of a node entered with status `st`. */
  ghost predicate Exact(info: ProcessInfo<AggregatedVote>, assumedFees: nat, st: Status, branch: nat,
                        included: set<AggregatedBit>, weight: nat, r: (Option<Partial>, Status))
    requires branch <= |info.items|
  {
    && st.ops < r.1.ops
    && (r.0.None? ==> r.1.bound == st.bound)
    && (r.0.Some? ==> Less(st.bound, r.1.bound) && r.0.value.value == r.1.bound
                      && Reached(info, assumedFees, branch, included, weight, r.0.value))
    && (r.1.ops < info.maxOperations ==> Bounded(info, assumedFees, branch, included, weight, r.1.bound))
  }

  /** The same guarantee for a branch taken from a node: nothing may have been explored. */
  ghost predicate ExactChild(info: ProcessInfo<AggregatedVote>, assumedFees: nat, st: Status, branch: nat,
                             included: set<AggregatedBit>, weight: nat, r: (Option<Partial>, Status))
    requires branch <= |info.items|
  {
    && st.ops <= r.1.ops
    && (r.0.None? ==> r.1.bound == st.bound)
    && (r.0.Some? ==> Less(st.bound, r.1.bound) && r.0.value.value == r.1.bound
                      && Reached(info, assumedFees, branch, included, weight, r.0.value))
    && (r.1.ops < info.maxOperations ==> Bounded(info, assumedFees, branch, included, weight, r.1.bound))
  }

  lemma WeightStep(votes: seq<AggregatedVote>, branch: nat)
    requires branch < |votes| && Distinct(votes)
    ensures Weight(From(votes, branch)) == Weight(From(votes, branch + 1)) + votes[branch].weight
  {
    FromStep(votes, branch);
    WeightAdd(From(votes, branch + 1), votes[branch]);
  }

  /** The value at a node bounds every leaf below it. */
  lemma PruningBound(info: ProcessInfo<AggregatedVote>, assumedFees: nat, branch: nat, included: set<AggregatedBit>, weight: nat,
                     votes: set<AggregatedVote>)
    requires branch <= |info.items| && votes <= From(info.items, branch)
    ensures !Less(CalcValue(assumedFees + Fees(included), weight + Weight(From(info.items, branch)),
                            info.totalWeight),
                  LeafValue(info, assumedFees, included, weight, votes))
  {
    SumSubset(votes, From(info.items, branch), VoteWeight());
    SumSubset(Common(included, votes), included, BitFee());
    CalcValueMono(assumedFees + Fees(Common(included, votes)), weight + Weight(votes),
                  assumedFees + Fees(included), weight + Weight(From(info.items, branch)), info.totalWeight);
  }

  lemma CommonSplit(included: set<AggregatedBit>, rest: set<AggregatedVote>, vote: AggregatedVote)
    ensures Common(included, rest + {vote}) == Common(Common(included, {vote}), rest)
  {
  }

  /** A leaf that takes the next vote is a leaf of the included branch, with the same value. */
  lemma LeafWith(info: ProcessInfo<AggregatedVote>, assumedFees: nat, branch: nat, included: set<AggregatedBit>, weight: nat,
                 rest: set<AggregatedVote>)
    requires branch < |info.items| && Distinct(info.items) && rest <= From(info.items, branch + 1)
    ensures var vote := info.items[branch];
            var kept := Common(included, {vote});
            && Common(included, rest + {vote}) == Common(kept, rest)
            && LeafValue(info, assumedFees, included, weight, rest + {vote})
               == LeafValue(info, assumedFees, kept, weight + vote.weight, rest)
            && (Leaf(info, branch, weight, rest + {vote})
                <==> Leaf(info, branch + 1, weight + vote.weight, rest))
  {
    var vote := info.items[branch];
    FromStep(info.items, branch);
    CommonSplit(included, rest, vote);
    WeightAdd(rest, vote);
    var fee := assumedFees + Fees(Common(included, rest + {vote}));
    CalcValueSame(fee, weight + Weight(rest + {vote}), fee, weight + vote.weight + Weight(rest), info.totalWeight);
  }

  /** The leaves of a node are those without its vote and those with it. */
  lemma BoundedSplit(info: ProcessInfo<AggregatedVote>, assumedFees: nat, branch: nat, included: set<AggregatedBit>, weight: nat,
                     bound: Value)
    requires branch < |info.items| && Distinct(info.items)
    requires Bounded(info, assumedFees, branch + 1, included, weight, bound)
    requires var vote := info.items[branch];
             Bounded(info, assumedFees, branch + 1, Common(included, {vote}), weight + vote.weight, bound)
    ensures Bounded(info, assumedFees, branch, included, weight, bound)
  {
    var vote := info.items[branch];
    FromStep(info.items, branch);
    forall votes | Leaf(info, branch, weight, votes)
      ensures !Less(bound, LeafValue(info, assumedFees, included, weight, votes))
    {
      if vote in votes {
        var rest := votes - {vote};
        assert votes == rest + {vote};
        LeafWith(info, assumedFees, branch, included, weight, rest);
      } else {
        assert Leaf(info, branch + 1, weight, votes);
      }
    }
  }

  lemma BoundedWeaken(info: ProcessInfo<AggregatedVote>, assumedFees: nat, branch: nat, included: set<AggregatedBit>, weight: nat,
                      bound: Value, bound': Value)
    requires branch <= |info.items| && !Less(bound', bound)
    requires Bounded(info, assumedFees, branch, included, weight, bound)
    ensures Bounded(info, assumedFees, branch, included, weight, bound')
  {
  }

  /** What the join keeps is a leaf of the node. */
  lemma JoinReached(info: ProcessInfo<AggregatedVote>, assumedFees: nat, branch: nat, included: set<AggregatedBit>, weight: nat,
                    without: Option<Partial>, with: Option<Partial>)
    requires branch < |info.items| && Distinct(info.items)
    requires without.Some? ==> Reached(info, assumedFees, branch + 1, included, weight, without.value)
    requires var vote := info.items[branch];
             with.Some? ==> Reached(info, assumedFees, branch + 1, Common(included, {vote}), weight + vote.weight,
                                    with.value)
    ensures var r := Join(without, with, info.items[branch]);
            r.Some? ==> Reached(info, assumedFees, branch, included, weight, r.value)
  {
    FromStep(info.items, branch);
    if with.Some? {
      LeafWith(info, assumedFees, branch, included, weight, with.value.votes);
    }
  }

  /** Two explored branches, whichever came first, bound the whole node. */
  lemma JoinBounded(info: ProcessInfo<AggregatedVote>, assumedFees: nat, branch: nat, included: set<AggregatedBit>, weight: nat,
                    without: Value, with: Value, last: Value)
    requires branch < |info.items| && Distinct(info.items)
    requires !Less(last, without) && !Less(last, with)
    requires Bounded(info, assumedFees, branch + 1, included, weight, without)
    requires var vote := info.items[branch];
             Bounded(info, assumedFees, branch + 1, Common(included, {vote}), weight + vote.weight, with)
    ensures Bounded(info, assumedFees, branch, included, weight, last)
  {
    var vote := info.items[branch];
    BoundedWeaken(info, assumedFees, branch + 1, included, weight, without, last);
    BoundedWeaken(info, assumedFees, branch + 1, Common(included, {vote}), weight + vote.weight, with, last);
    BoundedSplit(info, assumedFees, branch, included, weight, last);
  }

  /** Two explored branches, whichever came first, give the node's guarantee. */
  lemma Combine(info: ProcessInfo<AggregatedVote>, assumedFees: nat, st: Status, branch: nat, included: set<AggregatedBit>, weight: nat,
                s0: Status, without: (Option<Partial>, Status), s1: Status, with: (Option<Partial>, Status),
                last: Status)
    requires branch < |info.items| && Distinct(info.items)
    requires ExactChild(info, assumedFees, s0, branch + 1, included, weight, without)
    requires var vote := info.items[branch];
             ExactChild(info, assumedFees, s1, branch + 1, Common(included, {vote}), weight + vote.weight, with)
    requires st.ops < s0.ops && st.ops < s1.ops
    requires (s0.bound == st.bound && s1 == without.1 && last == with.1)
             || (s1.bound == st.bound && s0 == with.1 && last == without.1)
    ensures Exact(info, assumedFees, st, branch, included, weight,
                  (Join(without.0, with.0, info.items[branch]), last))
  {
    JoinReached(info, assumedFees, branch, included, weight, without.0, with.0);
    if last.ops < info.maxOperations {
      JoinBounded(info, assumedFees, branch, included, weight, without.1.bound, with.1.bound, last.bound);
    }
  }

  /** Whatever the budget, the exploration order and the bound on entry: the outcome is a real leaf that beats the
      bound, and if the operation counter stays below the budget it is the best leaf, or nothing beats the bound. */
  lemma {:induction false} BranchExact(info: ProcessInfo<AggregatedVote>, assumedFees: nat, st: Status, branch: nat,
                                       included: set<AggregatedBit>, weight: nat)
    requires branch <= |info.items| && Distinct(info.items)
    requires weight + Weight(From(info.items, branch)) > info.totalWeight / 2
    ensures Exact(info, assumedFees, st, branch, included, weight,
                  Branch(info, assumedFees, st, branch, included, weight))
    decreases |info.items| - branch, 1
  {
    var here := st.(ops := st.ops + 1);
    var value := CalcValue(assumedFees + Fees(included), weight + Weight(From(info.items, branch)),
                           info.totalWeight);
    if branch == |info.items| {
      assert From(info.items, branch) == {};
      assert Common(included, {}) == included;
    } else if here.ops >= info.maxOperations {
    } else if !Less(st.bound, value) {
      forall votes | Leaf(info, branch, weight, votes)
        ensures !Less(st.bound, LeafValue(info, assumedFees, included, weight, votes))
      {
        PruningBound(info, assumedFees, branch, included, weight, votes);
      }
    } else if info.excludeFirst {
      var without := Exclude(info, assumedFees, here, branch, included, weight);
      ExcludeExact(info, assumedFees, here, branch, included, weight);
      IncludeExact(info, assumedFees, without.1, branch, included, weight);
      var with := Include(info, assumedFees, without.1, branch, included, weight);
      Combine(info, assumedFees, st, branch, included, weight, here, without, without.1, with, with.1);
    } else {
      var with := Include(info, assumedFees, here, branch, included, weight);
      IncludeExact(info, assumedFees, here, branch, included, weight);
      ExcludeExact(info, assumedFees, with.1, branch, included, weight);
      var without := Exclude(info, assumedFees, with.1, branch, included, weight);
      Combine(info, assumedFees, st, branch, included, weight, with.1, without, here, with, without.1);
    }
  }

  /** The guarantee of a child that is entered a few operations later. */
  lemma {:induction false} ChildExact(info: ProcessInfo<AggregatedVote>, assumedFees: nat, st: Status, cost: nat, branch: nat,
                                      included: set<AggregatedBit>, weight: nat)
    requires branch <= |info.items| && Distinct(info.items)
    requires weight + Weight(From(info.items, branch)) > info.totalWeight / 2
    ensures ExactChild(info, assumedFees, st, branch, included, weight,
                       Branch(info, assumedFees, st.Tick(cost), branch, included, weight))
    decreases |info.items| - branch, 2
  {
    BranchExact(info, assumedFees, st.Tick(cost), branch, included, weight);
  }

  lemma {:induction false} IncludeExact(info: ProcessInfo<AggregatedVote>, assumedFees: nat, st: Status, branch: nat,
                                        included: set<AggregatedBit>, weight: nat)
    requires branch < |info.items| && Distinct(info.items)
    requires weight + Weight(From(info.items, branch)) > info.totalWeight / 2
    ensures var vote := info.items[branch];
            ExactChild(info, assumedFees, st, branch + 1, Common(included, {vote}), weight + vote.weight,
                       Include(info, assumedFees, st, branch, included, weight))
    decreases |info.items| - branch, 0
  {
    var vote := info.items[branch];
    WeightStep(info.items, branch);
    ChildExact(info, assumedFees, st, Cost(included, vote), branch + 1, Common(included, {vote}), weight + vote.weight);
  }

  lemma {:induction false} ExcludeExact(info: ProcessInfo<AggregatedVote>, assumedFees: nat, st: Status, branch: nat,
                                        included: set<AggregatedBit>, weight: nat)
    requires branch < |info.items| && Distinct(info.items)
    ensures ExactChild(info, assumedFees, st, branch + 1, included, weight,
                       Exclude(info, assumedFees, st, branch, included, weight))
    decreases |info.items| - branch, 0
  {
    var rest := From(info.items, branch + 1);
    if weight + Weight(rest) > info.totalWeight / 2 {
      BranchExact(info, assumedFees, st, branch + 1, included, weight);
    } else {
      forall votes | votes <= rest ensures weight + Weight(votes) <= info.totalWeight / 2 {
        SumSubset(votes, rest, VoteWeight());
      }
    }
  }

  /** All the votes of a node, with what they agree on. */
  ghost function AllVotes(info: ProcessInfo<AggregatedVote>, assumedFees: nat, branch: nat, included: set<AggregatedBit>,
                          weight: nat): Partial
    requires branch <= |info.items|
  {
    var all := From(info.items, branch);
    Partial(all, Common(included, all), LeafValue(info, assumedFees, included, weight, all))
  }

  lemma AllVotesStep(info: ProcessInfo<AggregatedVote>, assumedFees: nat, branch: nat, included: set<AggregatedBit>,
                     weight: nat)
    requires branch < |info.items| && Distinct(info.items)
    ensures var vote := info.items[branch];
            var rest := AllVotes(info, assumedFees, branch + 1, Common(included, {vote}), weight + vote.weight);
            AllVotes(info, assumedFees, branch, included, weight) == rest.(votes := rest.votes + {vote})
  {
    FromStep(info.items, branch);
    LeafWith(info, assumedFees, branch, included, weight, From(info.items, branch + 1));
  }

  /** Without a majority no vote is dropped. */
  lemma ExcludeLonely(info: ProcessInfo<AggregatedVote>, assumedFees: nat, st: Status, branch: nat,
                      included: set<AggregatedBit>, weight: nat)
    requires branch < |info.items| && Distinct(info.items)
    requires weight + Weight(From(info.items, branch)) <= info.totalWeight / 2
    ensures Exclude(info, assumedFees, st, branch, included, weight) == (None, st)
  {
    WeightStep(info.items, branch);
  }

  /** Entered without a majority, the search returns all votes together, or nothing. */
  lemma {:induction false} BranchLonely(info: ProcessInfo<AggregatedVote>, assumedFees: nat, st: Status, branch: nat,
                                        included: set<AggregatedBit>, weight: nat)
    requires branch <= |info.items| && Distinct(info.items)
    requires weight + Weight(From(info.items, branch)) <= info.totalWeight / 2
    ensures Lonely(st, AllVotes(info, assumedFees, branch, included, weight), info.maxOperations,
                   Branch(info, assumedFees, st, branch, included, weight))
    decreases |info.items| - branch
  {
    if branch == |info.items| {
      assert From(info.items, branch) == {} && Common(included, {}) == included;
    } else {
      var here := st.(ops := st.ops + 1);
      var value := CalcValue(assumedFees + Fees(included), weight + Weight(From(info.items, branch)), info.totalWeight);
      PruningBound(info, assumedFees, branch, included, weight, From(info.items, branch));
      if here.ops < info.maxOperations && Less(st.bound, value) {
        var with := Include(info, assumedFees, here, branch, included, weight);
        IncludeLonely(info, assumedFees, here, branch, included, weight);
        ExcludeLonely(info, assumedFees, if info.excludeFirst then here else with.1, branch, included, weight);
        assert Branch(info, assumedFees, st, branch, included, weight) == (Join(None, with.0, info.items[branch]), with.1);
      }
    }
  }

  /** Adding the vote to the only leaf of the child gives the only leaf of the node. */
  lemma JoinLonely(st: Status, cost: nat, rest: Partial, vote: AggregatedVote, maxOperations: int,
                   r: (Option<Partial>, Status))
    requires Lonely(st.Tick(cost), rest, maxOperations, r)
    ensures Lonely(st, rest.(votes := rest.votes + {vote}), maxOperations, (Join(None, r.0, vote), r.1))
  {
  }

  lemma {:induction false} IncludeLonely(info: ProcessInfo<AggregatedVote>, assumedFees: nat, st: Status, branch: nat,
                                         included: set<AggregatedBit>, weight: nat)
    requires branch < |info.items| && Distinct(info.items)
    requires weight + Weight(From(info.items, branch)) <= info.totalWeight / 2
    ensures var r := Include(info, assumedFees, st, branch, included, weight);
            Lonely(st, AllVotes(info, assumedFees, branch, included, weight), info.maxOperations,
                   (Join(None, r.0, info.items[branch]), r.1))
    decreases |info.items| - branch, 0
  {
    var vote := info.items[branch];
    WeightStep(info.items, branch);
    AllVotesStep(info, assumedFees, branch, included, weight);
    BranchLonely(info, assumedFees, st.Tick(Cost(included, vote)), branch + 1, Common(included, {vote}),
                 weight + vote.weight);
    JoinLonely(st, Cost(included, vote),
               AllVotes(info, assumedFees, branch + 1, Common(included, {vote}), weight + vote.weight), vote,
               info.maxOperations, Include(info, assumedFees, st, branch, included, weight));
  }

  /** A search only ever reports votes from its list. */
  lemma {:induction false} BranchWithin(info: ProcessInfo<AggregatedVote>, assumedFees: nat, st: Status, branch: nat,
                                        included: set<AggregatedBit>, weight: nat)
    requires branch <= |info.items|
    ensures var r := Branch(info, assumedFees, st, branch, included, weight).0;
            r.Some? ==> r.value.votes <= From(info.items, branch)
    decreases |info.items| - branch
  {
    if branch < |info.items| {
      var here := st.(ops := st.ops + 1);
      assert info.items[branch..] == [info.items[branch]] + info.items[branch + 1..];
      if info.excludeFirst {
        BranchWithin(info, assumedFees, here, branch + 1, included, weight);
        IncludeWithin(info, assumedFees, Exclude(info, assumedFees, here, branch, included, weight).1, branch, included,
                      weight);
      } else {
        IncludeWithin(info, assumedFees, here, branch, included, weight);
        BranchWithin(info, assumedFees, Include(info, assumedFees, here, branch, included, weight).1, branch + 1,
                     included, weight);
      }
    }
  }

  lemma {:induction false} IncludeWithin(info: ProcessInfo<AggregatedVote>, assumedFees: nat, st: Status, branch: nat,
                                         included: set<AggregatedBit>, weight: nat)
    requires branch < |info.items|
    ensures var r := Include(info, assumedFees, st, branch, included, weight).0;
            r.Some? ==> r.value.votes <= From(info.items, branch + 1)
    decreases |info.items| - branch, 0
  {
    var vote := info.items[branch];
    BranchWithin(info, assumedFees, st.Tick(Cost(included, vote)), branch + 1, Common(included, {vote}),
                 weight + vote.weight);
  }

  // ---------------------------------------------------------------- work bound

  /** The budget can be overrun only while unwinding: by at most `depth` visits plus one. */
  function OpsLimit(budget: int, depth: nat, bits: nat): int
  {
    budget + 1 + depth * (bits + 1)
  }

  lemma OpsLimitStep(budget: int, depth: nat, bits: nat)
    ensures OpsLimit(budget, depth + 1, bits) == OpsLimit(budget, depth, bits) + bits + 1
    ensures OpsLimit(budget, depth, bits) > budget
  {
    assert depth * (bits + 1) >= 0;
  }

  /** The tree has exponentially many nodes, yet the operation counter stays linear in the depth above the budget. */
  lemma {:induction false} BranchOps(info: ProcessInfo<AggregatedVote>, assumedFees: nat, st: Status, branch: nat,
                                     included: set<AggregatedBit>, weight: nat, bits: nat)
    requires branch <= |info.items| && |included| <= bits
    ensures var ops := Branch(info, assumedFees, st, branch, included, weight).1.ops;
            && (st.ops + 1 >= info.maxOperations ==> ops == st.ops + 1)
            && (st.ops < info.maxOperations ==> ops <= OpsLimit(info.maxOperations, |info.items| - branch, bits))
    decreases |info.items| - branch
  {
    if branch < |info.items| {
      var here := st.(ops := st.ops + 1);
      OpsLimitStep(info.maxOperations, |info.items| - branch - 1, bits);
      if info.excludeFirst {
        ExcludeOps(info, assumedFees, here, branch, included, weight, bits);
        var without := Exclude(info, assumedFees, here, branch, included, weight);
        IncludeOps(info, assumedFees, without.1, branch, included, weight, bits);
      } else {
        IncludeOps(info, assumedFees, here, branch, included, weight, bits);
        var with := Include(info, assumedFees, here, branch, included, weight);
        ExcludeOps(info, assumedFees, with.1, branch, included, weight, bits);
      }
    } else {
      OpsLimitStep(info.maxOperations, 0, bits);
    }
  }

  lemma {:induction false} IncludeOps(info: ProcessInfo<AggregatedVote>, assumedFees: nat, st: Status, branch: nat,
                                      included: set<AggregatedBit>, weight: nat, bits: nat)
    requires branch < |info.items| && |included| <= bits
    ensures var ops := Include(info, assumedFees, st, branch, included, weight).1.ops;
            || ops <= OpsLimit(info.maxOperations, |info.items| - branch - 1, bits)
            || ops <= st.ops + bits + 1
    decreases |info.items| - branch, 0
  {
    var vote := info.items[branch];
    var kept := Common(included, {vote});
    SubsetSize(kept, included);
    BranchOps(info, assumedFees, st.Tick(Cost(included, vote)), branch + 1, kept, weight + vote.weight, bits);
  }

  lemma {:induction false} ExcludeOps(info: ProcessInfo<AggregatedVote>, assumedFees: nat, st: Status, branch: nat,
                                      included: set<AggregatedBit>, weight: nat, bits: nat)
    requires branch < |info.items| && |included| <= bits
    ensures var ops := Exclude(info, assumedFees, st, branch, included, weight).1.ops;
            || ops <= OpsLimit(info.maxOperations, |info.items| - branch - 1, bits)
            || ops <= st.ops + 1
    decreases |info.items| - branch, 0
  {
    BranchOps(info, assumedFees, st, branch + 1, included, weight, bits);
  }

  /** Operations of the whole tree of a given depth. */
  function TreeCost(depth: nat, bits: nat): nat
  {
    if depth == 0 then 1 else 2 * TreeCost(depth - 1, bits) + bits + 1
  }

  /** Whatever the budget, no search costs more than its whole tree. */
  lemma {:induction false} BranchTree(info: ProcessInfo<AggregatedVote>, assumedFees: nat, st: Status, branch: nat,
                                      included: set<AggregatedBit>, weight: nat, bits: nat)
    requires branch <= |info.items| && |included| <= bits
    ensures Branch(info, assumedFees, st, branch, included, weight).1.ops
            <= st.ops + TreeCost(|info.items| - branch, bits)
    decreases |info.items| - branch
  {
    if branch < |info.items| {
      var here := st.(ops := st.ops + 1);
      if info.excludeFirst {
        BranchTree(info, assumedFees, here, branch + 1, included, weight, bits);
        var without := Exclude(info, assumedFees, here, branch, included, weight);
        IncludeTree(info, assumedFees, without.1, branch, included, weight, bits);
      } else {
        IncludeTree(info, assumedFees, here, branch, included, weight, bits);
        var with := Include(info, assumedFees, here, branch, included, weight);
        BranchTree(info, assumedFees, with.1, branch + 1, included, weight, bits);
      }
    }
  }

  lemma {:induction false} IncludeTree(info: ProcessInfo<AggregatedVote>, assumedFees: nat, st: Status, branch: nat,
                                       included: set<AggregatedBit>, weight: nat, bits: nat)
    requires branch < |info.items| && |included| <= bits
    ensures Include(info, assumedFees, st, branch, included, weight).1.ops
            <= st.ops + bits + TreeCost(|info.items| - branch - 1, bits)
    decreases |info.items| - branch, 0
  {
    var vote := info.items[branch];
    var kept := Common(included, {vote});
    SubsetSize(kept, included);
    BranchTree(info, assumedFees, st.Tick(Cost(included, vote)), branch + 1, kept, weight + vote.weight, bits);
  }

  // ---------------------------------------------------------------- the recursion as written

  lemma KeepStep(all: set<AggregatedBit>, todo: set<AggregatedBit>, b: AggregatedBit, vote: AggregatedVote)
    requires todo <= all && b in todo
    ensures var kept, kept' := Common(all - todo, {vote}), Common(all - (todo - {b}), {vote});
            && Fees(todo) == b.fee + Fees(todo - {b}) && |todo| == |todo - {b}| + 1
            && (Supports(vote, b)
                ==> kept' == kept + {b} && Fees(kept') == Fees(kept) + b.fee && |kept'| == |kept| + 1)
            && (!Supports(vote, b) ==> kept' == kept)
  {
    FeesRemove(todo, b);
    var kept := Common(all - todo, {vote});
    var kept' := Common(all - (todo - {b}), {vote});
    assert b !in kept;
    if Supports(vote, b) {
      assert kept' == kept + {b};
      FeesAdd(kept, b);
    } else {
      assert kept' == kept;
    }
  }

  /** Keeps the bits the vote confirms and subtracts the fees of the others, in any order. */
  method KeepConfirmed(includedBits: set<AggregatedBit>, feeSum: nat, vote: AggregatedVote)
    returns (newIncludedBits: set<AggregatedBit>, newFeeSum: nat, removed: nat)
    requires Fees(includedBits) <= feeSum
    ensures newIncludedBits == Common(includedBits, {vote})
    ensures newFeeSum + Fees(includedBits) == feeSum + Fees(newIncludedBits)
    ensures removed + |newIncludedBits| == |includedBits|
  {
    newIncludedBits, newFeeSum, removed := {}, feeSum, 0;
    var todo := includedBits;
    while todo != {}
      invariant todo <= includedBits
      invariant newIncludedBits == Common(includedBits - todo, {vote})
      invariant newFeeSum + Fees(includedBits) == feeSum + Fees(newIncludedBits) + Fees(todo)
      invariant removed + |newIncludedBits| + |todo| == |includedBits|
      decreases todo
    {
      var b :| b in todo;
      KeepStep(includedBits, todo, b, vote);
      todo := todo - {b};
      if Supports(vote, b) {
        newIncludedBits := newIncludedBits + {b};
      } else {
        newFeeSum := newFeeSum - b.fee;
        removed := removed + 1;
      }
    }
    assert includedBits - todo == includedBits;
  }

  method PrepareDataForBranchWithVote(info: ProcessInfo<AggregatedVote>, status: SharedStatus, includedBits: set<AggregatedBit>,
                                      feeSum: nat, voteIndex: nat)
    returns (newIncludedBits: set<AggregatedBit>, newFeeSum: nat)
    requires voteIndex < |info.items| && Fees(includedBits) <= feeSum
    modifies status
    ensures newIncludedBits == Common(includedBits, {info.items[voteIndex]})
    ensures newFeeSum + Fees(includedBits) == feeSum + Fees(newIncludedBits)
    ensures |newIncludedBits| <= |includedBits|
    ensures status.View()
            == old(status.View()).Tick(|includedBits| - |newIncludedBits| + |newIncludedBits| / 2)
  {
    var removed;
    newIncludedBits, newFeeSum, removed := KeepConfirmed(includedBits, feeSum, info.items[voteIndex]);
    status.numOperations := status.numOperations + removed;
    status.numOperations := status.numOperations + |newIncludedBits| / 2;
  }

  /** Drops the vote, if the others can still reach the majority. */
  method BranchWithoutVote(info: ProcessInfo<AggregatedVote>, status: SharedStatus, branch: nat, includedBits: set<AggregatedBit>,
                           feeSum: nat, weight: nat, ghost assumedFees: nat, ghost taken: nat)
    returns (r: Option<Partial>)
    requires branch < |info.items| && Distinct(info.items) && info.lowerBoundWeight == info.totalWeight / 2
    requires feeSum == assumedFees + Fees(includedBits)
    requires weight == taken + Weight(From(info.items, branch))
    modifies status
    ensures (r, status.View()) == Exclude(info, assumedFees, old(status.View()), branch, includedBits, taken)
    decreases |info.items| - branch, 0
  {
    WeightStep(info.items, branch);
    var newWeight := weight - info.items[branch].weight;
    r := None;
    if newWeight > info.lowerBoundWeight {
      r := BranchVotes(info, status, branch + 1, includedBits, feeSum, newWeight, assumedFees, taken);
    }
  }

  method BranchWithVote(info: ProcessInfo<AggregatedVote>, status: SharedStatus, branch: nat, includedBits: set<AggregatedBit>,
                        feeSum: nat, weight: nat, ghost assumedFees: nat, ghost taken: nat)
    returns (r: Option<Partial>)
    requires branch < |info.items| && Distinct(info.items) && info.lowerBoundWeight == info.totalWeight / 2
    requires feeSum == assumedFees + Fees(includedBits)
    requires weight == taken + Weight(From(info.items, branch))
    modifies status
    ensures (r, status.View()) == Include(info, assumedFees, old(status.View()), branch, includedBits, taken)
    decreases |info.items| - branch, 0
  {
    WeightStep(info.items, branch);
    var newIncludedBits, newFeeSum := PrepareDataForBranchWithVote(info, status, includedBits, feeSum, branch);
    r := BranchVotes(info, status, branch + 1, newIncludedBits, newFeeSum, weight,
                     assumedFees, taken + info.items[branch].weight);
  }

  /** The recursion carries running sums of weight and fee; it computes exactly `Branch`. */
  method BranchVotes(info: ProcessInfo<AggregatedVote>, status: SharedStatus, branch: nat, includedBits: set<AggregatedBit>,
                     feeSum: nat, weight: nat, ghost assumedFees: nat, ghost taken: nat)
    returns (r: Option<Partial>)
    requires branch <= |info.items| && Distinct(info.items) && info.lowerBoundWeight == info.totalWeight / 2
    requires feeSum == assumedFees + Fees(includedBits)
    requires weight == taken + Weight(From(info.items, branch))
    modifies status
    ensures (r, status.View()) == Branch(info, assumedFees, old(status.View()), branch, includedBits, taken)
    decreases |info.items| - branch
  {
    status.numOperations := status.numOperations + 1;
    var value := CalcValue(feeSum, weight, info.totalWeight);
    if branch == |info.items| {
      if Cmp(value, status.currentBound) == 1 {
        status.currentBound := value;
        return Some(Partial({}, includedBits, value));
      }
      return None;
    }
    if status.numOperations >= info.maxOperations {
      return None;
    }
    if Cmp(value, status.currentBound) != 1 {
      return None;
    }
    var result0: Option<Partial>, result1: Option<Partial> := None, None;
    if info.excludeFirst {
      result0 := BranchWithoutVote(info, status, branch, includedBits, feeSum, weight, assumedFees, taken);
    }
    result1 := BranchWithVote(info, status, branch, includedBits, feeSum, weight, assumedFees, taken);
    if !info.excludeFirst {
      result0 := BranchWithoutVote(info, status, branch, includedBits, feeSum, weight, assumedFees, taken);
    }
    r := Join(result0, result1, info.items[branch]);
  }
}
