/** Branch and bound over subsets of aggregated bits. */
module BitsSearch {
  import opened Sorting
  import opened Sums
  import opened Values
  import opened Instances
  import opened Search

  /** What the recursion returns from a node, read off the sets alone: no running sums, no enumeration order. */
  ghost function Branch(info: ProcessInfo<AggregatedBit>, assumedWeight: nat, st: Status, branch: nat,
                        included: set<AggregatedVote>, fee: nat): (Option<Partial>, Status)
    requires branch <= |info.items|
    decreases |info.items| - branch
  {
    var here := st.(ops := st.ops + 1);
    var value := CalcValue(fee + Fees(From(info.items, branch)), assumedWeight + Weight(included), info.totalWeight);
    if branch == |info.items| then
      if Less(st.bound, value) then (Some(Partial(included, {}, value)), here.(bound := value)) else (None, here)
    else if here.ops >= info.maxOperations || !Less(st.bound, value) then
      (None, here)
    else if info.excludeFirst then
      var without := Branch(info, assumedWeight, here.Tick(1), branch + 1, included, fee);
      var with := Include(info, assumedWeight, without.1, branch, included, fee);
      (Join(without.0, with.0, info.items[branch]), with.1)
    else
      var with := Include(info, assumedWeight, here, branch, included, fee);
      var without := Branch(info, assumedWeight, with.1.Tick(1), branch + 1, included, fee);
      (Join(without.0, with.0, info.items[branch]), without.1)
  }

  /** The branch that takes bit number `branch`: explored only if its supporters keep the majority. */
  ghost function Include(info: ProcessInfo<AggregatedBit>, assumedWeight: nat, st: Status, branch: nat,
                         included: set<AggregatedVote>, fee: nat): (Option<Partial>, Status)
    requires branch < |info.items|
    decreases |info.items| - branch, 0
  {
    var bit := info.items[branch];
    var kept := Supporters(included, {bit});
    var ready := st.Tick(|included| / 2);
    if assumedWeight + Weight(kept) > info.totalWeight / 2 then
      Branch(info, assumedWeight, ready, branch + 1, kept, fee + bit.fee)
    else
      (None, ready)
  }

  function Join(without: Option<Partial>, with: Option<Partial>, bit: AggregatedBit): Option<Partial>
  {
    if with.None? then without
    else if without.None? || Less(without.value.value, with.value.value) then
      Some(with.value.(bits := with.value.bits + {bit}))
    else without
  }

  // ---------------------------------------------------------------- exactness

  ghost function LeafValue(info: ProcessInfo<AggregatedBit>, assumedWeight: nat, included: set<AggregatedVote>, fee: nat,
                           bits: set<AggregatedBit>): Value
  {
    CalcValue(fee + Fees(bits), assumedWeight + Weight(Supporters(included, bits)), info.totalWeight)
  }

  ghost predicate Leaf(info: ProcessInfo<AggregatedBit>, assumedWeight: nat, branch: nat, included: set<AggregatedVote>,
                       bits: set<AggregatedBit>)
    requires branch <= |info.items|
  {
    bits <= From(info.items, branch) && assumedWeight + Weight(Supporters(included, bits)) > info.totalWeight / 2
  }

  /** Every leaf below the node is worth at most `bound`. */
  ghost predicate Bounded(info: ProcessInfo<AggregatedBit>, assumedWeight: nat, branch: nat, included: set<AggregatedVote>,
                          fee: nat, bound: Value)
    requires branch <= |info.items|
  {
    forall bits :: Leaf(info, assumedWeight, branch, included, bits)
      ==> !Less(bound, LeafValue(info, assumedWeight, included, fee, bits))
  }

  /** `s` is one of the leaves below the node, reported with its supporters and its value. */
  ghost predicate Reached(info: ProcessInfo<AggregatedBit>, assumedWeight: nat, branch: nat, included: set<AggregatedVote>,
                          fee: nat, s: Partial)
    requires branch <= |info.items|
  {
    && Leaf(info, assumedWeight, branch, included, s.bits)
    && s.votes == Supporters(included, s.bits)
    && s.value == LeafValue(info, assumedWeight, included, fee, s.bits)
  }

  /** The outcome `r` of a node entered with status `st`. */
  ghost predicate Exact(info: ProcessInfo<AggregatedBit>, assumedWeight: nat, st: Status, branch: nat,
                        included: set<AggregatedVote>, fee: nat, r: (Option<Partial>, Status))
    requires branch <= |info.items|
  {
    && st.ops < r.1.ops
    && (r.0.None? ==> r.1.bound == st.bound)
    && (r.0.Some? ==> Less(st.bound, r.1.bound) && r.0.value.value == r.1.bound
                      && Reached(info, assumedWeight, branch, included, fee, r.0.value))
    && (r.1.ops < info.maxOperations ==> Bounded(info, assumedWeight, branch, included, fee, r.1.bound))
  }

  /** The value at a node bounds every leaf below it. */
  lemma PruningBound(info: ProcessInfo<AggregatedBit>, assumedWeight: nat, branch: nat, included: set<AggregatedVote>, fee: nat,
                     bits: set<AggregatedBit>)
    requires branch <= |info.items| && bits <= From(info.items, branch)
    ensures !Less(CalcValue(fee + Fees(From(info.items, branch)), assumedWeight + Weight(included), info.totalWeight),
                  LeafValue(info, assumedWeight, included, fee, bits))
  {
    SumSubset(bits, From(info.items, branch), BitFee());
    SumSubset(Supporters(included, bits), included, VoteWeight());
    CalcValueMono(fee + Fees(bits), assumedWeight + Weight(Supporters(included, bits)),
                  fee + Fees(From(info.items, branch)), assumedWeight + Weight(included), info.totalWeight);
  }

  lemma SupportersSplit(included: set<AggregatedVote>, rest: set<AggregatedBit>, bit: AggregatedBit)
    ensures Supporters(included, rest + {bit}) == Supporters(Supporters(included, {bit}), rest)
  {
  }

  /** A leaf that takes the next bit is a leaf of the included branch, with the same value. */
  lemma LeafWith(info: ProcessInfo<AggregatedBit>, assumedWeight: nat, branch: nat, included: set<AggregatedVote>, fee: nat,
                 rest: set<AggregatedBit>)
    requires branch < |info.items| && Distinct(info.items) && rest <= From(info.items, branch + 1)
    ensures var bit := info.items[branch];
            var kept := Supporters(included, {bit});
            && Supporters(included, rest + {bit}) == Supporters(kept, rest)
            && LeafValue(info, assumedWeight, included, fee, rest + {bit})
               == LeafValue(info, assumedWeight, kept, fee + bit.fee, rest)
            && (Leaf(info, assumedWeight, branch, included, rest + {bit})
                <==> Leaf(info, assumedWeight, branch + 1, kept, rest))
  {
    var bit := info.items[branch];
    FromStep(info.items, branch);
    SupportersSplit(included, rest, bit);
    FeesAdd(rest, bit);
    var weight := assumedWeight + Weight(Supporters(included, rest + {bit}));
    CalcValueSame(fee + Fees(rest + {bit}), weight, fee + bit.fee + Fees(rest), weight, info.totalWeight);
  }

  /** If the included branch is cut for want of majority, no leaf below it had one. */
  lemma NoMajorityBelow(info: ProcessInfo<AggregatedBit>, assumedWeight: nat, kept: set<AggregatedVote>, rest: set<AggregatedBit>)
    ensures assumedWeight + Weight(kept) <= info.totalWeight / 2
            ==> assumedWeight + Weight(Supporters(kept, rest)) <= info.totalWeight / 2
  {
    SumSubset(Supporters(kept, rest), kept, VoteWeight());
  }

  /** The leaves of a node are those without its bit and those with it. */
  lemma BoundedSplit(info: ProcessInfo<AggregatedBit>, assumedWeight: nat, branch: nat, included: set<AggregatedVote>, fee: nat,
                     bound: Value)
    requires branch < |info.items| && Distinct(info.items)
    requires Bounded(info, assumedWeight, branch + 1, included, fee, bound)
    requires var kept := Supporters(included, {info.items[branch]});
             assumedWeight + Weight(kept) > info.totalWeight / 2
             ==> Bounded(info, assumedWeight, branch + 1, kept, fee + info.items[branch].fee, bound)
    ensures Bounded(info, assumedWeight, branch, included, fee, bound)
  {
    var bit := info.items[branch];
    var kept := Supporters(included, {bit});
    FromStep(info.items, branch);
    forall bits | Leaf(info, assumedWeight, branch, included, bits)
      ensures !Less(bound, LeafValue(info, assumedWeight, included, fee, bits))
    {
      if bit in bits {
        var rest := bits - {bit};
        assert bits == rest + {bit};
        LeafWith(info, assumedWeight, branch, included, fee, rest);
        NoMajorityBelow(info, assumedWeight, kept, rest);
      } else {
        assert Leaf(info, assumedWeight, branch + 1, included, bits);
      }
    }
  }

  lemma BoundedWeaken(info: ProcessInfo<AggregatedBit>, assumedWeight: nat, branch: nat, included: set<AggregatedVote>, fee: nat,
                      bound: Value, bound': Value)
    requires branch <= |info.items| && !Less(bound', bound)
    requires Bounded(info, assumedWeight, branch, included, fee, bound)
    ensures Bounded(info, assumedWeight, branch, included, fee, bound')
  {
  }

  /** Whatever the budget, the exploration order and the bound on entry: the outcome is a real leaf that beats the
      bound, and if the operation counter stays below the budget it is the best leaf, or nothing beats the bound. */
  lemma {:induction false} BranchExact(info: ProcessInfo<AggregatedBit>, assumedWeight: nat, st: Status, branch: nat,
                                       included: set<AggregatedVote>, fee: nat)
    requires branch <= |info.items| && Distinct(info.items)
    requires assumedWeight + Weight(included) > info.totalWeight / 2
    ensures Exact(info, assumedWeight, st, branch, included, fee,
                  Branch(info, assumedWeight, st, branch, included, fee))
    decreases |info.items| - branch
  {
    var here := st.(ops := st.ops + 1);
    var value := CalcValue(fee + Fees(From(info.items, branch)), assumedWeight + Weight(included), info.totalWeight);
    if branch == |info.items| {
      assert From(info.items, branch) == {};
      assert Supporters(included, {}) == included;
    } else if here.ops >= info.maxOperations {
    } else if !Less(st.bound, value) {
      forall bits | Leaf(info, assumedWeight, branch, included, bits)
        ensures !Less(st.bound, LeafValue(info, assumedWeight, included, fee, bits))
      {
        PruningBound(info, assumedWeight, branch, included, fee, bits);
      }
    } else if info.excludeFirst {
      var without := Branch(info, assumedWeight, here.Tick(1), branch + 1, included, fee);
      BranchExact(info, assumedWeight, here.Tick(1), branch + 1, included, fee);
      IncludeExact(info, assumedWeight, without.1, branch, included, fee);
      var with := Include(info, assumedWeight, without.1, branch, included, fee);
      Combine(info, assumedWeight, st, branch, included, fee,
              here.Tick(1), without, without.1, with, with.1);
    } else {
      var with := Include(info, assumedWeight, here, branch, included, fee);
      IncludeExact(info, assumedWeight, here, branch, included, fee);
      BranchExact(info, assumedWeight, with.1.Tick(1), branch + 1, included, fee);
      var without := Branch(info, assumedWeight, with.1.Tick(1), branch + 1, included, fee);
      Combine(info, assumedWeight, st, branch, included, fee,
              with.1.Tick(1), without, here, with, without.1);
    }
  }

  /** The guarantee of the branch that takes the bit. */
  ghost predicate ExactWith(info: ProcessInfo<AggregatedBit>, assumedWeight: nat, st: Status, branch: nat,
                            included: set<AggregatedVote>, fee: nat, r: (Option<Partial>, Status))
    requires branch < |info.items|
  {
    var bit := info.items[branch];
    var kept := Supporters(included, {bit});
    && st.ops <= r.1.ops
    && (r.0.None? ==> r.1.bound == st.bound)
    && (r.0.Some? ==> Less(st.bound, r.1.bound) && r.0.value.value == r.1.bound
                      && Reached(info, assumedWeight, branch + 1, kept, fee + bit.fee, r.0.value))
    && (r.1.ops < info.maxOperations && assumedWeight + Weight(kept) > info.totalWeight / 2
        ==> Bounded(info, assumedWeight, branch + 1, kept, fee + bit.fee, r.1.bound))
  }

  lemma {:induction false} IncludeExact(info: ProcessInfo<AggregatedBit>, assumedWeight: nat, st: Status, branch: nat,
                                        included: set<AggregatedVote>, fee: nat)
    requires branch < |info.items| && Distinct(info.items)
    ensures ExactWith(info, assumedWeight, st, branch, included, fee,
                      Include(info, assumedWeight, st, branch, included, fee))
    decreases |info.items| - branch, 0
  {
    var bit := info.items[branch];
    var kept := Supporters(included, {bit});
    if assumedWeight + Weight(kept) > info.totalWeight / 2 {
      BranchExact(info, assumedWeight, st.Tick(|included| / 2), branch + 1, kept, fee + bit.fee);
    }
  }

  /** What the join keeps is a leaf of the node. */
  lemma JoinReached(info: ProcessInfo<AggregatedBit>, assumedWeight: nat, branch: nat, included: set<AggregatedVote>, fee: nat,
                    without: Option<Partial>, with: Option<Partial>)
    requires branch < |info.items| && Distinct(info.items)
    requires without.Some? ==> Reached(info, assumedWeight, branch + 1, included, fee, without.value)
    requires var bit := info.items[branch];
             with.Some? ==> Reached(info, assumedWeight, branch + 1, Supporters(included, {bit}), fee + bit.fee,
                                    with.value)
    ensures var r := Join(without, with, info.items[branch]);
            r.Some? ==> Reached(info, assumedWeight, branch, included, fee, r.value)
  {
    FromStep(info.items, branch);
    if with.Some? {
      LeafWith(info, assumedWeight, branch, included, fee, with.value.bits);
    }
  }

  /** Two explored branches, whichever came first, bound the whole node. */
  lemma JoinBounded(info: ProcessInfo<AggregatedBit>, assumedWeight: nat, branch: nat, included: set<AggregatedVote>, fee: nat,
                    without: Value, with: Value, last: Value)
    requires branch < |info.items| && Distinct(info.items)
    requires !Less(last, without) && !Less(last, with)
    requires Bounded(info, assumedWeight, branch + 1, included, fee, without)
    requires var kept := Supporters(included, {info.items[branch]});
             assumedWeight + Weight(kept) > info.totalWeight / 2
             ==> Bounded(info, assumedWeight, branch + 1, kept, fee + info.items[branch].fee, with)
    ensures Bounded(info, assumedWeight, branch, included, fee, last)
  {
    var kept := Supporters(included, {info.items[branch]});
    BoundedWeaken(info, assumedWeight, branch + 1, included, fee, without, last);
    if assumedWeight + Weight(kept) > info.totalWeight / 2 {
      BoundedWeaken(info, assumedWeight, branch + 1, kept, fee + info.items[branch].fee, with, last);
    }
    BoundedSplit(info, assumedWeight, branch, included, fee, last);
  }

  /** Two explored branches, whichever came first, give the node's guarantee. */
  lemma Combine(info: ProcessInfo<AggregatedBit>, assumedWeight: nat, st: Status, branch: nat, included: set<AggregatedVote>, fee: nat,
                s0: Status, without: (Option<Partial>, Status), s1: Status, with: (Option<Partial>, Status),
                last: Status)
    requires branch < |info.items| && Distinct(info.items)
    requires Exact(info, assumedWeight, s0, branch + 1, included, fee, without)
    requires ExactWith(info, assumedWeight, s1, branch, included, fee, with)
    requires st.ops < s0.ops && st.ops < s1.ops
    requires (s0.bound == st.bound && s1 == without.1 && last == with.1)
             || (s1.bound == st.bound && s0 == with.1.Tick(1) && last == without.1)
    ensures Exact(info, assumedWeight, st, branch, included, fee,
                  (Join(without.0, with.0, info.items[branch]), last))
  {
    JoinReached(info, assumedWeight, branch, included, fee, without.0, with.0);
    if last.ops < info.maxOperations {
      JoinBounded(info, assumedWeight, branch, included, fee, without.1.bound, with.1.bound, last.bound);
    }
  }

  /** Without a majority no bit is taken. */
  lemma IncludeLonely(info: ProcessInfo<AggregatedBit>, assumedWeight: nat, st: Status, branch: nat,
                      included: set<AggregatedVote>, fee: nat)
    requires branch < |info.items| && assumedWeight + Weight(included) <= info.totalWeight / 2
    ensures Include(info, assumedWeight, st, branch, included, fee) == (None, st.Tick(|included| / 2))
  {
    SumSubset(Supporters(included, {info.items[branch]}), included, VoteWeight());
  }

  /** Entered without a majority, the search returns the empty selection, or nothing. */
  lemma {:induction false} BranchLonely(info: ProcessInfo<AggregatedBit>, assumedWeight: nat, st: Status, branch: nat,
                                        included: set<AggregatedVote>, fee: nat)
    requires branch <= |info.items|
    requires assumedWeight + Weight(included) <= info.totalWeight / 2
    ensures Lonely(st, Partial(included, {}, CalcValue(fee, assumedWeight + Weight(included), info.totalWeight)),
                   info.maxOperations, Branch(info, assumedWeight, st, branch, included, fee))
    decreases |info.items| - branch
  {
    if branch == |info.items| {
      assert From(info.items, branch) == {};
    } else {
      var here := st.(ops := st.ops + 1);
      var weight := assumedWeight + Weight(included);
      CalcValueMono(fee, weight, fee + Fees(From(info.items, branch)), weight, info.totalWeight);
      if here.ops < info.maxOperations
         && Less(st.bound, CalcValue(fee + Fees(From(info.items, branch)), weight, info.totalWeight)) {
        if info.excludeFirst {
          BranchLonely(info, assumedWeight, here.Tick(1), branch + 1, included, fee);
          IncludeLonely(info, assumedWeight, Branch(info, assumedWeight, here.Tick(1), branch + 1, included, fee).1, branch,
                        included, fee);
        } else {
          IncludeLonely(info, assumedWeight, here, branch, included, fee);
          BranchLonely(info, assumedWeight, here.Tick(|included| / 2).Tick(1), branch + 1, included, fee);
        }
      }
    }
  }

  /** A search only ever reports votes it started from. */
  lemma {:induction false} BranchWithin(info: ProcessInfo<AggregatedBit>, assumedWeight: nat, st: Status, branch: nat,
                                        included: set<AggregatedVote>, fee: nat)
    requires branch <= |info.items|
    ensures var r := Branch(info, assumedWeight, st, branch, included, fee).0;
            r.Some? ==> r.value.votes <= included
    decreases |info.items| - branch
  {
    if branch < |info.items| {
      var here := st.(ops := st.ops + 1);
      if info.excludeFirst {
        BranchWithin(info, assumedWeight, here.Tick(1), branch + 1, included, fee);
        IncludeWithin(info, assumedWeight, Branch(info, assumedWeight, here.Tick(1), branch + 1, included, fee).1, branch,
                      included, fee);
      } else {
        IncludeWithin(info, assumedWeight, here, branch, included, fee);
        BranchWithin(info, assumedWeight, Include(info, assumedWeight, here, branch, included, fee).1.Tick(1), branch + 1,
                     included, fee);
      }
    }
  }

  lemma {:induction false} IncludeWithin(info: ProcessInfo<AggregatedBit>, assumedWeight: nat, st: Status, branch: nat,
                                         included: set<AggregatedVote>, fee: nat)
    requires branch < |info.items|
    ensures var r := Include(info, assumedWeight, st, branch, included, fee).0;
            r.Some? ==> r.value.votes <= included
    decreases |info.items| - branch, 0
  {
    var bit := info.items[branch];
    BranchWithin(info, assumedWeight, st.Tick(|included| / 2), branch + 1, Supporters(included, {bit}), fee + bit.fee);
  }

  // ---------------------------------------------------------------- work bound

  /** The budget can be overrun only while unwinding: by at most `depth` visits plus one. */
  function OpsLimit(budget: int, depth: nat, votes: nat): int
  {
    budget + 1 + depth * (votes / 2 + 2)
  }

  lemma OpsLimitStep(budget: int, depth: nat, votes: nat)
    ensures OpsLimit(budget, depth + 1, votes) == OpsLimit(budget, depth, votes) + votes / 2 + 2
    ensures OpsLimit(budget, depth, votes) > budget
  {
    assert depth * (votes / 2 + 2) >= 0;
  }

  /** The tree has exponentially many nodes, yet the operation counter stays linear in the depth above the budget. */
  lemma {:induction false} BranchOps(info: ProcessInfo<AggregatedBit>, assumedWeight: nat, st: Status, branch: nat,
                                     included: set<AggregatedVote>, fee: nat, votes: nat)
    requires branch <= |info.items| && |included| <= votes
    ensures var ops := Branch(info, assumedWeight, st, branch, included, fee).1.ops;
            && (st.ops + 1 >= info.maxOperations ==> ops == st.ops + 1)
            && (st.ops < info.maxOperations ==> ops <= OpsLimit(info.maxOperations, |info.items| - branch, votes))
    decreases |info.items| - branch
  {
    if branch < |info.items| {
      var here := st.(ops := st.ops + 1);
      var depth := |info.items| - branch - 1;
      OpsLimitStep(info.maxOperations, depth, votes);
      if info.excludeFirst {
        BranchOps(info, assumedWeight, here.Tick(1), branch + 1, included, fee, votes);
        var without := Branch(info, assumedWeight, here.Tick(1), branch + 1, included, fee);
        IncludeOps(info, assumedWeight, without.1, branch, included, fee, votes);
      } else {
        IncludeOps(info, assumedWeight, here, branch, included, fee, votes);
        var with := Include(info, assumedWeight, here, branch, included, fee);
        BranchOps(info, assumedWeight, with.1.Tick(1), branch + 1, included, fee, votes);
      }
    } else {
      OpsLimitStep(info.maxOperations, 0, votes);
    }
  }

  lemma {:induction false} IncludeOps(info: ProcessInfo<AggregatedBit>, assumedWeight: nat, st: Status, branch: nat,
                                      included: set<AggregatedVote>, fee: nat, votes: nat)
    requires branch < |info.items| && |included| <= votes
    ensures var ops := Include(info, assumedWeight, st, branch, included, fee).1.ops;
            || ops <= OpsLimit(info.maxOperations, |info.items| - branch - 1, votes)
            || ops <= st.ops + votes / 2 + 1
    decreases |info.items| - branch, 0
  {
    var bit := info.items[branch];
    var kept := Supporters(included, {bit});
    if assumedWeight + Weight(kept) > info.totalWeight / 2 {
      SubsetSize(kept, included);
      BranchOps(info, assumedWeight, st.Tick(|included| / 2), branch + 1, kept, fee + bit.fee, votes);
    }
  }

  /** Operations of the whole tree of a given depth. */
  function TreeCost(depth: nat, votes: nat): nat
  {
    if depth == 0 then 1 else 2 * TreeCost(depth - 1, votes) + votes / 2 + 2
  }

  /** Whatever the budget, no search costs more than its whole tree. */
  lemma {:induction false} BranchTree(info: ProcessInfo<AggregatedBit>, assumedWeight: nat, st: Status, branch: nat,
                                      included: set<AggregatedVote>, fee: nat, votes: nat)
    requires branch <= |info.items| && |included| <= votes
    ensures Branch(info, assumedWeight, st, branch, included, fee).1.ops
            <= st.ops + TreeCost(|info.items| - branch, votes)
    decreases |info.items| - branch
  {
    if branch < |info.items| {
      var here := st.(ops := st.ops + 1);
      var below := TreeCost(|info.items| - branch - 1, votes);
      if info.excludeFirst {
        var without := Branch(info, assumedWeight, here.Tick(1), branch + 1, included, fee);
        BranchTree(info, assumedWeight, here.Tick(1), branch + 1, included, fee, votes);
        assert without.1.ops <= st.ops + 2 + below;
        IncludeTree(info, assumedWeight, without.1, branch, included, fee, votes);
      } else {
        var with := Include(info, assumedWeight, here, branch, included, fee);
        IncludeTree(info, assumedWeight, here, branch, included, fee, votes);
        assert with.1.ops <= st.ops + 1 + votes / 2 + below;
        BranchTree(info, assumedWeight, with.1.Tick(1), branch + 1, included, fee, votes);
      }
    }
  }

  lemma {:induction false} IncludeTree(info: ProcessInfo<AggregatedBit>, assumedWeight: nat, st: Status, branch: nat,
                                       included: set<AggregatedVote>, fee: nat, votes: nat)
    requires branch < |info.items| && |included| <= votes
    ensures Include(info, assumedWeight, st, branch, included, fee).1.ops
            <= st.ops + votes / 2 + TreeCost(|info.items| - branch - 1, votes)
    decreases |info.items| - branch, 0
  {
    var bit := info.items[branch];
    var kept := Supporters(included, {bit});
    SubsetSize(kept, included);
    BranchTree(info, assumedWeight, st.Tick(|included| / 2), branch + 1, kept, fee + bit.fee, votes);
  }

  // ---------------------------------------------------------------- the recursion as written

  /** Keeps the votes that confirm the bit and subtracts the weights of the others, in any order. */
  method KeepConfirming(includedVotes: set<AggregatedVote>, currentWeight: nat, bit: AggregatedBit)
    returns (newIncludedVotes: set<AggregatedVote>, newCurrentWeight: nat)
    requires Weight(includedVotes) <= currentWeight
    ensures newIncludedVotes == Supporters(includedVotes, {bit})
    ensures newCurrentWeight + Weight(includedVotes) == currentWeight + Weight(newIncludedVotes)
  {
    newIncludedVotes, newCurrentWeight := {}, currentWeight;
    var todo := includedVotes;
    while todo != {}
      invariant todo <= includedVotes
      invariant newIncludedVotes == Supporters(includedVotes - todo, {bit})
      invariant newCurrentWeight + Weight(includedVotes) == currentWeight + Weight(newIncludedVotes) + Weight(todo)
      decreases todo
    {
      var v :| v in todo;
      WeightRemove(todo, v);
      assert includedVotes - (todo - {v}) == (includedVotes - todo) + {v};
      todo := todo - {v};
      if Supports(v, bit) {
        WeightAdd(newIncludedVotes, v);
        newIncludedVotes := newIncludedVotes + {v};
      } else {
        newCurrentWeight := newCurrentWeight - v.weight;
      }
    }
    assert includedVotes - todo == includedVotes;
  }

  method PrepareDataForBranchWithOne(info: ProcessInfo<AggregatedBit>, status: SharedStatus, includedVotes: set<AggregatedVote>,
                                     currentWeight: nat, bitIndex: nat)
    returns (newIncludedVotes: set<AggregatedVote>, newCurrentWeight: nat)
    requires bitIndex < |info.items| && Weight(includedVotes) <= currentWeight
    modifies status
    ensures newIncludedVotes == Supporters(includedVotes, {info.items[bitIndex]})
    ensures newCurrentWeight + Weight(includedVotes) == currentWeight + Weight(newIncludedVotes)
    ensures status.View() == old(status.View()).Tick(|includedVotes| / 2)
  {
    newIncludedVotes, newCurrentWeight := KeepConfirming(includedVotes, currentWeight, info.items[bitIndex]);
    status.numOperations := status.numOperations + |includedVotes| / 2;
  }

  lemma FeesStep(bits: seq<AggregatedBit>, branch: nat)
    requires branch < |bits| && Distinct(bits)
    ensures Fees(From(bits, branch)) == Fees(From(bits, branch + 1)) + bits[branch].fee
  {
    FromStep(bits, branch);
    FeesAdd(From(bits, branch + 1), bits[branch]);
  }

  /** Takes the bit, if those who confirm it still hold the majority. */
  method BranchWithBit(info: ProcessInfo<AggregatedBit>, status: SharedStatus, branch: nat, includedVotes: set<AggregatedVote>,
                       currentWeight: nat, feeSum: nat, ghost assumedWeight: nat, ghost fee: nat)
    returns (r: Option<Partial>)
    requires branch < |info.items| && Distinct(info.items) && info.lowerBoundWeight == info.totalWeight / 2
    requires currentWeight == assumedWeight + Weight(includedVotes)
    requires feeSum == fee + Fees(From(info.items, branch))
    modifies status
    ensures (r, status.View()) == Include(info, assumedWeight, old(status.View()), branch, includedVotes, fee)
    decreases |info.items| - branch, 0
  {
    var newIncludedVotes, newCurrentWeight :=
      PrepareDataForBranchWithOne(info, status, includedVotes, currentWeight, branch);
    r := None;
    if newCurrentWeight > info.lowerBoundWeight {
      FeesStep(info.items, branch);
      r := BranchBits(info, status, branch + 1, newIncludedVotes, newCurrentWeight, feeSum,
                      assumedWeight, fee + info.items[branch].fee);
    }
  }

  /** Drops the bit. */
  method BranchWithoutBit(info: ProcessInfo<AggregatedBit>, status: SharedStatus, branch: nat,
                          includedVotes: set<AggregatedVote>, currentWeight: nat, feeSum: nat, ghost assumedWeight: nat,
                          ghost fee: nat) returns (r: Option<Partial>)
    requires branch < |info.items| && Distinct(info.items) && info.lowerBoundWeight == info.totalWeight / 2
    requires currentWeight == assumedWeight + Weight(includedVotes)
    requires feeSum == fee + Fees(From(info.items, branch))
    modifies status
    ensures (r, status.View())
            == Branch(info, assumedWeight, old(status.View()).Tick(1), branch + 1, includedVotes, fee)
    decreases |info.items| - branch, 0
  {
    FeesStep(info.items, branch);
    status.numOperations := status.numOperations + 1;
    r := BranchBits(info, status, branch + 1, includedVotes, currentWeight, feeSum - info.items[branch].fee, assumedWeight,
                    fee);
  }

  /** The recursion carries running sums of weight and fee; it computes exactly `Branch`. */
  method BranchBits(info: ProcessInfo<AggregatedBit>, status: SharedStatus, branch: nat, includedVotes: set<AggregatedVote>,
                    currentWeight: nat, feeSum: nat, ghost assumedWeight: nat, ghost fee: nat)
    returns (r: Option<Partial>)
    requires branch <= |info.items| && Distinct(info.items) && info.lowerBoundWeight == info.totalWeight / 2
    requires currentWeight == assumedWeight + Weight(includedVotes)
    requires feeSum == fee + Fees(From(info.items, branch))
    modifies status
    ensures (r, status.View()) == Branch(info, assumedWeight, old(status.View()), branch, includedVotes, fee)
    decreases |info.items| - branch
  {
    status.numOperations := status.numOperations + 1;
    var value := CalcValue(feeSum, currentWeight, info.totalWeight);
    if branch == |info.items| {
      if Cmp(value, status.currentBound) == 1 {
        status.currentBound := value;
        return Some(Partial(includedVotes, {}, value));
      }
      return None;
    }
    if status.numOperations >= info.maxOperations {
      return None;
    }
    if Cmp(value, status.currentBound) != 1 {
      return None;
    }
    var result0: Option<Partial>, result1: Option<Partial> := None, None;
    if info.excludeFirst {
      result0 := BranchWithoutBit(info, status, branch, includedVotes, currentWeight, feeSum, assumedWeight, fee);
    }
    result1 := BranchWithBit(info, status, branch, includedVotes, currentWeight, feeSum, assumedWeight, fee);
    if !info.excludeFirst {
      result0 := BranchWithoutBit(info, status, branch, includedVotes, currentWeight, feeSum, assumedWeight, fee);
    }
    r := Join(result0, result1, info.items[branch]);
  }
}
