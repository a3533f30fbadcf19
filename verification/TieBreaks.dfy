/** Which of several equally good sets a search returns: the first one on its way. The bound only rises, so a later leaf of
    the same value never replaces an earlier one. */
module TieBreaks {
  import opened Sorting
  import opened Values
  import opened Instances
  import opened Search
  import opened Solver
  import B = BitsSearch
  import V = VotesSearch

  /** At the first item from `branch` on which `a` and `b` differ, `a` is on the side that is explored first. */
  ghost predicate Comes<T(!new)>(items: seq<T>, branch: nat, excludeFirst: bool, a: set<T>, b: set<T>)
    requires branch <= |items|
    decreases |items| - branch
  {
    if branch == |items| then true
    else if items[branch] in a && items[branch] !in b then !excludeFirst
    else if items[branch] !in a && items[branch] in b then excludeFirst
    else Comes(items, branch + 1, excludeFirst, a, b)
  }

  /** Only the items from `branch` on matter. */
  lemma {:induction false} ComesFrom<T(!new)>(items: seq<T>, branch: nat, excludeFirst: bool, a: set<T>, b: set<T>,
                                              a': set<T>, b': set<T>)
    requires branch <= |items| && Comes(items, branch, excludeFirst, a, b)
    requires forall k :: branch <= k < |items| ==> (items[k] in a <==> items[k] in a') && (items[k] in b <==> items[k] in b')
    ensures Comes(items, branch, excludeFirst, a', b')
    decreases |items| - branch
  {
    if branch < |items| && (items[branch] in a <==> items[branch] in b) {
      ComesFrom(items, branch + 1, excludeFirst, a, b, a', b');
    }
  }

  /** Taking an item on both sides does not change who comes first. */
  lemma ComesWith<T(!new)>(items: seq<T>, branch: nat, excludeFirst: bool, a: set<T>, b: set<T>)
    requires branch < |items| && Distinct(items) && Comes(items, branch + 1, excludeFirst, a, b)
    ensures Comes(items, branch, excludeFirst, a + {items[branch]}, b + {items[branch]})
  {
    ComesFrom(items, branch + 1, excludeFirst, a, b, a + {items[branch]}, b + {items[branch]});
  }

  // ---------------------------------------------------------------- bits

  /** No other leaf of the node with the value of `s` comes before `s`. */
  ghost predicate FirstBits(info: ProcessInfo<AggregatedBit>, assumedWeight: nat, branch: nat, included: set<AggregatedVote>,
                            fee: nat, s: Partial)
    requires branch <= |info.items|
  {
    forall bits :: B.Leaf(info, assumedWeight, branch, included, bits)
                   && B.LeafValue(info, assumedWeight, included, fee, bits) == s.value
                   ==> Comes(info.items, branch, info.excludeFirst, s.bits, bits)
  }

  /** The kept result takes the bit: leaves without it come later, or are worth less. */
  lemma BitTaken(info: ProcessInfo<AggregatedBit>, assumedWeight: nat, branch: nat, included: set<AggregatedVote>, fee: nat,
                 s: Partial, without: Value)
    requires branch < |info.items| && Distinct(info.items)
    requires var bit := info.items[branch];
             FirstBits(info, assumedWeight, branch + 1, Supporters(included, {bit}), fee + bit.fee, s)
    requires B.Bounded(info, assumedWeight, branch + 1, included, fee, without)
    requires info.excludeFirst ==> Less(without, s.value)
    ensures FirstBits(info, assumedWeight, branch, included, fee, s.(bits := s.bits + {info.items[branch]}))
  {
    var bit := info.items[branch];
    FromStep(info.items, branch);
    forall bits | B.Leaf(info, assumedWeight, branch, included, bits)
                  && B.LeafValue(info, assumedWeight, included, fee, bits) == s.value
      ensures Comes(info.items, branch, info.excludeFirst, s.bits + {bit}, bits)
    {
      if bit in bits {
        var rest := bits - {bit};
        assert bits == rest + {bit};
        B.LeafWith(info, assumedWeight, branch, included, fee, rest);
        ComesWith(info.items, branch, info.excludeFirst, s.bits, rest);
      } else {
        assert B.Leaf(info, assumedWeight, branch + 1, included, bits);
      }
    }
  }

  /** The kept result drops the bit: leaves with it come later, or are worth less. */
  lemma BitDropped(info: ProcessInfo<AggregatedBit>, assumedWeight: nat, branch: nat, included: set<AggregatedVote>, fee: nat,
                   s: Partial, with: Value)
    requires branch < |info.items| && Distinct(info.items) && info.items[branch] !in s.bits
    requires FirstBits(info, assumedWeight, branch + 1, included, fee, s)
    requires var bit := info.items[branch];
             var kept := Supporters(included, {bit});
             assumedWeight + Weight(kept) > info.totalWeight / 2
             ==> B.Bounded(info, assumedWeight, branch + 1, kept, fee + bit.fee, with)
    requires !info.excludeFirst ==> Less(with, s.value)
    ensures FirstBits(info, assumedWeight, branch, included, fee, s)
  {
    var bit := info.items[branch];
    FromStep(info.items, branch);
    forall bits | B.Leaf(info, assumedWeight, branch, included, bits)
                  && B.LeafValue(info, assumedWeight, included, fee, bits) == s.value
      ensures Comes(info.items, branch, info.excludeFirst, s.bits, bits)
    {
      if bit in bits {
        var rest := bits - {bit};
        assert bits == rest + {bit};
        B.LeafWith(info, assumedWeight, branch, included, fee, rest);
        B.NoMajorityBelow(info, assumedWeight, Supporters(included, {bit}), rest);
      } else {
        assert B.Leaf(info, assumedWeight, branch + 1, included, bits);
      }
    }
  }

  /** What the join keeps comes first, whichever branch was explored first. */
  lemma JoinFirstBits(info: ProcessInfo<AggregatedBit>, assumedWeight: nat, branch: nat, included: set<AggregatedVote>,
                      fee: nat, s0: Status, without: (Option<Partial>, Status), s1: Status,
                      with: (Option<Partial>, Status))
    requires branch < |info.items| && Distinct(info.items)
    requires B.Exact(info, assumedWeight, s0, branch + 1, included, fee, without)
    requires B.ExactWith(info, assumedWeight, s1, branch, included, fee, with)
    requires without.1.ops < info.maxOperations && with.1.ops < info.maxOperations
    requires if info.excludeFirst then s1.bound == without.1.bound else s0.bound == with.1.bound
    requires without.0.Some? ==> FirstBits(info, assumedWeight, branch + 1, included, fee, without.0.value)
    requires var bit := info.items[branch];
             with.0.Some? ==> FirstBits(info, assumedWeight, branch + 1, Supporters(included, {bit}), fee + bit.fee,
                                        with.0.value)
    ensures var r := B.Join(without.0, with.0, info.items[branch]);
            r.Some? ==> FirstBits(info, assumedWeight, branch, included, fee, r.value)
  {
    FromStep(info.items, branch);
    if with.0.Some? && (without.0.None? || Less(without.0.value.value, with.0.value.value)) {
      BitTaken(info, assumedWeight, branch, included, fee, with.0.value, without.1.bound);
    } else if without.0.Some? {
      BitDropped(info, assumedWeight, branch, included, fee, without.0.value, with.1.bound);
    }
  }

  /** A complete search over bits returns the first of the best leaves. */
  lemma {:induction false} BranchFirstBits(info: ProcessInfo<AggregatedBit>, assumedWeight: nat, st: Status, branch: nat,
                                           included: set<AggregatedVote>, fee: nat)
    requires branch <= |info.items| && Distinct(info.items)
    requires assumedWeight + Weight(included) > info.totalWeight / 2
    ensures var r := B.Branch(info, assumedWeight, st, branch, included, fee);
            r.0.Some? && r.1.ops < info.maxOperations
            ==> FirstBits(info, assumedWeight, branch, included, fee, r.0.value)
    decreases |info.items| - branch
  {
    var here := st.(ops := st.ops + 1);
    var r := B.Branch(info, assumedWeight, st, branch, included, fee);
    if r.0.Some? && r.1.ops < info.maxOperations && branch < |info.items| {
      if info.excludeFirst {
        var without := B.Branch(info, assumedWeight, here.Tick(1), branch + 1, included, fee);
        var with := B.Include(info, assumedWeight, without.1, branch, included, fee);
        B.BranchExact(info, assumedWeight, here.Tick(1), branch + 1, included, fee);
        B.IncludeExact(info, assumedWeight, without.1, branch, included, fee);
        BranchFirstBits(info, assumedWeight, here.Tick(1), branch + 1, included, fee);
        IncludeFirstBits(info, assumedWeight, without.1, branch, included, fee);
        JoinFirstBits(info, assumedWeight, branch, included, fee, here.Tick(1), without, without.1, with);
      } else {
        var with := B.Include(info, assumedWeight, here, branch, included, fee);
        var without := B.Branch(info, assumedWeight, with.1.Tick(1), branch + 1, included, fee);
        B.IncludeExact(info, assumedWeight, here, branch, included, fee);
        B.BranchExact(info, assumedWeight, with.1.Tick(1), branch + 1, included, fee);
        IncludeFirstBits(info, assumedWeight, here, branch, included, fee);
        BranchFirstBits(info, assumedWeight, with.1.Tick(1), branch + 1, included, fee);
        JoinFirstBits(info, assumedWeight, branch, included, fee, with.1.Tick(1), without, here, with);
      }
    }
  }

  lemma {:induction false} IncludeFirstBits(info: ProcessInfo<AggregatedBit>, assumedWeight: nat, st: Status, branch: nat,
                                            included: set<AggregatedVote>, fee: nat)
    requires branch < |info.items| && Distinct(info.items)
    ensures var bit := info.items[branch];
            var r := B.Include(info, assumedWeight, st, branch, included, fee);
            r.0.Some? && r.1.ops < info.maxOperations
            ==> FirstBits(info, assumedWeight, branch + 1, Supporters(included, {bit}), fee + bit.fee, r.0.value)
    decreases |info.items| - branch, 0
  {
    var bit := info.items[branch];
    var kept := Supporters(included, {bit});
    if assumedWeight + Weight(kept) > info.totalWeight / 2 {
      BranchFirstBits(info, assumedWeight, st.Tick(|included| / 2), branch + 1, kept, fee + bit.fee);
    }
  }

  // ---------------------------------------------------------------- votes

  ghost predicate FirstVotes(info: ProcessInfo<AggregatedVote>, assumedFees: nat, branch: nat, included: set<AggregatedBit>,
                             weight: nat, s: Partial)
    requires branch <= |info.items|
  {
    forall votes :: V.Leaf(info, branch, weight, votes)
                    && V.LeafValue(info, assumedFees, included, weight, votes) == s.value
                    ==> Comes(info.items, branch, info.excludeFirst, s.votes, votes)
  }

  lemma VoteTaken(info: ProcessInfo<AggregatedVote>, assumedFees: nat, branch: nat, included: set<AggregatedBit>, weight: nat,
                  s: Partial, without: Value)
    requires branch < |info.items| && Distinct(info.items)
    requires var vote := info.items[branch];
             FirstVotes(info, assumedFees, branch + 1, Common(included, {vote}), weight + vote.weight, s)
    requires V.Bounded(info, assumedFees, branch + 1, included, weight, without)
    requires info.excludeFirst ==> Less(without, s.value)
    ensures FirstVotes(info, assumedFees, branch, included, weight, s.(votes := s.votes + {info.items[branch]}))
  {
    var vote := info.items[branch];
    FromStep(info.items, branch);
    forall votes | V.Leaf(info, branch, weight, votes)
                   && V.LeafValue(info, assumedFees, included, weight, votes) == s.value
      ensures Comes(info.items, branch, info.excludeFirst, s.votes + {vote}, votes)
    {
      if vote in votes {
        var rest := votes - {vote};
        assert votes == rest + {vote};
        V.LeafWith(info, assumedFees, branch, included, weight, rest);
        ComesWith(info.items, branch, info.excludeFirst, s.votes, rest);
      } else {
        assert V.Leaf(info, branch + 1, weight, votes);
      }
    }
  }

  lemma VoteDropped(info: ProcessInfo<AggregatedVote>, assumedFees: nat, branch: nat, included: set<AggregatedBit>,
                    weight: nat, s: Partial, with: Value)
    requires branch < |info.items| && Distinct(info.items) && info.items[branch] !in s.votes
    requires FirstVotes(info, assumedFees, branch + 1, included, weight, s)
    requires var vote := info.items[branch];
             V.Bounded(info, assumedFees, branch + 1, Common(included, {vote}), weight + vote.weight, with)
    requires !info.excludeFirst ==> Less(with, s.value)
    ensures FirstVotes(info, assumedFees, branch, included, weight, s)
  {
    var vote := info.items[branch];
    FromStep(info.items, branch);
    forall votes | V.Leaf(info, branch, weight, votes)
                   && V.LeafValue(info, assumedFees, included, weight, votes) == s.value
      ensures Comes(info.items, branch, info.excludeFirst, s.votes, votes)
    {
      if vote in votes {
        var rest := votes - {vote};
        assert votes == rest + {vote};
        V.LeafWith(info, assumedFees, branch, included, weight, rest);
      } else {
        assert V.Leaf(info, branch + 1, weight, votes);
      }
    }
  }

  lemma JoinFirstVotes(info: ProcessInfo<AggregatedVote>, assumedFees: nat, branch: nat, included: set<AggregatedBit>,
                       weight: nat, s0: Status, without: (Option<Partial>, Status), s1: Status,
                       with: (Option<Partial>, Status))
    requires branch < |info.items| && Distinct(info.items)
    requires V.ExactChild(info, assumedFees, s0, branch + 1, included, weight, without)
    requires var vote := info.items[branch];
             V.ExactChild(info, assumedFees, s1, branch + 1, Common(included, {vote}), weight + vote.weight, with)
    requires without.1.ops < info.maxOperations && with.1.ops < info.maxOperations
    requires if info.excludeFirst then s1.bound == without.1.bound else s0.bound == with.1.bound
    requires without.0.Some? ==> FirstVotes(info, assumedFees, branch + 1, included, weight, without.0.value)
    requires var vote := info.items[branch];
             with.0.Some? ==> FirstVotes(info, assumedFees, branch + 1, Common(included, {vote}), weight + vote.weight,
                                         with.0.value)
    ensures var r := V.Join(without.0, with.0, info.items[branch]);
            r.Some? ==> FirstVotes(info, assumedFees, branch, included, weight, r.value)
  {
    FromStep(info.items, branch);
    if with.0.Some? && (without.0.None? || Less(without.0.value.value, with.0.value.value)) {
      VoteTaken(info, assumedFees, branch, included, weight, with.0.value, without.1.bound);
    } else if without.0.Some? {
      VoteDropped(info, assumedFees, branch, included, weight, without.0.value, with.1.bound);
    }
  }

  /** A complete search over votes returns the first of the best leaves. */
  lemma {:induction false} BranchFirstVotes(info: ProcessInfo<AggregatedVote>, assumedFees: nat, st: Status, branch: nat,
                                            included: set<AggregatedBit>, weight: nat)
    requires branch <= |info.items| && Distinct(info.items)
    requires weight + Weight(From(info.items, branch)) > info.totalWeight / 2
    ensures var r := V.Branch(info, assumedFees, st, branch, included, weight);
            r.0.Some? && r.1.ops < info.maxOperations
            ==> FirstVotes(info, assumedFees, branch, included, weight, r.0.value)
    decreases |info.items| - branch
  {
    var here := st.(ops := st.ops + 1);
    var r := V.Branch(info, assumedFees, st, branch, included, weight);
    if r.0.Some? && r.1.ops < info.maxOperations && branch < |info.items| {
      if info.excludeFirst {
        var without := V.Exclude(info, assumedFees, here, branch, included, weight);
        var with := V.Include(info, assumedFees, without.1, branch, included, weight);
        V.ExcludeExact(info, assumedFees, here, branch, included, weight);
        V.IncludeExact(info, assumedFees, without.1, branch, included, weight);
        ExcludeFirstVotes(info, assumedFees, here, branch, included, weight);
        IncludeFirstVotes(info, assumedFees, without.1, branch, included, weight);
        JoinFirstVotes(info, assumedFees, branch, included, weight, here, without, without.1, with);
      } else {
        var with := V.Include(info, assumedFees, here, branch, included, weight);
        var without := V.Exclude(info, assumedFees, with.1, branch, included, weight);
        V.IncludeExact(info, assumedFees, here, branch, included, weight);
        V.ExcludeExact(info, assumedFees, with.1, branch, included, weight);
        IncludeFirstVotes(info, assumedFees, here, branch, included, weight);
        ExcludeFirstVotes(info, assumedFees, with.1, branch, included, weight);
        JoinFirstVotes(info, assumedFees, branch, included, weight, with.1, without, here, with);
      }
    }
  }

  lemma {:induction false} IncludeFirstVotes(info: ProcessInfo<AggregatedVote>, assumedFees: nat, st: Status, branch: nat,
                                             included: set<AggregatedBit>, weight: nat)
    requires branch < |info.items| && Distinct(info.items)
    requires weight + Weight(From(info.items, branch)) > info.totalWeight / 2
    ensures var vote := info.items[branch];
            var r := V.Include(info, assumedFees, st, branch, included, weight);
            r.0.Some? && r.1.ops < info.maxOperations
            ==> FirstVotes(info, assumedFees, branch + 1, Common(included, {vote}), weight + vote.weight, r.0.value)
    decreases |info.items| - branch, 0
  {
    var vote := info.items[branch];
    V.WeightStep(info.items, branch);
    BranchFirstVotes(info, assumedFees, st.Tick(V.Cost(included, vote)), branch + 1, Common(included, {vote}),
                     weight + vote.weight);
  }

  lemma {:induction false} ExcludeFirstVotes(info: ProcessInfo<AggregatedVote>, assumedFees: nat, st: Status, branch: nat,
                                             included: set<AggregatedBit>, weight: nat)
    requires branch < |info.items| && Distinct(info.items)
    ensures var r := V.Exclude(info, assumedFees, st, branch, included, weight);
            r.0.Some? && r.1.ops < info.maxOperations
            ==> FirstVotes(info, assumedFees, branch + 1, included, weight, r.0.value)
    decreases |info.items| - branch, 0
  {
    if weight + Weight(From(info.items, branch + 1)) > info.totalWeight / 2 {
      BranchFirstVotes(info, assumedFees, st, branch + 1, included, weight);
    }
  }

  // ---------------------------------------------------------------- whole searches

  /** Two sets of items that both come first are the same. */
  lemma {:induction false} ComesOnce<T(!new)>(items: seq<T>, branch: nat, excludeFirst: bool, a: set<T>, b: set<T>)
    requires branch <= |items|
    requires Comes(items, branch, excludeFirst, a, b) && Comes(items, branch, excludeFirst, b, a)
    ensures forall k :: branch <= k < |items| ==> (items[k] in a <==> items[k] in b)
    decreases |items| - branch
  {
    if branch < |items| {
      ComesOnce(items, branch + 1, excludeFirst, a, b);
    }
  }

  /** An optimal search over bits returns the best feasible set that its list puts first. */
  lemma SolveBitsFirst(p: Instance, bits: seq<AggregatedBit>, maxOperations: int, bound: Value, excludeFirst: bool,
                       other: set<AggregatedBit>)
    requires Distinct(bits) && Elements(bits) == p.bits && Majority(p, p.votes)
    ensures var sol := SolveBits(p, bits, maxOperations, bound, excludeFirst);
            sol.optimal && FeasibleBits(p, other) && ValueOfBits(p, other) == sol.value
            ==> Comes(bits, 0, excludeFirst, sol.bits, other)
  {
    var info := BitsInfo(p, bits, maxOperations, excludeFirst);
    assert From(bits, 0) == p.bits by { assert bits[0..] == bits; }
    BranchFirstBits(info, p.assumedWeight, Status(bound, 0), 0, p.votes, p.assumedFees);
    assert FeasibleBits(p, other) ==> B.Leaf(info, p.assumedWeight, 0, p.votes, other);
  }

  /** An optimal search over votes returns the best coalition that its list puts first. */
  lemma SolveVotesFirst(p: Instance, votes: seq<AggregatedVote>, maxOperations: int, bound: Value, excludeFirst: bool,
                        other: set<AggregatedVote>)
    requires Distinct(votes) && Elements(votes) == p.votes && Majority(p, p.votes)
    ensures var sol := SolveVotes(p, votes, maxOperations, bound, excludeFirst);
            sol.optimal && FeasibleVotes(p, other) && ValueOfVotes(p, other) == sol.value
            ==> Comes(votes, 0, excludeFirst, sol.votes, other)
  {
    var info := VotesInfo(p, votes, maxOperations, excludeFirst);
    assert From(votes, 0) == p.votes by { assert votes[0..] == votes; }
    BranchFirstVotes(info, p.assumedFees, Status(bound, 0), 0, p.bits, p.assumedWeight);
    assert FeasibleVotes(p, other) ==> V.Leaf(info, 0, p.assumedWeight, other);
  }
}
