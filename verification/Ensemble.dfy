/** The consensus bit vote: filter, aggregate, search by two dual methods, assemble. */
module Ensemble {
  import opened Sorting
  import opened Sums
  import opened Values
  import opened Instances
  import opened Ballots
  import opened Filtering
  import opened Aggregation
  import opened Solver
  import opened Descent
  import opened TieBreaks
  import opened Reduction
  import opened FilterMethods
  import opened AggregateMethods
  import opened BranchAndBound

  // ---------------------------------------------------------------- the answer, independent of enumeration order

  /** Try the search over the shorter list first; unless it is optimal, let the other one try to beat it. */
  ghost function Solve(p: Instance, maxOperations: int): Solution
  {
    if |p.votes| < |p.bits| then
      var s := SolveVotesDouble(p, maxOperations, ZERO);
      Pick(s, SolveBitsDouble(p, maxOperations, s.value))
    else
      var s := SolveBitsDouble(p, maxOperations, ZERO);
      Pick(s, SolveVotesDouble(p, maxOperations, s.value))
  }

  ghost function InstanceOf(votes: seq<WeightedBitVote>, fees: seq<nat>, total: nat): Instance
  {
    FilterPartitions(votes, fees, total);
    Reduced(votes, fees, total, FilterResult(votes, fees, total))
  }

  /** The chosen solution, or nothing if the votes left after filtering weigh at most half. */
  ghost function Chosen(votes: seq<WeightedBitVote>, fees: seq<nat>, total: nat, maxOperations: int): Option<Solution>
  {
    var p := InstanceOf(votes, fees, total);
    if Majority(p, p.votes) then Some(Solve(p, maxOperations)) else None
  }

  /** The confirmed positions. */
  ghost function Consensus(votes: seq<WeightedBitVote>, fees: seq<nat>, total: nat, maxOperations: int): Option<set<nat>>
  {
    var sol := Chosen(votes, fees, total, maxOperations);
    if sol.None? then None else Some(Assembled(FilterResult(votes, fees, total), sol.value.bits))
  }

  // ---------------------------------------------------------------- theorems

  /** What holds of the first solution and of one that tries to beat it holds of the pick. */
  lemma PickGuaranteed(p: Instance, s: Solution, t: Solution)
    requires Sound(p, s) && Honest(p, s) && FallsBackOrBeats(p, ZERO, s)
    requires Sound(p, t) && Honest(p, t) && FallsBackOrBeats(p, s.value, t)
    ensures var sol := Pick(s, t); Sound(p, sol) && Honest(p, sol) && FallsBackOrBeats(p, ZERO, sol)
  {
  }

  lemma SolveGuaranteed(p: Instance, maxOperations: int)
    requires ProperGroups(p) && Majority(p, p.votes)
    ensures var sol := Solve(p, maxOperations);
            Sound(p, sol) && Honest(p, sol) && FallsBackOrBeats(p, ZERO, sol)
  {
    if |p.votes| < |p.bits| {
      var s := SolveVotesDouble(p, maxOperations, ZERO);
      VotesDoubleGuaranteed(p, maxOperations, ZERO);
      BitsDoubleGuaranteed(p, maxOperations, s.value);
      PickGuaranteed(p, s, SolveBitsDouble(p, maxOperations, s.value));
    } else {
      var s := SolveBitsDouble(p, maxOperations, ZERO);
      BitsDoubleGuaranteed(p, maxOperations, ZERO);
      VotesDoubleGuaranteed(p, maxOperations, s.value);
      PickGuaranteed(p, s, SolveVotesDouble(p, maxOperations, s.value));
    }
  }

  /** Exactly when the chosen solution reports its true value: no fees are guaranteed, or one of the four searches has the
      budget to finish its first path. */
  lemma SolveTruthful(p: Instance, maxOperations: int)
    requires ProperGroups(p) && Majority(p, p.votes)
    ensures Truthful(p, Solve(p, maxOperations)) <==> p.assumedFees == 0 || SomethingFits(p, maxOperations)
  {
    SolveGuaranteed(p, maxOperations);
    FallbackTruthful(p);
    if p.assumedFees > 0 {
      SolveFound(p, maxOperations);
    }
  }

  /** The empty selection is worth something exactly if fees are guaranteed. */
  lemma FallbackTruthful(p: Instance)
    requires Majority(p, p.votes)
    ensures Truthful(p, Fallback(p.votes)) <==> p.assumedFees == 0
  {
    assert Supporters(p.votes, {}) == p.votes;
    NoFeeNoValue(p.assumedWeight + Weight(p.votes), p.total);
    if p.assumedFees > 0 {
      PositiveValue(p.assumedFees, p.assumedWeight + Weight(p.votes), p.total);
    }
  }

  /** A pick falls back exactly if both do. */
  lemma PickFallsBack(p: Instance, s: Solution, t: Solution)
    requires FallsBackOrBeats(p, ZERO, s) && (s == Fallback(p.votes) ==> FallsBackOrBeats(p, ZERO, t))
    ensures Pick(s, t) == Fallback(p.votes) <==> s == Fallback(p.votes) == t
  {
  }

  lemma SolveFound(p: Instance, maxOperations: int)
    requires ProperGroups(p) && Majority(p, p.votes) && p.assumedFees > 0
    ensures Solve(p, maxOperations) == Fallback(p.votes) <==> !SomethingFits(p, maxOperations)
  {
    var b := SolveBitsDouble(p, maxOperations, ZERO);
    var v := SolveVotesDouble(p, maxOperations, ZERO);
    BitsDoubleFound(p, maxOperations);
    VotesDoubleFound(p, maxOperations);
    BitsDoubleGuaranteed(p, maxOperations, ZERO);
    VotesDoubleGuaranteed(p, maxOperations, ZERO);
    if |p.votes| < |p.bits| {
      PickFallsBack(p, v, SolveBitsDouble(p, maxOperations, v.value));
    } else {
      PickFallsBack(p, b, SolveVotesDouble(p, maxOperations, b.value));
    }
  }

  /** Ties between sets of bits. If there are no more groups of bits than of votes, the first search is over bits with the most
      valuable in front; if it completes, its answer is chosen, and of all sets of that value it is the one the list puts
      first. */
  lemma BitTies(p: Instance, maxOperations: int, other: set<AggregatedBit>)
    requires ProperGroups(p) && Majority(p, p.votes) && |p.bits| <= |p.votes|
    ensures var first := SolveBits(p, BitList(p, false), maxOperations, ZERO, false);
            first.optimal ==>
              && Solve(p, maxOperations) == first
              && (FeasibleBits(p, other) && ValueOfBits(p, other) == first.value
                  ==> Comes(BitList(p, false), 0, false, first.bits, other))
  {
    BitsListed(p, false);
    SolveBitsFirst(p, BitList(p, false), maxOperations, ZERO, false, other);
  }

  /** Ties between coalitions, if there are fewer groups of votes: the answer is what the first best coalition agrees on. */
  lemma VoteTies(p: Instance, maxOperations: int, other: set<AggregatedVote>)
    requires ProperGroups(p) && Majority(p, p.votes) && |p.votes| < |p.bits|
    ensures var first := SolveVotes(p, VoteList(p, false), maxOperations, ZERO, false);
            first.optimal ==>
              && Solve(p, maxOperations) == first && first.bits == Common(p.bits, first.votes)
              && (FeasibleVotes(p, other) && ValueOfVotes(p, other) == first.value
                  ==> Comes(VoteList(p, false), 0, false, first.votes, other))
  {
    VotesListed(p, false);
    RunVotesMajority(p, VoteList(p, false), maxOperations, ZERO, false);
    SolveVotesFirst(p, VoteList(p, false), maxOperations, ZERO, false, other);
  }

  /** What the theorems below need to know about filtering, so that none of them unfolds it. */
  lemma Unfolded(votes: seq<WeightedBitVote>, fees: seq<nat>, total: nat, maxOperations: int)
    returns (f: Filtered, p: Instance)
    requires Positive(votes)
    ensures Filtration(votes, fees, total, f) && p == Reduced(votes, fees, total, f) && ProperGroups(p)
    ensures f == FilterResult(votes, fees, total) && p == InstanceOf(votes, fees, total)
    ensures var sol := Chosen(votes, fees, total, maxOperations);
            var c := Consensus(votes, fees, total, maxOperations);
            if Majority(p, p.votes) then
              sol == Some(Solve(p, maxOperations)) && c == Some(Assembled(f, sol.value.bits))
            else sol.None? && c.None?
  {
    f := FilterResult(votes, fees, total);
    FilterIsFiltration(votes, fees, total);
    p := InstanceOf(votes, fees, total);
    ReducedIsProper(votes, fees, total, f);
  }

  /** Exact failure condition: there is no consensus exactly when at most half of the weight submitted a vote, although
      the weight is checked only after all-zero votes were dropped. */
  lemma FailsExactlyWithoutQuorum(votes: seq<WeightedBitVote>, fees: seq<nat>, total: nat, maxOperations: int)
    requires Positive(votes)
    ensures Consensus(votes, fees, total, maxOperations).None? <==> 2 * Submitted(votes) <= total
  {
    var f, p := Unfolded(votes, fees, total, maxOperations);
    WeightVoted(votes, fees, total, f);
  }

  /** An assembled feasible selection is confirmed jointly by a strict majority. */
  lemma AssembledConfirmable(votes: seq<WeightedBitVote>, fees: seq<nat>, total: nat, f: Filtered,
                             bits: set<AggregatedBit>)
    requires Filtration(votes, fees, total, f)
    requires var p := Reduced(votes, fees, total, f); FeasibleBits(p, bits) && Majority(p, p.votes)
    ensures Confirmable(votes, fees, total, Assembled(f, bits))
  {
    FeesOfAssembled(votes, fees, total, f, bits);
    if Assembled(f, bits) != {} {
      WeightOfAssembled(votes, fees, total, f, bits);
    } else {
      EveryoneBacksNothing(votes, fees, total, f);
    }
  }

  lemma EveryoneBacksNothing(votes: seq<WeightedBitVote>, fees: seq<nat>, total: nat, f: Filtered)
    requires Filtration(votes, fees, total, f)
    requires var p := Reduced(votes, fees, total, f); Majority(p, p.votes)
    ensures 2 * WeightOf(votes, Backers(votes, {})) > total
  {
    WeightVoted(votes, fees, total, f);
    assert Backers(votes, {}) == Indices(|votes|);
  }

  /** Joint strict majority: however the search ended, the voters that confirm every attestation of the consensus
      together hold more than half of the total weight. */
  lemma JointMajority(votes: seq<WeightedBitVote>, fees: seq<nat>, total: nat, maxOperations: int)
    requires Positive(votes)
    ensures var c := Consensus(votes, fees, total, maxOperations);
            c.Some? ==> Confirmable(votes, fees, total, c.value)
  {
    var f, p := Unfolded(votes, fees, total, maxOperations);
    if Majority(p, p.votes) {
      SolveGuaranteed(p, maxOperations);
      SoundFeasible(p, Solve(p, maxOperations));
      AssembledConfirmable(votes, fees, total, f, Solve(p, maxOperations).bits);
    }
  }

  /** An optimal solution of the reduced instance assembles to the best confirmable set of the original problem. */
  lemma AssembledOptimal(votes: seq<WeightedBitVote>, fees: seq<nat>, total: nat, f: Filtered, sol: Solution,
                         a: set<nat>)
    requires Filtration(votes, fees, total, f) && Confirmable(votes, fees, total, a)
    ensures var p := Reduced(votes, fees, total, f);
            sol.bits <= p.bits && Honest(p, sol) && sol.optimal && Majority(p, p.votes) ==>
              && TrueValue(votes, fees, total, Assembled(f, sol.bits)) == sol.value
              && !Less(TrueValue(votes, fees, total, Assembled(f, sol.bits)), TrueValue(votes, fees, total, a))
  {
    var p := Reduced(votes, fees, total, f);
    if sol.bits <= p.bits && Honest(p, sol) && sol.optimal && Majority(p, p.votes) {
      var bits := NothingLost(votes, fees, total, f, a);
      ValuePreserved(votes, fees, total, f, sol.bits);
    }
  }

  /** End-to-end optimality: when the chosen solution is flagged optimal, no set of attestations that a strict majority
      jointly confirms is worth more, and the reported value is the true one. */
  lemma OptimalConsensus(votes: seq<WeightedBitVote>, fees: seq<nat>, total: nat, maxOperations: int, a: set<nat>)
    requires Positive(votes) && Confirmable(votes, fees, total, a)
    ensures var sol := Chosen(votes, fees, total, maxOperations);
            var c := Consensus(votes, fees, total, maxOperations);
            sol.Some? && sol.value.optimal ==>
              && TrueValue(votes, fees, total, c.value) == sol.value.value
              && !Less(TrueValue(votes, fees, total, c.value), TrueValue(votes, fees, total, a))
  {
    var f, p := Unfolded(votes, fees, total, maxOperations);
    if Majority(p, p.votes) && Solve(p, maxOperations).optimal {
      SolveGuaranteed(p, maxOperations);
      AssembledOptimal(votes, fees, total, f, Solve(p, maxOperations), a);
    }
  }

  /** What the value means for the result, in fees and weights alone. A set that at least four fifths of the total weight
      confirm does not pay more than the consensus; and if it pays the same, it is not confirmed by more weight. */
  lemma FourFifthsWin(votes: seq<WeightedBitVote>, fees: seq<nat>, total: nat, maxOperations: int, a: set<nat>)
    requires Positive(votes) && total > 0 && a <= Indices(|fees|)
    requires 5 * WeightOf(votes, Backers(votes, a)) >= 4 * total
    ensures var sol := Chosen(votes, fees, total, maxOperations);
            var c := Consensus(votes, fees, total, maxOperations);
            sol.Some? && sol.value.optimal ==>
              && FeeOf(fees, a) <= FeeOf(fees, c.value)
              && (0 < FeeOf(fees, a) == FeeOf(fees, c.value)
                  ==> WeightOf(votes, Backers(votes, a)) <= WeightOf(votes, Backers(votes, c.value)))
  {
    OptimalConsensus(votes, fees, total, maxOperations, a);
    var c := Consensus(votes, fees, total, maxOperations);
    if c.Some? {
      FourFifthsAreWorth(FeeOf(fees, a), WeightOf(votes, Backers(votes, a)), FeeOf(fees, c.value),
                         WeightOf(votes, Backers(votes, c.value)), total);
    }
  }

  /** The reported value never overstates what the assembled consensus is worth, and it is exactly that unless fees are
      guaranteed and the budget is too small for every first path of the searches. */
  lemma ReportedExactly(votes: seq<WeightedBitVote>, fees: seq<nat>, total: nat, maxOperations: int)
    requires Positive(votes)
    ensures var p := InstanceOf(votes, fees, total);
            var sol := Chosen(votes, fees, total, maxOperations);
            var c := Consensus(votes, fees, total, maxOperations);
            sol.Some? ==>
              && !Less(TrueValue(votes, fees, total, c.value), sol.value.value)
              && (TrueValue(votes, fees, total, c.value) == sol.value.value
                  <==> p.assumedFees == 0 || SomethingFits(p, maxOperations))
  {
    var f, p := Unfolded(votes, fees, total, maxOperations);
    if Majority(p, p.votes) {
      SolveGuaranteed(p, maxOperations);
      SolveTruthful(p, maxOperations);
      ValuePreserved(votes, fees, total, f, Solve(p, maxOperations).bits);
    }
  }

  /** Twice as many operations as attestations are enough for the reported value to be the true one, optimal or not. */
  lemma ReportedIsTrue(votes: seq<WeightedBitVote>, fees: seq<nat>, total: nat, maxOperations: int)
    requires Positive(votes) && 2 * |fees| <= maxOperations
    ensures var sol := Chosen(votes, fees, total, maxOperations);
            var c := Consensus(votes, fees, total, maxOperations);
            sol.Some? ==> TrueValue(votes, fees, total, c.value) == sol.value.value
  {
    var f, p := Unfolded(votes, fees, total, maxOperations);
    FewGroups(votes, fees, total, f);
    BudgetThatFits(p, maxOperations);
    ReportedExactly(votes, fees, total, maxOperations);
  }

  /** With an ample budget the chosen solution is flagged optimal, unless no selection is worth anything. */
  lemma AmpleSolve(p: Instance, maxOperations: int)
    requires ProperGroups(p) && Majority(p, p.votes) && AmpleBudget(p, maxOperations)
    ensures Solve(p, maxOperations).optimal || BoundsBits(p, ZERO)
  {
    AmpleBitsDouble(p, maxOperations, ZERO);
    AmpleVotesDouble(p, maxOperations, ZERO);
  }

  /** A confirmable set needs a quorum. */
  lemma ConfirmableHasQuorum(votes: seq<WeightedBitVote>, fees: seq<nat>, total: nat, f: Filtered, a: set<nat>)
    requires Filtration(votes, fees, total, f) && Confirmable(votes, fees, total, a)
    ensures var p := Reduced(votes, fees, total, f); Majority(p, p.votes)
  {
    WeightOfSubset(votes, Backers(votes, a), Indices(|votes|));
    WeightVoted(votes, fees, total, f);
  }

  /** If no selection is worth anything, no confirmable set is. */
  lemma NothingToGain(votes: seq<WeightedBitVote>, fees: seq<nat>, total: nat, f: Filtered, a: set<nat>)
    requires Filtration(votes, fees, total, f) && Confirmable(votes, fees, total, a)
    requires var p := Reduced(votes, fees, total, f); Majority(p, p.votes) && BoundsBits(p, ZERO)
    ensures TrueValue(votes, fees, total, a) == ZERO
  {
    var bits := NothingLost(votes, fees, total, f, a);
  }

  lemma AmpleAssembled(votes: seq<WeightedBitVote>, fees: seq<nat>, total: nat, f: Filtered, sol: Solution, a: set<nat>)
    requires Filtration(votes, fees, total, f) && Confirmable(votes, fees, total, a)
    requires var p := Reduced(votes, fees, total, f);
             sol.bits <= p.bits && Honest(p, sol) && Majority(p, p.votes) && (sol.optimal || BoundsBits(p, ZERO))
    ensures !Less(TrueValue(votes, fees, total, Assembled(f, sol.bits)), TrueValue(votes, fees, total, a))
  {
    if sol.optimal {
      AssembledOptimal(votes, fees, total, f, sol, a);
    } else {
      NothingToGain(votes, fees, total, f, a);
    }
  }

  /** Unconditional optimality: if the budget exceeds the cost of the whole search trees, the consensus exists and is worth
      at least as much as every confirmable set, whether or not it is flagged optimal. */
  lemma AmpleBudgetIsOptimal(votes: seq<WeightedBitVote>, fees: seq<nat>, total: nat, maxOperations: int, a: set<nat>)
    requires Positive(votes) && Confirmable(votes, fees, total, a)
    ensures var c := Consensus(votes, fees, total, maxOperations);
            AmpleBudget(InstanceOf(votes, fees, total), maxOperations) ==>
              c.Some? && !Less(TrueValue(votes, fees, total, c.value), TrueValue(votes, fees, total, a))
  {
    var f, p := Unfolded(votes, fees, total, maxOperations);
    ConfirmableHasQuorum(votes, fees, total, f, a);
    if AmpleBudget(p, maxOperations) {
      AmpleSolve(p, maxOperations);
      SolveGuaranteed(p, maxOperations);
      AmpleAssembled(votes, fees, total, f, Solve(p, maxOperations), a);
    }
  }

  /** If one confirmable set is worth more than all others, an ample budget finds it. */
  lemma UniqueBest(votes: seq<WeightedBitVote>, fees: seq<nat>, total: nat, maxOperations: int, best: set<nat>)
    requires Positive(votes) && Confirmable(votes, fees, total, best)
    ensures AmpleBudget(InstanceOf(votes, fees, total), maxOperations)
            && (forall a :: Confirmable(votes, fees, total, a) && a != best
                            ==> Less(TrueValue(votes, fees, total, a), TrueValue(votes, fees, total, best)))
            ==> Consensus(votes, fees, total, maxOperations) == Some(best)
  {
    AmpleBudgetIsOptimal(votes, fees, total, maxOperations, best);
    JointMajority(votes, fees, total, maxOperations);
  }

  // ---------------------------------------------------------------- the pipeline as written

  method WeightAfterFiltering(guaranteedWeight: nat, groups: seq<AggregatedVote>) returns (weightVoted: nat)
    requires Distinct(groups) && guaranteedWeight + Weight(Elements(groups)) <= MAX_UINT16
    ensures weightVoted == guaranteedWeight + Weight(Elements(groups))
  {
    weightVoted := guaranteedWeight;
    for i := 0 to |groups|
      invariant weightVoted == guaranteedWeight + Weight(Elements(groups[..i]))
    {
      ElementsStep(groups, i);
      WeightAdd(Elements(groups[..i]), groups[i]);
      assert Elements(groups[..i + 1]) <= Elements(groups);
      WeightSubset(Elements(groups[..i + 1]), Elements(groups));
      weightVoted := Add16(weightVoted, groups[i].weight);
    }
    assert groups[..|groups|] == groups;
  }

  lemma InstanceFits(votes: seq<WeightedBitVote>, fees: seq<nat>, total: nat, f: Filtered)
    requires Partitioned(votes, fees, f)
    ensures var p := Reduced(votes, fees, total, f);
            p.assumedWeight + Weight(p.votes) <= Submitted(votes)
    ensures WeightOf(votes, f.inVotes) + WeightOf(votes, f.remVotes) <= Submitted(votes)
  {
    WeightRemaining(votes, fees, total, f);
    SumUnion(f.inVotes, f.remVotes, WeightAt(votes));
    WeightOfSubset(votes, f.inVotes + f.remVotes, Indices(|votes|));
  }

  /** Filtering and aggregation: the lists hold exactly the groups of the reduced instance. */
  method FilterAndAggregate(bitVotes: seq<WeightedBitVote>, fees: seq<nat>, totalWeight: nat)
    returns (votes: seq<AggregatedVote>, bits: seq<AggregatedBit>, results: FilterResults)
    requires Submitted(bitVotes) <= MAX_UINT16
    ensures fresh(results) && results.View() == FilterResult(bitVotes, fees, totalWeight)
    ensures Distinct(votes) && Distinct(bits)
    ensures InstanceOf(bitVotes, fees, totalWeight)
            == Instance(Elements(votes), Elements(bits), results.guaranteedWeight, results.guaranteedFees, totalWeight)
  {
    results := Filter(bitVotes, fees, totalWeight);
    FilterPartitions(bitVotes, fees, totalWeight);
    InstanceFits(bitVotes, fees, totalWeight, results.View());
    votes := AggregateVotes(bitVotes, fees, results.remainingBits, results.remainingVotes, results.guaranteedFees);
    bits := AggregateBits(bitVotes, fees, results.remainingBits, results.remainingVotes, results.guaranteedWeight);
  }

  /** Two methods, the one with the shorter list first. */
  method RunMethods(votes: seq<AggregatedVote>, bits: seq<AggregatedBit>, assumedWeight: nat, weightVoted: nat,
                    total: nat, assumedFees: nat, maxOperations: int, ghost p: Instance) returns (solution: Solution)
    requires Distinct(bits) && Distinct(votes) && weightVoted == assumedWeight + Weight(Elements(votes))
    requires weightVoted <= MAX_UINT16
    requires p == Instance(Elements(votes), Elements(bits), assumedWeight, assumedFees, total) && ProperGroups(p)
    ensures solution == Solve(p, maxOperations)
  {
    DistinctSize(votes);
    DistinctSize(bits);
    var votesFirst := |votes| < |bits|;
    if votesFirst {
      solution := BranchAndBoundVotesDouble(votes, bits, assumedWeight, weightVoted, total, assumedFees,
                                            maxOperations, ZERO, p);
    } else {
      solution := BranchAndBoundBitsDouble(votes, bits, assumedWeight, weightVoted, total, assumedFees,
                                           maxOperations, ZERO, p);
    }
    if !solution.optimal {
      var solution2: Solution;
      if votesFirst {
        solution2 := BranchAndBoundBitsDouble(votes, bits, assumedWeight, weightVoted, total, assumedFees,
                                              maxOperations, solution.value, p);
      } else {
        solution2 := BranchAndBoundVotesDouble(votes, bits, assumedWeight, weightVoted, total, assumedFees,
                                               maxOperations, solution.value, p);
      }
      if Cmp(solution2.value, solution.value) == 1 {
        solution := solution2;
      }
    }
  }

  method RunEnsemble(allBitVotes: seq<WeightedBitVote>, fees: seq<nat>, totalWeight: nat, maxOperations: int)
    returns (results: FilterResults, solution: Option<Solution>)
    requires Submitted(allBitVotes) <= MAX_UINT16
    ensures fresh(results) && results.View() == FilterResult(allBitVotes, fees, totalWeight)
    ensures solution == Chosen(allBitVotes, fees, totalWeight, maxOperations)
  {
    var votes, bits;
    votes, bits, results := FilterAndAggregate(allBitVotes, fees, totalWeight);
    FilterPartitions(allBitVotes, fees, totalWeight);
    InstanceFits(allBitVotes, fees, totalWeight, results.View());
    ReducedIsProper(allBitVotes, fees, totalWeight, results.View());
    var weightVoted := WeightAfterFiltering(results.guaranteedWeight, votes);
    if weightVoted <= totalWeight / 2 {
      return results, None;
    }
    var s := RunMethods(votes, bits, results.guaranteedWeight, weightVoted, totalWeight, results.guaranteedFees,
                        maxOperations, InstanceOf(allBitVotes, fees, totalWeight));
    solution := Some(s);
  }

  /** Sets the bits that are always in and every position of every chosen group. */
  method AssembleSolution(alwaysInBits: seq<nat>, bits: set<AggregatedBit>, numOfAttestations: nat)
    returns (r: BitVote)
    ensures r == BitVote(numOfAttestations, Elements(alwaysInBits) + Positions(bits))
  {
    var vector: set<nat> := {};
    for n := 0 to |alwaysInBits|
      invariant vector == Elements(alwaysInBits[..n])
    {
      ElementsStep(alwaysInBits, n);
      vector := vector + {alwaysInBits[n]};
    }
    assert alwaysInBits[..|alwaysInBits|] == alwaysInBits;
    var todo := bits;
    while todo != {}
      invariant todo <= bits && vector == Elements(alwaysInBits) + Positions(bits - todo)
      decreases todo
    {
      var b :| b in todo;
      ghost var before := vector;
      for n := 0 to |b.indexes|
        invariant vector == before + Elements(b.indexes[..n])
      {
        ElementsStep(b.indexes, n);
        vector := vector + {b.indexes[n]};
      }
      assert b.indexes[..|b.indexes|] == b.indexes;
      PositionsStep(bits, todo, b);
      todo := todo - {b};
    }
    assert bits - todo == bits;
    r := BitVote(numOfAttestations, vector);
  }

  lemma PositionsStep(bits: set<AggregatedBit>, todo: set<AggregatedBit>, b: AggregatedBit)
    requires todo <= bits && b in todo
    ensures Positions(bits - (todo - {b})) == Positions(bits - todo) + Elements(b.indexes)
  {
    assert bits - (todo - {b}) == (bits - todo) + {b};
    forall i | i in Elements(b.indexes) ensures i in Positions(bits - (todo - {b})) {
      assert i in BitMembers()(b);
    }
    forall i | i in Positions(bits - todo) ensures i in Positions(bits - (todo - {b})) {
      var c :| c in bits - todo && i in BitMembers()(c);
      assert c in bits - (todo - {b});
    }
  }

  /** The consensus bit vote is a function of votes, fees, total weight and budget: no map order, no interleaving and no
      order of groups can change it. Its length field is truncated to 16 bits. */
  method EnsembleConsensusBitVote(allBitVotes: seq<WeightedBitVote>, fees: seq<nat>, totalWeight: nat,
                                  maxOperations: int) returns (r: Option<BitVote>)
    requires Submitted(allBitVotes) <= MAX_UINT16
    ensures var c := Consensus(allBitVotes, fees, totalWeight, maxOperations);
            r == if c.None? then None else Some(BitVote(|fees| % 65536, c.value))
  {
    var results, solution := RunEnsemble(allBitVotes, fees, totalWeight, maxOperations);
    if solution.None? {
      return None;
    }
    var bitVote := AssembleSolution(results.alwaysInBits, solution.value.bits, |fees| % (MAX_UINT16 + 1));
    r := Some(bitVote);
  }
}
