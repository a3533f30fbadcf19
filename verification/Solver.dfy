/** The two branch and bound strategies, each run in two exploration orders. */
module Solver {
  import opened Sorting
  import opened Sums
  import opened Values
  import opened Instances
  import opened Search
  import BitsSearch
  import VotesSearch

  /** If `optimal` is false the solution may still be optimal. */
  datatype Solution = Solution(votes: set<AggregatedVote>, bits: set<AggregatedBit>, value: Value, optimal: bool)

  ghost function ValueOfPair(p: Instance, votes: set<AggregatedVote>, bits: set<AggregatedBit>): Value
  {
    CalcValue(p.assumedFees + Fees(bits), p.assumedWeight + Weight(votes), p.total)
  }

  // ---------------------------------------------------------------- what each search returns

  function BitsInfo(p: Instance, bits: seq<AggregatedBit>, maxOperations: int, excludeFirst: bool)
    : ProcessInfo<AggregatedBit>
  {
    ProcessInfo(p.total, p.total / 2, bits, maxOperations, excludeFirst)
  }

  function VotesInfo(p: Instance, votes: seq<AggregatedVote>, maxOperations: int, excludeFirst: bool)
    : ProcessInfo<AggregatedVote>
  {
    ProcessInfo(p.total, p.total / 2, votes, maxOperations, excludeFirst)
  }

  ghost function RunBits(p: Instance, bits: seq<AggregatedBit>, maxOperations: int, bound: Value, excludeFirst: bool)
    : (Option<Partial>, Status)
  {
    BitsSearch.Branch(BitsInfo(p, bits, maxOperations, excludeFirst), p.assumedWeight, Status(bound, 0), 0,
                      p.votes, p.assumedFees)
  }

  ghost function RunVotes(p: Instance, votes: seq<AggregatedVote>, maxOperations: int, bound: Value,
                          excludeFirst: bool): (Option<Partial>, Status)
  {
    VotesSearch.Branch(VotesInfo(p, votes, maxOperations, excludeFirst), p.assumedFees, Status(bound, 0), 0,
                       p.bits, p.assumedWeight)
  }

  ghost function MaximizedBits(p: Instance, s: Partial): Partial
  {
    var bits := s.bits + Common(p.bits, s.votes);
    Partial(s.votes, bits, ValueOfPair(p, s.votes, bits))
  }

  ghost function MaximizedVotes(p: Instance, s: Partial): Partial
  {
    var votes := s.votes + Supporters(p.votes, s.bits);
    Partial(votes, s.bits, ValueOfPair(p, votes, s.bits))
  }

  /** The empty fallback reports value zero even when fees are already guaranteed. */
  function Fallback(votes: set<AggregatedVote>): Solution { Solution(votes, {}, ZERO, false) }

  ghost function SolveBits(p: Instance, bits: seq<AggregatedBit>, maxOperations: int, bound: Value,
                           excludeFirst: bool): Solution
  {
    var r := RunBits(p, bits, maxOperations, bound, excludeFirst);
    if r.0.None? then Fallback(p.votes)
    else
      var optimal := r.1.ops < maxOperations;
      var s := if optimal then r.0.value else MaximizedBits(p, r.0.value);
      Solution(s.votes, s.bits, s.value, optimal)
  }

  ghost function SolveVotes(p: Instance, votes: seq<AggregatedVote>, maxOperations: int, bound: Value,
                            excludeFirst: bool): Solution
  {
    var r := RunVotes(p, votes, maxOperations, bound, excludeFirst);
    if r.0.None? then Fallback(p.votes)
    else
      var optimal := r.1.ops < maxOperations;
      var s := if optimal then r.0.value else MaximizedVotes(p, r.0.value);
      Solution(s.votes, s.bits, s.value, optimal)
  }

  // ---------------------------------------------------------------- guarantees

  /** One majority of voters stands behind every bit, and the reported value is not overstated. */
  ghost predicate Sound(p: Instance, sol: Solution)
  {
    && sol.bits <= p.bits
    && sol.votes <= Supporters(p.votes, sol.bits)
    && Majority(p, sol.votes)
    && !Less(ValueOfBits(p, sol.bits), sol.value)
  }

  /** A solution flagged optimal is the best there is, and its reported value is its true value. */
  ghost predicate Honest(p: Instance, sol: Solution)
  {
    sol.optimal ==> BoundsBits(p, sol.value) && sol.value == ValueOfBits(p, sol.bits)
  }

  /** The reported value is the true value. */
  ghost predicate Truthful(p: Instance, sol: Solution)
  {
    sol.value == ValueOfBits(p, sol.bits)
  }

  /** The fallback, or a solution above the bound that reports its true value. */
  ghost predicate FallsBackOrBeats(p: Instance, bound: Value, sol: Solution)
  {
    sol == Fallback(p.votes) || (Less(bound, sol.value) && Truthful(p, sol))
  }

  /** Guarantees of a search started from `bound`: it beats the bound with its true value or falls back, an incomplete
      result is a closed pair, and a complete search falls back exactly if nothing beats the bound. */
  ghost predicate Guaranteed(p: Instance, bound: Value, sol: Solution, run: (Option<Partial>, Status),
                             maxOperations: int)
  {
    && Sound(p, sol) && Honest(p, sol)
    && (run.0.None? ==> sol == Fallback(p.votes))
    && (run.0.Some? ==> Less(bound, sol.value) && Truthful(p, sol) && (sol.optimal <==> run.1.ops < maxOperations))
    && (run.0.Some? && !sol.optimal ==> Closed(p, sol.votes, sol.bits) && !Less(sol.value, run.0.value.value))
    && (run.1.ops < maxOperations ==> (run.0.None? <==> BoundsBits(p, bound)))
  }

  lemma FallbackSound(p: Instance)
    requires Majority(p, p.votes)
    ensures Sound(p, Fallback(p.votes)) && Honest(p, Fallback(p.votes))
  {
    assert Supporters(p.votes, {}) == p.votes;
  }

  /** Completing the bits of a leaf: the value does not drop, the voters are the same, the pair is closed. */
  lemma MaximizeBitsCloses(p: Instance, s: Partial)
    requires s.bits <= p.bits && s.votes == Supporters(p.votes, s.bits)
    requires s.value == ValueOfPair(p, s.votes, s.bits)
    ensures var m := MaximizedBits(p, s);
            && m.votes == s.votes && s.bits <= m.bits
            && Closed(p, m.votes, m.bits)
            && m.value == ValueOfBits(p, m.bits)
            && !Less(m.value, s.value)
  {
    var m := MaximizedBits(p, s);
    assert m.bits == Common(p.bits, s.votes);
    assert s.votes == Supporters(p.votes, m.bits);
    SumSubset(s.bits, m.bits, BitFee());
    CalcValueMono(p.assumedFees + Fees(s.bits), p.assumedWeight + Weight(s.votes),
                  p.assumedFees + Fees(m.bits), p.assumedWeight + Weight(m.votes), p.total);
  }

  /** Completing the votes of a leaf: the value does not drop, the bits are the same, the pair is closed. */
  lemma MaximizeVotesCloses(p: Instance, s: Partial)
    requires s.votes <= p.votes && s.bits == Common(p.bits, s.votes)
    requires s.value == ValueOfPair(p, s.votes, s.bits)
    ensures var m := MaximizedVotes(p, s);
            && m.bits == s.bits && s.votes <= m.votes
            && Closed(p, m.votes, m.bits)
            && m.value == ValueOfBits(p, m.bits)
            && !Less(m.value, s.value)
  {
    var m := MaximizedVotes(p, s);
    assert m.votes == Supporters(p.votes, s.bits);
    assert s.bits == Common(p.bits, m.votes);
    SumSubset(s.votes, m.votes, VoteWeight());
    CalcValueMono(p.assumedFees + Fees(s.bits), p.assumedWeight + Weight(s.votes),
                  p.assumedFees + Fees(m.bits), p.assumedWeight + Weight(m.votes), p.total);
  }

  /** Exact search under a budget, over bits: for either order and any bound, what is found is a candidate with its true
      value and beats the bound; if the operations stay below the budget it is the best candidate, and nothing is found
      exactly if no candidate beats the bound. With a majority behind the votes the candidates are the feasible sets. */
  lemma RunBitsExact(p: Instance, bits: seq<AggregatedBit>, maxOperations: int, bound: Value, excludeFirst: bool)
    requires Distinct(bits) && Elements(bits) == p.bits
    ensures var r := RunBits(p, bits, maxOperations, bound, excludeFirst);
            && (r.0.None? ==> r.1.bound == bound)
            && (r.0.Some? ==>
                  var s := r.0.value;
                  && Less(bound, s.value) && s.value == r.1.bound == ValueOfBits(p, s.bits)
                  && CandidateBits(p, s.bits) && s.votes == Supporters(p.votes, s.bits))
            && (r.1.ops < maxOperations ==>
                  BoundsCandidateBits(p, r.1.bound) && (r.0.None? <==> BoundsCandidateBits(p, bound)))
  {
    if Majority(p, p.votes) {
      RunBitsMajority(p, bits, maxOperations, bound, excludeFirst);
      CandidatesAreFeasible(p, RunBits(p, bits, maxOperations, bound, excludeFirst).1.bound);
    } else {
      RunBitsLonely(p, bits, maxOperations, bound, excludeFirst);
    }
  }

  lemma RunBitsMajority(p: Instance, bits: seq<AggregatedBit>, maxOperations: int, bound: Value, excludeFirst: bool)
    requires Distinct(bits) && Elements(bits) == p.bits && Majority(p, p.votes)
    ensures var r := RunBits(p, bits, maxOperations, bound, excludeFirst);
            && (r.0.None? ==> r.1.bound == bound)
            && (r.0.Some? ==>
                  var s := r.0.value;
                  && Less(bound, s.value) && s.value == r.1.bound == ValueOfBits(p, s.bits)
                  && FeasibleBits(p, s.bits) && s.votes == Supporters(p.votes, s.bits))
            && (r.1.ops < maxOperations ==> BoundsBits(p, r.1.bound))
  {
    var info := BitsInfo(p, bits, maxOperations, excludeFirst);
    var run := RunBits(p, bits, maxOperations, bound, excludeFirst);
    BitsSearch.BranchExact(info, p.assumedWeight, Status(bound, 0), 0, p.votes, p.assumedFees);
    assert From(bits, 0) == p.bits by { assert bits[0..] == bits; }
    if run.1.ops < maxOperations {
      BoundAtRootBits(p, info, run.1.bound);
    }
  }

  lemma RunBitsLonely(p: Instance, bits: seq<AggregatedBit>, maxOperations: int, bound: Value, excludeFirst: bool)
    requires !Majority(p, p.votes)
    ensures var r := RunBits(p, bits, maxOperations, bound, excludeFirst);
            && (r.0.None? ==> r.1.bound == bound)
            && (r.0.Some? ==>
                  var s := r.0.value;
                  && Less(bound, s.value) && s.value == r.1.bound == ValueOfBits(p, s.bits)
                  && CandidateBits(p, s.bits) && s.votes == Supporters(p.votes, s.bits))
            && (r.1.ops < maxOperations ==>
                  BoundsCandidateBits(p, r.1.bound) && (r.0.None? <==> BoundsCandidateBits(p, bound)))
  {
    assert Supporters(p.votes, {}) == p.votes;
    BitsSearch.BranchLonely(BitsInfo(p, bits, maxOperations, excludeFirst), p.assumedWeight, Status(bound, 0), 0, p.votes,
                            p.assumedFees);
    forall b ensures CandidateBits(p, b) <==> b == {} {
      LonelyCandidates(p, b, p.votes);
    }
  }

  lemma BoundAtRootBits(p: Instance, info: ProcessInfo<AggregatedBit>, bound: Value)
    requires info.totalWeight == p.total && From(info.items, 0) == p.bits
    requires BitsSearch.Bounded(info, p.assumedWeight, 0, p.votes, p.assumedFees, bound)
    ensures BoundsBits(p, bound)
  {
    forall b | FeasibleBits(p, b) ensures !Less(bound, ValueOfBits(p, b)) {
      assert BitsSearch.Leaf(info, p.assumedWeight, 0, p.votes, b);
    }
  }

  lemma BoundAtRootVotes(p: Instance, info: ProcessInfo<AggregatedVote>, bound: Value)
    requires info.totalWeight == p.total && From(info.items, 0) == p.votes
    requires VotesSearch.Bounded(info, p.assumedFees, 0, p.bits, p.assumedWeight, bound)
    ensures BoundsVotes(p, bound)
  {
    forall v | FeasibleVotes(p, v) ensures !Less(bound, ValueOfVotes(p, v)) {
      assert VotesSearch.Leaf(info, 0, p.assumedWeight, v);
    }
  }

  /** The same for the search over votes. */
  lemma RunVotesExact(p: Instance, votes: seq<AggregatedVote>, maxOperations: int, bound: Value, excludeFirst: bool)
    requires Distinct(votes) && Elements(votes) == p.votes
    ensures var r := RunVotes(p, votes, maxOperations, bound, excludeFirst);
            && (r.0.None? ==> r.1.bound == bound)
            && (r.0.Some? ==>
                  var s := r.0.value;
                  && Less(bound, s.value) && s.value == r.1.bound == ValueOfVotes(p, s.votes)
                  && CandidateVotes(p, s.votes) && s.bits == Common(p.bits, s.votes))
            && (r.1.ops < maxOperations ==>
                  BoundsCandidateVotes(p, r.1.bound) && (r.0.None? <==> BoundsCandidateVotes(p, bound)))
  {
    if Majority(p, p.votes) {
      RunVotesMajority(p, votes, maxOperations, bound, excludeFirst);
      CandidatesAreFeasible(p, RunVotes(p, votes, maxOperations, bound, excludeFirst).1.bound);
    } else {
      RunVotesLonely(p, votes, maxOperations, bound, excludeFirst);
    }
  }

  lemma RunVotesMajority(p: Instance, votes: seq<AggregatedVote>, maxOperations: int, bound: Value, excludeFirst: bool)
    requires Distinct(votes) && Elements(votes) == p.votes && Majority(p, p.votes)
    ensures var r := RunVotes(p, votes, maxOperations, bound, excludeFirst);
            && (r.0.None? ==> r.1.bound == bound)
            && (r.0.Some? ==>
                  var s := r.0.value;
                  && Less(bound, s.value) && s.value == r.1.bound == ValueOfVotes(p, s.votes)
                  && FeasibleVotes(p, s.votes) && s.bits == Common(p.bits, s.votes))
            && (r.1.ops < maxOperations ==> BoundsVotes(p, r.1.bound))
  {
    var info := VotesInfo(p, votes, maxOperations, excludeFirst);
    var run := RunVotes(p, votes, maxOperations, bound, excludeFirst);
    assert From(votes, 0) == p.votes by { assert votes[0..] == votes; }
    VotesSearch.BranchExact(info, p.assumedFees, Status(bound, 0), 0, p.bits, p.assumedWeight);
    if run.1.ops < maxOperations {
      BoundAtRootVotes(p, info, run.1.bound);
    }
  }

  lemma RunVotesLonely(p: Instance, votes: seq<AggregatedVote>, maxOperations: int, bound: Value, excludeFirst: bool)
    requires Distinct(votes) && Elements(votes) == p.votes && !Majority(p, p.votes)
    ensures var r := RunVotes(p, votes, maxOperations, bound, excludeFirst);
            && (r.0.None? ==> r.1.bound == bound)
            && (r.0.Some? ==>
                  var s := r.0.value;
                  && Less(bound, s.value) && s.value == r.1.bound == ValueOfVotes(p, s.votes)
                  && CandidateVotes(p, s.votes) && s.bits == Common(p.bits, s.votes))
            && (r.1.ops < maxOperations ==>
                  BoundsCandidateVotes(p, r.1.bound) && (r.0.None? <==> BoundsCandidateVotes(p, bound)))
  {
    assert From(votes, 0) == p.votes by { assert votes[0..] == votes; }
    VotesSearch.BranchLonely(VotesInfo(p, votes, maxOperations, excludeFirst), p.assumedFees, Status(bound, 0), 0, p.bits,
                             p.assumedWeight);
    forall v ensures CandidateVotes(p, v) <==> v == p.votes {
      LonelyCandidates(p, {}, v);
    }
  }

  lemma SolveBitsGuaranteed(p: Instance, bits: seq<AggregatedBit>, maxOperations: int, bound: Value,
                            excludeFirst: bool)
    requires Distinct(bits) && Elements(bits) == p.bits && Majority(p, p.votes)
    ensures Guaranteed(p, bound, SolveBits(p, bits, maxOperations, bound, excludeFirst),
                       RunBits(p, bits, maxOperations, bound, excludeFirst), maxOperations)
  {
    var run := RunBits(p, bits, maxOperations, bound, excludeFirst);
    FallbackSound(p);
    RunBitsMajority(p, bits, maxOperations, bound, excludeFirst);
    if run.0.Some? && run.1.ops >= maxOperations {
      MaximizeBitsCloses(p, run.0.value);
    }
  }

  lemma SolveVotesGuaranteed(p: Instance, votes: seq<AggregatedVote>, maxOperations: int, bound: Value,
                             excludeFirst: bool)
    requires Distinct(votes) && Elements(votes) == p.votes && Majority(p, p.votes)
    ensures Guaranteed(p, bound, SolveVotes(p, votes, maxOperations, bound, excludeFirst),
                       RunVotes(p, votes, maxOperations, bound, excludeFirst), maxOperations)
  {
    var run := RunVotes(p, votes, maxOperations, bound, excludeFirst);
    FallbackSound(p);
    RunVotesMajority(p, votes, maxOperations, bound, excludeFirst);
    Duality(p, bound);
    if run.0.None? {
    } else if run.1.ops < maxOperations {
      BestCoalition(p, run.0.value);
    } else {
      MaximizeVotesCloses(p, run.0.value);
      MaximizedVotesSound(p, run.0.value);
    }
  }

  /** The best coalition, with everything its members agree on, is also the best set of bits. */
  lemma BestCoalition(p: Instance, s: Partial)
    requires FeasibleVotes(p, s.votes) && s.bits == Common(p.bits, s.votes) && s.value == ValueOfVotes(p, s.votes)
    requires BoundsVotes(p, s.value)
    ensures var sol := Solution(s.votes, s.bits, s.value, true); Sound(p, sol) && Honest(p, sol)
  {
    CommonOfVotes(p, s.votes);
    Duality(p, s.value);
    assert s.votes <= Supporters(p.votes, s.bits);
  }

  /** With positive weights, the best coalition leaves out nobody who supports its bits: a closed pair without any
      maximisation, because one more supporter would raise the value. */
  lemma BestCoalitionClosed(p: Instance, s: Partial)
    requires FeasibleVotes(p, s.votes) && s.bits == Common(p.bits, s.votes) && s.value == ValueOfVotes(p, s.votes)
    requires BoundsVotes(p, s.value) && Less(ZERO, s.value)
    requires forall v :: v in p.votes ==> v.weight > 0
    ensures Closed(p, s.votes, s.bits)
  {
    var fee := p.assumedFees + Fees(s.bits);
    var supporters := Supporters(p.votes, s.bits);
    assert s.votes <= supporters;
    BestCoalition(p, s);
    SumStrict(s.votes, supporters, VoteWeight());
    SumSubset(s.votes, supporters, VoteWeight());
    NoFeeNoValue(p.assumedWeight + Weight(s.votes), p.total);
    assert fee > 0;
    if Weight(s.votes) < Weight(supporters) {
      CalcValueStrict(fee, p.assumedWeight + Weight(s.votes), p.assumedWeight + Weight(supporters), p.total);
    }
  }

  lemma MaximizedVotesSound(p: Instance, s: Partial)
    requires FeasibleVotes(p, s.votes) && s.bits == Common(p.bits, s.votes) && s.value == ValueOfVotes(p, s.votes)
    ensures var m := MaximizedVotes(p, s); Sound(p, Solution(m.votes, m.bits, m.value, false))
  {
    MaximizeVotesCloses(p, s);
    SumSubset(s.votes, MaximizedVotes(p, s).votes, VoteWeight());
  }

  /** Work bound: the operations of a whole search over bits, counting every recursive call, exceed a non-negative
      budget by at most one plus the number of bits times half the votes plus two. */
  lemma RunBitsOps(p: Instance, bits: seq<AggregatedBit>, maxOperations: nat, bound: Value, excludeFirst: bool)
    ensures RunBits(p, bits, maxOperations, bound, excludeFirst).1.ops
            <= maxOperations + 1 + |bits| * (|p.votes| / 2 + 2)
  {
    var info := BitsInfo(p, bits, maxOperations, excludeFirst);
    BitsSearch.BranchOps(info, p.assumedWeight, Status(bound, 0), 0, p.votes, p.assumedFees, |p.votes|);
    BitsSearch.OpsLimitStep(maxOperations, |bits|, |p.votes|);
  }

  lemma RunVotesOps(p: Instance, votes: seq<AggregatedVote>, maxOperations: nat, bound: Value, excludeFirst: bool)
    ensures RunVotes(p, votes, maxOperations, bound, excludeFirst).1.ops
            <= maxOperations + 1 + |votes| * (|p.bits| + 1)
  {
    var info := VotesInfo(p, votes, maxOperations, excludeFirst);
    VotesSearch.BranchOps(info, p.assumedFees, Status(bound, 0), 0, p.bits, p.assumedWeight, |p.bits|);
    VotesSearch.OpsLimitStep(maxOperations, |votes|, |p.bits|);
  }

  /** A budget above the cost of the whole trees: no search can be cut. */
  ghost predicate AmpleBudget(p: Instance, maxOperations: int)
  {
    maxOperations > BitsSearch.TreeCost(|p.bits|, |p.votes|) && maxOperations > VotesSearch.TreeCost(|p.votes|, |p.bits|)
  }

  lemma AmpleForBits(p: Instance, bits: seq<AggregatedBit>, maxOperations: int, bound: Value, excludeFirst: bool)
    requires AmpleBudget(p, maxOperations) && |bits| == |p.bits|
    ensures RunBits(p, bits, maxOperations, bound, excludeFirst).1.ops < maxOperations
  {
    BitsSearch.BranchTree(BitsInfo(p, bits, maxOperations, excludeFirst), p.assumedWeight, Status(bound, 0), 0, p.votes,
                          p.assumedFees, |p.votes|);
  }

  lemma AmpleForVotes(p: Instance, votes: seq<AggregatedVote>, maxOperations: int, bound: Value, excludeFirst: bool)
    requires AmpleBudget(p, maxOperations) && |votes| == |p.votes|
    ensures RunVotes(p, votes, maxOperations, bound, excludeFirst).1.ops < maxOperations
  {
    VotesSearch.BranchTree(VotesInfo(p, votes, maxOperations, excludeFirst), p.assumedFees, Status(bound, 0), 0, p.bits,
                           p.assumedWeight, |p.bits|);
  }

  /** On one instance and one bound the two searches are interchangeable: complete runs find the same value. */
  lemma SearchesAgree(p: Instance, bits: seq<AggregatedBit>, votes: seq<AggregatedVote>, maxBits: int, maxVotes: int,
                      bound: Value, excludeBitFirst: bool, excludeVoteFirst: bool)
    requires Distinct(bits) && Elements(bits) == p.bits
    requires Distinct(votes) && Elements(votes) == p.votes && Majority(p, p.votes)
    requires RunBits(p, bits, maxBits, bound, excludeBitFirst).1.ops < maxBits
    requires RunVotes(p, votes, maxVotes, bound, excludeVoteFirst).1.ops < maxVotes
    ensures var b := SolveBits(p, bits, maxBits, bound, excludeBitFirst);
            var v := SolveVotes(p, votes, maxVotes, bound, excludeVoteFirst);
            b.optimal == v.optimal && b.value == v.value
  {
    SolveBitsGuaranteed(p, bits, maxBits, bound, excludeBitFirst);
    SolveVotesGuaranteed(p, votes, maxVotes, bound, excludeVoteFirst);
    var b := SolveBits(p, bits, maxBits, bound, excludeBitFirst);
    var v := SolveVotes(p, votes, maxVotes, bound, excludeVoteFirst);
    SoundFeasible(p, b);
    SoundFeasible(p, v);
  }

  lemma SoundFeasible(p: Instance, sol: Solution)
    requires Sound(p, sol)
    ensures FeasibleBits(p, sol.bits)
  {
    SumSubset(sol.votes, Supporters(p.votes, sol.bits), VoteWeight());
  }

  // ---------------------------------------------------------------- two exploration orders

  /** Aggregated bits by value, ties by first position. */
  function BitOrder(total: nat, descending: bool): (AggregatedBit, AggregatedBit) -> bool
  {
    (b: AggregatedBit, c: AggregatedBit) =>
      var cmp := Cmp(CalcValue(b.fee, b.support, total), CalcValue(c.fee, c.support, total));
      if cmp != 0 then (if descending then cmp > 0 else cmp < 0) else b.indexes[0] < c.indexes[0]
  }

  /** Aggregated votes by fee times weight, ties by first position. */
  function VoteOrder(descending: bool): (AggregatedVote, AggregatedVote) -> bool
  {
    (v: AggregatedVote, w: AggregatedVote) =>
      if v.fees * v.weight != w.fees * w.weight then
        (if descending then v.fees * v.weight > w.fees * w.weight else v.fees * v.weight < w.fees * w.weight)
      else v.indexes[0] < w.indexes[0]
  }

  /** Different groups start at different positions. */
  ghost predicate ProperGroups(p: Instance)
  {
    && (forall b, c :: b in p.bits && c in p.bits && b != c ==> b.indexes[0] != c.indexes[0])
    && (forall v, w :: v in p.votes && w in p.votes && v != w ==> v.indexes[0] != w.indexes[0])
  }

  lemma BitOrderStrict(p: Instance, descending: bool)
    requires ProperGroups(p)
    ensures WeakOrder(p.bits, BitOrder(p.total, descending)) && NoTies(p.bits, BitOrder(p.total, descending))
  {
  }

  lemma VoteOrderStrict(p: Instance, descending: bool)
    requires ProperGroups(p)
    ensures WeakOrder(p.votes, VoteOrder(descending)) && NoTies(p.votes, VoteOrder(descending))
  {
  }

  /** The first solution if it is optimal, otherwise the strictly better one. */
  function Pick(first: Solution, second: Solution): (r: Solution)
    ensures r == first || r == second
    ensures first.optimal ==> r == first
    ensures !first.optimal ==> !Less(r.value, first.value) && !Less(r.value, second.value)
    ensures r != first ==> Less(first.value, r.value)
  {
    if first.optimal then first
    else if Less(first.value, second.value) then second
    else first
  }

  /** The list a search over bits explores. */
  ghost function BitList(p: Instance, excludeFirst: bool): seq<AggregatedBit>
  {
    Arrange(p.bits, BitOrder(p.total, !excludeFirst))
  }

  /** The list a search over votes explores. */
  ghost function VoteList(p: Instance, excludeFirst: bool): seq<AggregatedVote>
  {
    Arrange(p.votes, VoteOrder(!excludeFirst))
  }

  ghost function SolveBitsDouble(p: Instance, maxOperations: int, bound: Value): Solution
  {
    Pick(SolveBits(p, BitList(p, false), maxOperations, bound, false),
         SolveBits(p, BitList(p, true), maxOperations, bound, true))
  }

  ghost function SolveVotesDouble(p: Instance, maxOperations: int, bound: Value): Solution
  {
    Pick(SolveVotes(p, VoteList(p, false), maxOperations, bound, false),
         SolveVotes(p, VoteList(p, true), maxOperations, bound, true))
  }

  /** The search that tries a bit first has the most valuable bits in front, the one that drops it first the least valuable;
      equal values are in the order of their first positions. */
  lemma BitsListed(p: Instance, excludeFirst: bool)
    requires ProperGroups(p)
    ensures var s := BitList(p, excludeFirst);
            && Elements(s) == p.bits && Distinct(s)
            && forall i, j :: 0 <= i < j < |s| ==>
                 var v, w := CalcValue(s[i].fee, s[i].support, p.total), CalcValue(s[j].fee, s[j].support, p.total);
                 || (if excludeFirst then Less(v, w) else Less(w, v))
                 || (v == w && s[i].indexes[0] < s[j].indexes[0])
  {
    var s := BitList(p, excludeFirst);
    BitOrderStrict(p, !excludeFirst);
    ArrangeContents(p.bits, BitOrder(p.total, !excludeFirst));
    forall i, j | 0 <= i < j < |s|
      ensures var v, w := CalcValue(s[i].fee, s[i].support, p.total), CalcValue(s[j].fee, s[j].support, p.total);
              || (if excludeFirst then Less(v, w) else Less(w, v))
              || (v == w && s[i].indexes[0] < s[j].indexes[0])
    {
      assert s[i] in Elements(s) && s[j] in Elements(s) && s[i] != s[j];
      assert !BitOrder(p.total, !excludeFirst)(s[j], s[i]);
    }
  }

  /** The same for votes, by fee times weight. */
  lemma VotesListed(p: Instance, excludeFirst: bool)
    requires ProperGroups(p)
    ensures var s := VoteList(p, excludeFirst);
            && Elements(s) == p.votes && Distinct(s)
            && forall i, j :: 0 <= i < j < |s| ==>
                 var v, w := s[i].fees * s[i].weight, s[j].fees * s[j].weight;
                 (if excludeFirst then v < w else w < v) || (v == w && s[i].indexes[0] < s[j].indexes[0])
  {
    var s := VoteList(p, excludeFirst);
    VoteOrderStrict(p, !excludeFirst);
    ArrangeContents(p.votes, VoteOrder(!excludeFirst));
    forall i, j | 0 <= i < j < |s|
      ensures var v, w := s[i].fees * s[i].weight, s[j].fees * s[j].weight;
              (if excludeFirst then v < w else w < v) || (v == w && s[i].indexes[0] < s[j].indexes[0])
    {
      assert s[i] in Elements(s) && s[j] in Elements(s) && s[i] != s[j];
      assert !VoteOrder(!excludeFirst)(s[j], s[i]);
    }
  }

  /** With an ample budget the flag is not needed: the result is optimal or nothing beats the bound. */
  lemma AmpleBitsDouble(p: Instance, maxOperations: int, bound: Value)
    requires ProperGroups(p) && Majority(p, p.votes) && AmpleBudget(p, maxOperations)
    ensures SolveBitsDouble(p, maxOperations, bound).optimal || BoundsBits(p, bound)
  {
    var sorted := Arrange(p.bits, BitOrder(p.total, true));
    BitOrderStrict(p, true);
    ArrangeContents(p.bits, BitOrder(p.total, true));
    DistinctSize(sorted);
    AmpleForBits(p, sorted, maxOperations, bound, false);
    SolveBitsGuaranteed(p, sorted, maxOperations, bound, false);
  }

  lemma AmpleVotesDouble(p: Instance, maxOperations: int, bound: Value)
    requires ProperGroups(p) && Majority(p, p.votes) && AmpleBudget(p, maxOperations)
    ensures SolveVotesDouble(p, maxOperations, bound).optimal || BoundsBits(p, bound)
  {
    var sorted := Arrange(p.votes, VoteOrder(true));
    VoteOrderStrict(p, true);
    ArrangeContents(p.votes, VoteOrder(true));
    DistinctSize(sorted);
    AmpleForVotes(p, sorted, maxOperations, bound, false);
    SolveVotesGuaranteed(p, sorted, maxOperations, bound, false);
  }

  lemma BitsDoubleGuaranteed(p: Instance, maxOperations: int, bound: Value)
    requires ProperGroups(p) && Majority(p, p.votes)
    ensures var sol := SolveBitsDouble(p, maxOperations, bound);
            Sound(p, sol) && Honest(p, sol) && FallsBackOrBeats(p, bound, sol)
  {
    BitOrderStrict(p, true);
    BitOrderStrict(p, false);
    ArrangeContents(p.bits, BitOrder(p.total, true));
    ArrangeContents(p.bits, BitOrder(p.total, false));
    SolveBitsGuaranteed(p, Arrange(p.bits, BitOrder(p.total, true)), maxOperations, bound, false);
    SolveBitsGuaranteed(p, Arrange(p.bits, BitOrder(p.total, false)), maxOperations, bound, true);
  }

  lemma VotesDoubleGuaranteed(p: Instance, maxOperations: int, bound: Value)
    requires ProperGroups(p) && Majority(p, p.votes)
    ensures var sol := SolveVotesDouble(p, maxOperations, bound);
            Sound(p, sol) && Honest(p, sol) && FallsBackOrBeats(p, bound, sol)
  {
    VoteOrderStrict(p, true);
    VoteOrderStrict(p, false);
    ArrangeContents(p.votes, VoteOrder(true));
    ArrangeContents(p.votes, VoteOrder(false));
    SolveVotesGuaranteed(p, Arrange(p.votes, VoteOrder(true)), maxOperations, bound, false);
    SolveVotesGuaranteed(p, Arrange(p.votes, VoteOrder(false)), maxOperations, bound, true);
  }
}
