/** The strategies as written: loops over lists and over maps in arbitrary order, one mutable status per search.
    Every method returns the set-level answer of module `Solver`, so no enumeration order can show through. */
module BranchAndBound {
  import opened Sorting
  import opened Values
  import opened Instances
  import opened Ballots
  import opened Search
  import opened Solver
  import BitsSearch
  import VotesSearch

  lemma ElementsStep<T>(s: seq<T>, i: nat)
    requires i < |s|
    ensures Elements(s[..i + 1]) == Elements(s[..i]) + {s[i]}
    ensures Distinct(s) ==> s[i] !in Elements(s[..i])
  {
    assert s[..i + 1] == s[..i] + [s[i]];
  }

  method TotalFee(bits: seq<AggregatedBit>, assumedFees: nat) returns (totalFee: nat)
    requires Distinct(bits)
    ensures totalFee == assumedFees + Fees(Elements(bits))
  {
    totalFee := assumedFees;
    for i := 0 to |bits|
      invariant totalFee == assumedFees + Fees(Elements(bits[..i]))
    {
      ElementsStep(bits, i);
      FeesAdd(Elements(bits[..i]), bits[i]);
      totalFee := totalFee + bits[i].fee;
    }
    assert bits[..|bits|] == bits;
  }

  method Members<T(==)>(items: seq<T>) returns (included: set<T>)
    ensures included == Elements(items)
  {
    included := {};
    for i := 0 to |items|
      invariant included == Elements(items[..i])
    {
      ElementsStep(items, i);
      included := included + {items[i]};
    }
    assert items[..|items|] == items;
  }

  /** Fee and weight of a pair, summed over its two maps in any order. */
  method CalcValueFromFees(s: Partial, assumedFees: nat, assumedWeight: nat, total: nat) returns (value: Value)
    requires assumedWeight + Weight(s.votes) <= MAX_UINT16
    ensures value == CalcValue(assumedFees + Fees(s.bits), assumedWeight + Weight(s.votes), total)
  {
    var feeSum: nat, weight: nat := assumedFees, assumedWeight;
    var bits := s.bits;
    while bits != {}
      invariant feeSum + Fees(bits) == assumedFees + Fees(s.bits)
      decreases bits
    {
      var b :| b in bits;
      FeesRemove(bits, b);
      feeSum, bits := feeSum + b.fee, bits - {b};
    }
    var votes := s.votes;
    while votes != {}
      invariant weight + Weight(votes) == assumedWeight + Weight(s.votes)
      decreases votes
    {
      var v :| v in votes;
      WeightRemove(votes, v);
      weight, votes := Add16(weight, v.weight), votes - {v};
    }
    value := CalcValue(feeSum, weight, total);
  }

  method ConfirmedByAll(votes: set<AggregatedVote>, b: AggregatedBit) returns (check: bool)
    ensures check <==> forall v :: v in votes ==> Supports(v, b)
  {
    check := true;
    var todo := votes;
    while todo != {}
      invariant todo <= votes && check
      invariant forall v :: v in votes - todo ==> Supports(v, b)
      decreases todo
    {
      var v :| v in todo;
      if !Supports(v, b) {
        return false;
      }
      todo := todo - {v};
    }
  }

  method ConfirmsAll(v: AggregatedVote, bits: set<AggregatedBit>) returns (check: bool)
    ensures check <==> forall b :: b in bits ==> Supports(v, b)
  {
    check := true;
    var todo := bits;
    while todo != {}
      invariant todo <= bits && check
      invariant forall b :: b in bits - todo ==> Supports(v, b)
      decreases todo
    {
      var b :| b in todo;
      if !Supports(v, b) {
        return false;
      }
      todo := todo - {b};
    }
  }

  /** Adds every bit that all votes of the solution confirm. */
  method MaximizeBits(s: Partial, bits: seq<AggregatedBit>, assumedFees: nat, assumedWeight: nat, total: nat,
                      ghost p: Instance) returns (r: Partial)
    requires p.bits == Elements(bits)
    requires p.assumedFees == assumedFees && p.assumedWeight == assumedWeight && p.total == total
    requires assumedWeight + Weight(s.votes) <= MAX_UINT16
    ensures r == MaximizedBits(p, s)
  {
    r := s;
    for i := 0 to |bits|
      invariant r.votes == s.votes
      invariant r.bits == s.bits + Common(Elements(bits[..i]), s.votes)
    {
      ElementsStep(bits, i);
      if bits[i] !in r.bits {
        var check := ConfirmedByAll(r.votes, bits[i]);
        if check {
          r := r.(bits := r.bits + {bits[i]});
        }
      }
    }
    assert bits[..|bits|] == bits;
    var value := CalcValueFromFees(r, assumedFees, assumedWeight, total);
    r := r.(value := value);
  }

  /** Adds every vote that confirms all bits of the solution. */
  method MaximizeVotes(s: Partial, votes: seq<AggregatedVote>, assumedFees: nat, assumedWeight: nat, total: nat,
                       ghost p: Instance) returns (r: Partial)
    requires p.votes == Elements(votes)
    requires p.assumedFees == assumedFees && p.assumedWeight == assumedWeight && p.total == total
    requires s.votes <= p.votes && assumedWeight + Weight(p.votes) <= MAX_UINT16
    ensures r == MaximizedVotes(p, s)
  {
    r := s;
    for i := 0 to |votes|
      invariant r.bits == s.bits
      invariant r.votes == s.votes + Supporters(Elements(votes[..i]), s.bits)
    {
      ElementsStep(votes, i);
      if votes[i] !in r.votes {
        var check := ConfirmsAll(votes[i], r.bits);
        if check {
          r := r.(votes := r.votes + {votes[i]});
        }
      }
    }
    assert votes[..|votes|] == votes;
    WeightSubset(r.votes, p.votes);
    var value := CalcValueFromFees(r, assumedFees, assumedWeight, total);
    r := r.(value := value);
  }

  method BranchAndBoundBits(bitVotes: seq<AggregatedVote>, bits: seq<AggregatedBit>, assumedWeight: nat,
                            weightVoted: nat, total: nat, assumedFees: nat, maxOperations: int, initialBound: Value,
                            excludeFirst: bool) returns (sol: Solution)
    requires Distinct(bits) && weightVoted == assumedWeight + Weight(Elements(bitVotes))
    requires weightVoted <= MAX_UINT16
    ensures sol == SolveBits(Instance(Elements(bitVotes), Elements(bits), assumedWeight, assumedFees, total),
                             bits, maxOperations, initialBound, excludeFirst)
  {
    var includedVotes := Members(bitVotes);
    var totalFee := TotalFee(bits, assumedFees);
    var status := new SharedStatus(initialBound);
    var info := ProcessInfo(total, total / 2, bits, maxOperations, excludeFirst);
    ghost var p := Instance(Elements(bitVotes), Elements(bits), assumedWeight, assumedFees, total);
    assert bits[0..] == bits;
    var result := BitsSearch.BranchBits(info, status, 0, includedVotes, weightVoted, totalFee,
                                        assumedWeight, assumedFees);
    var isOptimal := status.numOperations < maxOperations;
    if result.None? {
      return Fallback(includedVotes);
    }
    var s := result.value;
    if !isOptimal {
      BitsSearch.BranchWithin(info, assumedWeight, Status(initialBound, 0), 0, includedVotes, assumedFees);
      WeightSubset(s.votes, p.votes);
      s := MaximizeBits(s, bits, assumedFees, assumedWeight, total, p);
    }
    sol := Solution(s.votes, s.bits, s.value, isOptimal);
  }

  method BranchAndBoundVotes(bitVotes: seq<AggregatedVote>, bits: seq<AggregatedBit>, assumedWeight: nat,
                             weightVoted: nat, total: nat, assumedFees: nat, maxOperations: int, initialBound: Value,
                             excludeFirst: bool) returns (sol: Solution)
    requires Distinct(bits) && Distinct(bitVotes) && weightVoted == assumedWeight + Weight(Elements(bitVotes))
    requires weightVoted <= MAX_UINT16
    ensures sol == SolveVotes(Instance(Elements(bitVotes), Elements(bits), assumedWeight, assumedFees, total),
                              bitVotes, maxOperations, initialBound, excludeFirst)
  {
    var includedBits := Members(bits);
    var totalFee := TotalFee(bits, assumedFees);
    var status := new SharedStatus(initialBound);
    var info := ProcessInfo(total, total / 2, bitVotes, maxOperations, excludeFirst);
    ghost var p := Instance(Elements(bitVotes), Elements(bits), assumedWeight, assumedFees, total);
    assert bitVotes[0..] == bitVotes;
    var result := VotesSearch.BranchVotes(info, status, 0, includedBits, totalFee, weightVoted,
                                          assumedFees, assumedWeight);
    var isOptimal := status.numOperations < maxOperations;
    if result.None? {
      var all := Members(bitVotes);
      return Fallback(all);
    }
    var s := result.value;
    if !isOptimal {
      VotesSearch.BranchWithin(info, assumedFees, Status(initialBound, 0), 0, includedBits, assumedWeight);
      s := MaximizeVotes(s, bitVotes, assumedFees, assumedWeight, total, p);
    }
    sol := Solution(s.votes, s.bits, s.value, isOptimal);
  }

  /** Both exploration orders over bits; module `DoubleRun` shows that running them concurrently gives the same. */
  method BranchAndBoundBitsDouble(bitVotes: seq<AggregatedVote>, bits: seq<AggregatedBit>, assumedWeight: nat,
                                  weightVoted: nat, total: nat, assumedFees: nat, maxOperations: int,
                                  initialBound: Value, ghost p: Instance) returns (sol: Solution)
    requires Distinct(bits) && weightVoted == assumedWeight + Weight(Elements(bitVotes))
    requires weightVoted <= MAX_UINT16
    requires p == Instance(Elements(bitVotes), Elements(bits), assumedWeight, assumedFees, total) && ProperGroups(p)
    ensures sol == SolveBitsDouble(p, maxOperations, initialBound)
  {
    BitOrderStrict(p, false);
    BitOrderStrict(p, true);
    ArrangeIs(bits, BitOrder(total, false));
    ArrangeIs(bits, BitOrder(total, true));
    ArrangeContents(p.bits, BitOrder(total, false));
    ArrangeContents(p.bits, BitOrder(total, true));
    var bitsAscVal := Sort(bits, BitOrder(total, false));
    var bitsDscVal := Sort(bits, BitOrder(total, true));
    var first := BranchAndBoundBits(bitVotes, bitsDscVal, assumedWeight, weightVoted, total, assumedFees,
                                    maxOperations, initialBound, false);
    var second := BranchAndBoundBits(bitVotes, bitsAscVal, assumedWeight, weightVoted, total, assumedFees,
                                     maxOperations, initialBound, true);
    sol := Pick(first, second);
  }

  /** Both exploration orders over votes. */
  method BranchAndBoundVotesDouble(bitVotes: seq<AggregatedVote>, bits: seq<AggregatedBit>, assumedWeight: nat,
                                   weightVoted: nat, total: nat, assumedFees: nat, maxOperations: int,
                                   initialBound: Value, ghost p: Instance) returns (sol: Solution)
    requires Distinct(bits) && Distinct(bitVotes) && weightVoted == assumedWeight + Weight(Elements(bitVotes))
    requires weightVoted <= MAX_UINT16
    requires p == Instance(Elements(bitVotes), Elements(bits), assumedWeight, assumedFees, total) && ProperGroups(p)
    ensures sol == SolveVotesDouble(p, maxOperations, initialBound)
  {
    VoteOrderStrict(p, false);
    VoteOrderStrict(p, true);
    ArrangeIs(bitVotes, VoteOrder(false));
    ArrangeIs(bitVotes, VoteOrder(true));
    ArrangeContents(p.votes, VoteOrder(false));
    ArrangeContents(p.votes, VoteOrder(true));
    var votesAscVal := Sort(bitVotes, VoteOrder(false));
    var votesDscVal := Sort(bitVotes, VoteOrder(true));
    var first := BranchAndBoundVotes(votesDscVal, bits, assumedWeight, weightVoted, total, assumedFees,
                                     maxOperations, initialBound, false);
    var second := BranchAndBoundVotes(votesAscVal, bits, assumedWeight, weightVoted, total, assumedFees,
                                      maxOperations, initialBound, true);
    sol := Pick(first, second);
  }
}
