/** Aggregated votes and bits, and the two dual views of an optimisation instance built from them. */
module Instances {
  import opened Sums
  import opened Values

  /** A non-empty list of the original positions that were merged into one group. */
  type Indexes = s: seq<nat> | |s| > 0 witness [0]

  /** Votes that agree on every remaining bit. The bit vector is a set of positions. */
  datatype AggregatedVote = AggregatedVote(bitVector: set<nat>, weight: nat, indexes: Indexes, fees: nat)

  /** Bits on which all remaining votes agree pairwise. */
  datatype AggregatedBit = AggregatedBit(fee: nat, indexes: Indexes, support: nat)

  function VoteWeight(): AggregatedVote -> nat { (v: AggregatedVote) => v.weight }
  function BitFee(): AggregatedBit -> nat { (b: AggregatedBit) => b.fee }

  ghost function Weight(votes: set<AggregatedVote>): nat { Sum(votes, VoteWeight()) }
  ghost function Fees(bits: set<AggregatedBit>): nat { Sum(bits, BitFee()) }

  lemma WeightAdd(votes: set<AggregatedVote>, v: AggregatedVote)
    requires v !in votes
    ensures Weight(votes + {v}) == Weight(votes) + v.weight
  {
    SumAdd(votes, VoteWeight(), v);
  }

  lemma WeightRemove(votes: set<AggregatedVote>, v: AggregatedVote)
    requires v in votes
    ensures Weight(votes) == v.weight + Weight(votes - {v})
  {
    SumRemove(votes, VoteWeight(), v);
  }

  lemma WeightSubset(votes: set<AggregatedVote>, all: set<AggregatedVote>)
    requires votes <= all
    ensures Weight(votes) <= Weight(all)
  {
    SumSubset(votes, all, VoteWeight());
  }

  lemma FeesAdd(bits: set<AggregatedBit>, b: AggregatedBit)
    requires b !in bits
    ensures Fees(bits + {b}) == Fees(bits) + b.fee
  {
    SumAdd(bits, BitFee(), b);
  }

  lemma FeesRemove(bits: set<AggregatedBit>, b: AggregatedBit)
    requires b in bits
    ensures Fees(bits) == b.fee + Fees(bits - {b})
  {
    SumRemove(bits, BitFee(), b);
  }

  predicate Supports(v: AggregatedVote, b: AggregatedBit) { b.indexes[0] in v.bitVector }

  /** The votes among `votes` that confirm every bit of `bits`. */
  function Supporters(votes: set<AggregatedVote>, bits: set<AggregatedBit>): set<AggregatedVote>
  {
    set v | v in votes && forall b :: b in bits ==> Supports(v, b)
  }

  /** The bits among `bits` that every vote of `votes` confirms. */
  function Common(bits: set<AggregatedBit>, votes: set<AggregatedVote>): set<AggregatedBit>
  {
    set b | b in bits && forall v :: v in votes ==> Supports(v, b)
  }

  /** `assumedWeight` and `assumedFees` come from votes and bits that filtering has already decided. */
  datatype Instance = Instance(
    votes: set<AggregatedVote>,
    bits: set<AggregatedBit>,
    assumedWeight: nat,
    assumedFees: nat,
    total: nat)

  /** Value of confirming exactly the groups `bits`, with everyone who supports them. */
  ghost function ValueOfBits(p: Instance, bits: set<AggregatedBit>): Value
  {
    CalcValue(p.assumedFees + Fees(bits), p.assumedWeight + Weight(Supporters(p.votes, bits)), p.total)
  }

  /** Value of the coalition `votes`, confirming everything its members agree on. */
  ghost function ValueOfVotes(p: Instance, votes: set<AggregatedVote>): Value
  {
    CalcValue(p.assumedFees + Fees(Common(p.bits, votes)), p.assumedWeight + Weight(votes), p.total)
  }

  ghost predicate Majority(p: Instance, votes: set<AggregatedVote>)
  {
    p.assumedWeight + Weight(votes) > p.total / 2
  }

  ghost predicate FeasibleBits(p: Instance, bits: set<AggregatedBit>)
  {
    bits <= p.bits && Majority(p, Supporters(p.votes, bits))
  }

  ghost predicate FeasibleVotes(p: Instance, votes: set<AggregatedVote>)
  {
    votes <= p.votes && Majority(p, votes)
  }

  /** No feasible set of bits is worth more than `value`. */
  ghost predicate BoundsBits(p: Instance, value: Value)
  {
    forall bits :: FeasibleBits(p, bits) ==> !Less(value, ValueOfBits(p, bits))
  }

  /** No feasible coalition is worth more than `value`. */
  ghost predicate BoundsVotes(p: Instance, value: Value)
  {
    forall votes :: FeasibleVotes(p, votes) ==> !Less(value, ValueOfVotes(p, votes))
  }

  lemma SupportersOfBits(p: Instance, bits: set<AggregatedBit>)
    requires FeasibleBits(p, bits)
    ensures FeasibleVotes(p, Supporters(p.votes, bits))
    ensures !Less(ValueOfVotes(p, Supporters(p.votes, bits)), ValueOfBits(p, bits))
  {
    var votes := Supporters(p.votes, bits);
    SumSubset(bits, Common(p.bits, votes), BitFee());
    CalcValueMono(p.assumedFees + Fees(bits), p.assumedWeight + Weight(votes),
                  p.assumedFees + Fees(Common(p.bits, votes)), p.assumedWeight + Weight(votes), p.total);
  }

  lemma CommonOfVotes(p: Instance, votes: set<AggregatedVote>)
    requires FeasibleVotes(p, votes)
    ensures FeasibleBits(p, Common(p.bits, votes))
    ensures !Less(ValueOfBits(p, Common(p.bits, votes)), ValueOfVotes(p, votes))
  {
    var bits := Common(p.bits, votes);
    SumSubset(votes, Supporters(p.votes, bits), VoteWeight());
    CalcValueMono(p.assumedFees + Fees(bits), p.assumedWeight + Weight(votes),
                  p.assumedFees + Fees(bits), p.assumedWeight + Weight(Supporters(p.votes, bits)), p.total);
  }

  /** Bounding bit sets and bounding coalitions is the same thing: the two searches are dual. */
  lemma Duality(p: Instance, value: Value)
    ensures BoundsBits(p, value) <==> BoundsVotes(p, value)
  {
    if BoundsVotes(p, value) {
      forall bits | FeasibleBits(p, bits) ensures !Less(value, ValueOfBits(p, bits)) {
        SupportersOfBits(p, bits);
      }
    }
    if BoundsBits(p, value) {
      forall votes | FeasibleVotes(p, votes) ensures !Less(value, ValueOfVotes(p, votes)) {
        CommonOfVotes(p, votes);
      }
    }
  }

  /** What a search over bits may return: it checks the majority only when it takes a bit. */
  ghost predicate CandidateBits(p: Instance, bits: set<AggregatedBit>)
  {
    bits <= p.bits && (bits == {} || Majority(p, Supporters(p.votes, bits)))
  }

  /** What a search over votes may return: it checks the majority only when it drops a vote. */
  ghost predicate CandidateVotes(p: Instance, votes: set<AggregatedVote>)
  {
    votes <= p.votes && (votes == p.votes || Majority(p, votes))
  }

  ghost predicate BoundsCandidateBits(p: Instance, value: Value)
  {
    forall bits :: CandidateBits(p, bits) ==> !Less(value, ValueOfBits(p, bits))
  }

  ghost predicate BoundsCandidateVotes(p: Instance, value: Value)
  {
    forall votes :: CandidateVotes(p, votes) ==> !Less(value, ValueOfVotes(p, votes))
  }

  /** If all votes together hold a majority, the candidates are the feasible sets. */
  lemma CandidatesAreFeasible(p: Instance, value: Value)
    requires Majority(p, p.votes)
    ensures forall bits :: CandidateBits(p, bits) <==> FeasibleBits(p, bits)
    ensures forall votes :: CandidateVotes(p, votes) <==> FeasibleVotes(p, votes)
    ensures BoundsCandidateBits(p, value) <==> BoundsBits(p, value)
    ensures BoundsCandidateVotes(p, value) <==> BoundsVotes(p, value)
  {
    assert Supporters(p.votes, {}) == p.votes;
  }

  /** Otherwise there is one candidate on each side. */
  lemma LonelyCandidates(p: Instance, bits: set<AggregatedBit>, votes: set<AggregatedVote>)
    requires !Majority(p, p.votes)
    ensures CandidateBits(p, bits) <==> bits == {}
    ensures CandidateVotes(p, votes) <==> votes == p.votes
  {
    SumSubset(Supporters(p.votes, bits), p.votes, VoteWeight());
    if votes <= p.votes {
      SumSubset(votes, p.votes, VoteWeight());
    }
  }

  /** A closed pair: the bits are exactly what the votes agree on, the votes exactly who supports the bits. */
  ghost predicate Closed(p: Instance, votes: set<AggregatedVote>, bits: set<AggregatedBit>)
  {
    bits == Common(p.bits, votes) && votes == Supporters(p.votes, bits)
  }
}
