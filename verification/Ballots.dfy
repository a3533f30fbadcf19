/** Submitted votes and the question they answer: which attestations does a strict majority jointly confirm? */
module Ballots {
  import opened Sums
  import opened Values

  const MAX_UINT16: nat := 0xFFFF

  /** Addition of 16-bit weights, which wraps around. */
  function Add16(a: nat, b: nat): nat { (a + b) % (MAX_UINT16 + 1) }

  datatype IndexTx = IndexTx(blockNumber: nat, transactionIndex: nat)

  /** Strictly earlier block, or earlier in the same block. */
  predicate EarlierTx(a: IndexTx, b: IndexTx)
  {
    a.blockNumber < b.blockNumber || (a.blockNumber == b.blockNumber && a.transactionIndex < b.transactionIndex)
  }

  /** Position in the chain, on the numbers themselves: an earlier block, or the same block and no later transaction. */
  predicate NotLaterTx(a: IndexTx, b: IndexTx)
  {
    a.blockNumber <= b.blockNumber && (a.blockNumber == b.blockNumber ==> a.transactionIndex <= b.transactionIndex)
  }

  /** `length` is the number of attestations, `bitVector` the set of confirmed positions. */
  datatype BitVote = BitVote(length: nat, bitVector: set<nat>)

  datatype WeightedBitVote = WeightedBitVote(index: nat, indexTx: IndexTx, weight: nat, bitVote: BitVote)

  /** Vote number `j` confirms attestation `i`. */
  predicate Marks(votes: seq<WeightedBitVote>, j: nat, i: nat)
  {
    j < |votes| && i in votes[j].bitVote.bitVector
  }

  function WeightAt(votes: seq<WeightedBitVote>): nat -> nat
  {
    (j: nat) => if j < |votes| then votes[j].weight else 0
  }

  function FeeAt(fees: seq<nat>): nat -> nat
  {
    (i: nat) => if i < |fees| then fees[i] else 0
  }

  ghost function WeightOf(votes: seq<WeightedBitVote>, voters: set<nat>): nat { Sum(voters, WeightAt(votes)) }
  ghost function FeeOf(fees: seq<nat>, bits: set<nat>): nat { Sum(bits, FeeAt(fees)) }

  predicate Below(i: nat, n: nat) { i < n }

  /** The positions of a list of length `n`. */
  function Indices(n: nat): set<nat> { set i: nat | 0 <= i < n && Below(i, n) }

  /** The voters that confirm every attestation of `bits`. */
  function Backers(votes: seq<WeightedBitVote>, bits: set<nat>): set<nat>
  {
    set j | j in Indices(|votes|) && forall i :: i in bits ==> Marks(votes, j, i)
  }

  ghost function TrueValue(votes: seq<WeightedBitVote>, fees: seq<nat>, total: nat, bits: set<nat>): Value
  {
    CalcValue(FeeOf(fees, bits), WeightOf(votes, Backers(votes, bits)), total)
  }

  /** A strict majority of the total weight confirms all of `bits`. */
  ghost predicate Confirmable(votes: seq<WeightedBitVote>, fees: seq<nat>, total: nat, bits: set<nat>)
  {
    bits <= Indices(|fees|) && 2 * WeightOf(votes, Backers(votes, bits)) > total
  }

  ghost predicate Positive(votes: seq<WeightedBitVote>)
  {
    forall j :: 0 <= j < |votes| ==> votes[j].weight > 0
  }

  /** Total weight of all submitted votes. */
  ghost function Submitted(votes: seq<WeightedBitVote>): nat { WeightOf(votes, Indices(|votes|)) }

  lemma WeightOfAdd(votes: seq<WeightedBitVote>, voters: set<nat>, j: nat)
    requires j !in voters && j < |votes|
    ensures WeightOf(votes, voters + {j}) == WeightOf(votes, voters) + votes[j].weight
  {
    SumAdd(voters, WeightAt(votes), j);
  }

  lemma WeightOfSubset(votes: seq<WeightedBitVote>, s: set<nat>, t: set<nat>)
    requires s <= t
    ensures WeightOf(votes, s) <= WeightOf(votes, t)
    ensures WeightOf(votes, t) == WeightOf(votes, s) + WeightOf(votes, t - s)
  {
    SumSubset(s, t, WeightAt(votes));
  }

  lemma FeeOfAdd(fees: seq<nat>, bits: set<nat>, i: nat)
    requires i !in bits && i < |fees|
    ensures FeeOf(fees, bits + {i}) == FeeOf(fees, bits) + fees[i]
  {
    SumAdd(bits, FeeAt(fees), i);
  }
}
