/** Filtering: bits and votes whose part in the solution is already decided. */
module Filtering {
  import opened Sums
  import opened Ballots

  /** Weight of the voters `among` that confirm attestation `i`. */
  ghost function Support(votes: seq<WeightedBitVote>, among: set<nat>, i: nat): nat
  {
    WeightOf(votes, Confirming(votes, among, i))
  }

  function Confirming(votes: seq<WeightedBitVote>, among: set<nat>, i: nat): set<nat>
  {
    set j | j in among && Marks(votes, j, i)
  }

  /** Bits backed by the whole weight `target`. */
  ghost function Unanimous(votes: seq<WeightedBitVote>, bits: set<nat>, among: set<nat>, guaranteed: nat,
                           target: nat): set<nat>
  {
    set i | i in bits && guaranteed + Support(votes, among, i) == target
  }

  /** Bits that at most half of the total weight backs. */
  ghost function Hopeless(votes: seq<WeightedBitVote>, bits: set<nat>, among: set<nat>, guaranteed: nat,
                          total: nat): set<nat>
  {
    set i | i in bits && guaranteed + Support(votes, among, i) <= total / 2
  }

  /** Bits that every vote of `among` confirms. */
  function Full(votes: seq<WeightedBitVote>, bits: set<nat>, among: set<nat>): set<nat>
  {
    set i | i in bits && forall j :: j in among ==> Marks(votes, j, i)
  }

  function AllOnes(votes: seq<WeightedBitVote>, among: set<nat>, bits: set<nat>): set<nat>
  {
    set j | j in among && forall i :: i in bits ==> Marks(votes, j, i)
  }

  function AllZeros(votes: seq<WeightedBitVote>, among: set<nat>, bits: set<nat>): set<nat>
  {
    set j | j in among && forall i :: i in bits ==> !Marks(votes, j, i)
  }

  datatype Filtered = Filtered(
    inBits: set<nat>, outBits: set<nat>, remBits: set<nat>,
    inVotes: set<nat>, outVotes: set<nat>, remVotes: set<nat>)

  /** Bits decided in the first pass, before any vote is. */
  ghost function FirstIn(votes: seq<WeightedBitVote>, fees: seq<nat>): set<nat>
  {
    Unanimous(votes, Indices(|fees|), Indices(|votes|), 0, Submitted(votes))
  }

  ghost function FirstOut(votes: seq<WeightedBitVote>, fees: seq<nat>, total: nat): set<nat>
  {
    Hopeless(votes, Indices(|fees|), Indices(|votes|), 0, total) - FirstIn(votes, fees)
  }

  ghost function Open(votes: seq<WeightedBitVote>, fees: seq<nat>, total: nat): set<nat>
  {
    Indices(|fees|) - FirstIn(votes, fees) - FirstOut(votes, fees, total)
  }

  /** Votes that confirm every open bit. */
  ghost function Ones(votes: seq<WeightedBitVote>, fees: seq<nat>, total: nat): set<nat>
  {
    AllOnes(votes, Indices(|votes|), Open(votes, fees, total))
  }

  /** Votes that confirm no open bit; they are dropped only if no bit is in yet. */
  ghost function Zeros(votes: seq<WeightedBitVote>, fees: seq<nat>, total: nat): set<nat>
  {
    if FirstIn(votes, fees) == {} then AllZeros(votes, Indices(|votes|), Open(votes, fees, total)) - Ones(votes, fees, total)
    else {}
  }

  /** The three passes: bits, then votes, then the bits that the remaining votes agree on. */
  ghost function FilterResult(votes: seq<WeightedBitVote>, fees: seq<nat>, total: nat): Filtered
  {
    var open := Open(votes, fees, total);
    var ones, zeros := Ones(votes, fees, total), Zeros(votes, fees, total);
    var rem := Indices(|votes|) - ones - zeros;
    var agreed := if ones + zeros == {} then {} else Full(votes, open, rem);
    Filtered(FirstIn(votes, fees) + agreed, FirstOut(votes, fees, total), open - agreed, ones, zeros, rem)
  }

  ghost predicate Partitioned(votes: seq<WeightedBitVote>, fees: seq<nat>, f: Filtered)
  {
    && f.inBits + f.outBits + f.remBits == Indices(|fees|)
    && f.inBits !! f.outBits && f.inBits !! f.remBits && f.outBits !! f.remBits
    && f.inVotes + f.outVotes + f.remVotes == Indices(|votes|)
    && f.inVotes !! f.outVotes && f.inVotes !! f.remVotes && f.outVotes !! f.remVotes
  }

  /** Everyone who is not out confirms the bits that are in; those in confirm everything that is open;
      those out confirm nothing that is in or open. */
  ghost predicate Agreed(votes: seq<WeightedBitVote>, f: Filtered)
  {
    && (forall j, i :: j in f.inVotes + f.remVotes && i in f.inBits ==> Marks(votes, j, i))
    && (forall j, i :: j in f.inVotes && i in f.remBits ==> Marks(votes, j, i))
    && (forall j, i :: j in f.outVotes && i in f.inBits + f.remBits ==> !Marks(votes, j, i))
  }

  /** Bits that are out lack a majority; somebody is out only if some other bit has one. */
  ghost predicate Margins(votes: seq<WeightedBitVote>, total: nat, f: Filtered)
  {
    && (forall i :: i in f.outBits ==> Support(votes, Indices(|votes|), i) <= total / 2)
    && (f.outVotes != {} ==> exists i :: i in f.inBits + f.remBits && Support(votes, Indices(|votes|), i) > total / 2)
  }

  /** With positive weights, a bit backed by all the weight is confirmed by everybody. */
  lemma UnanimousIsFull(votes: seq<WeightedBitVote>, bits: set<nat>, i: nat)
    requires Positive(votes)
    requires i in Unanimous(votes, bits, Indices(|votes|), 0, Submitted(votes))
    ensures forall j :: 0 <= j < |votes| ==> Marks(votes, j, i)
  {
    SumStrict(Confirming(votes, Indices(|votes|), i), Indices(|votes|), WeightAt(votes));
    forall j | 0 <= j < |votes| ensures Marks(votes, j, i) {
      assert j in Indices(|votes|);
    }
  }

  /** Everything the reduction needs to know about a filtering. */
  ghost predicate Filtration(votes: seq<WeightedBitVote>, fees: seq<nat>, total: nat, f: Filtered)
  {
    Partitioned(votes, fees, f) && Agreed(votes, f) && Margins(votes, total, f)
  }

  lemma FilterIsFiltration(votes: seq<WeightedBitVote>, fees: seq<nat>, total: nat)
    requires Positive(votes)
    ensures Filtration(votes, fees, total, FilterResult(votes, fees, total))
  {
    FilterPartitions(votes, fees, total);
    FilterAgrees(votes, fees, total);
    FilterMargins(votes, fees, total);
  }

  lemma FilterPartitions(votes: seq<WeightedBitVote>, fees: seq<nat>, total: nat)
    ensures Partitioned(votes, fees, FilterResult(votes, fees, total))
  {
  }

  lemma FirstInIsFull(votes: seq<WeightedBitVote>, fees: seq<nat>)
    requires Positive(votes)
    ensures forall i, j :: i in FirstIn(votes, fees) && 0 <= j < |votes| ==> Marks(votes, j, i)
  {
    forall i, j | i in FirstIn(votes, fees) && 0 <= j < |votes| ensures Marks(votes, j, i) {
      UnanimousIsFull(votes, Indices(|fees|), i);
    }
  }

  lemma FilterAgrees(votes: seq<WeightedBitVote>, fees: seq<nat>, total: nat)
    requires Positive(votes)
    ensures Agreed(votes, FilterResult(votes, fees, total))
  {
    FirstInIsFull(votes, fees);
  }

  lemma FilterMargins(votes: seq<WeightedBitVote>, fees: seq<nat>, total: nat)
    ensures Margins(votes, total, FilterResult(votes, fees, total))
  {
    var f := FilterResult(votes, fees, total);
    if f.outVotes != {} {
      var open := Open(votes, fees, total);
      var j :| j in f.outVotes;
      var i :| i in open;
      assert i in f.inBits + f.remBits;
    }
  }

  // ---------------------------------------------------------------- exactly what is decided

  /** Every vote confirms the bit. */
  ghost predicate Uncontested(votes: seq<WeightedBitVote>, fees: seq<nat>, i: nat)
  {
    i < |fees| && forall j :: 0 <= j < |votes| ==> Marks(votes, j, i)
  }

  /** Some vote does not confirm the bit, but more than half of the total weight does. */
  ghost predicate Contested(votes: seq<WeightedBitVote>, fees: seq<nat>, total: nat, i: nat)
  {
    i < |fees| && !Uncontested(votes, fees, i) && Support(votes, Indices(|votes|), i) > total / 2
  }

  lemma FirstPassExactly(votes: seq<WeightedBitVote>, fees: seq<nat>, total: nat, i: nat)
    requires Positive(votes)
    ensures i in FirstIn(votes, fees) <==> Uncontested(votes, fees, i)
    ensures i in Open(votes, fees, total) <==> Contested(votes, fees, total, i)
  {
    FirstInIsFull(votes, fees);
    if Uncontested(votes, fees, i) {
      assert Confirming(votes, Indices(|votes|), i) == Indices(|votes|);
    }
  }

  /** Which votes are in: those that confirm every contested bit. Which are out: those that confirm none, provided there are
      such bits and no bit is uncontested. */
  lemma FilterVoteExactly(votes: seq<WeightedBitVote>, fees: seq<nat>, total: nat, j: nat)
    requires Positive(votes) && j < |votes|
    ensures var f := FilterResult(votes, fees, total);
            && (j in f.inVotes <==> forall i :: Contested(votes, fees, total, i) ==> Marks(votes, j, i))
            && (j in f.outVotes <==> && (exists i :: Contested(votes, fees, total, i))
                                     && (forall i :: !Uncontested(votes, fees, i))
                                     && (forall i :: Contested(votes, fees, total, i) ==> !Marks(votes, j, i)))
  {
    forall i ensures (i in FirstIn(votes, fees) <==> Uncontested(votes, fees, i))
                     && (i in Open(votes, fees, total) <==> Contested(votes, fees, total, i))
    {
      FirstPassExactly(votes, fees, total, i);
    }
    assert j in Indices(|votes|);
  }

  /** Which bits are out: those that at most half of the weight backs, unless every vote does. Which stay open: the contested
      ones that some open vote does not confirm. All others are in. */
  lemma FilterBitExactly(votes: seq<WeightedBitVote>, fees: seq<nat>, total: nat, i: nat)
    requires Positive(votes) && i < |fees|
    ensures var f := FilterResult(votes, fees, total);
            && (i in f.outBits <==> !Uncontested(votes, fees, i) && Support(votes, Indices(|votes|), i) <= total / 2)
            && (i in f.remBits <==> Contested(votes, fees, total, i) && exists j :: j in f.remVotes && !Marks(votes, j, i))
  {
    FirstPassExactly(votes, fees, total, i);
    assert i in Indices(|fees|);
    var f := FilterResult(votes, fees, total);
    if Contested(votes, fees, total, i) && f.inVotes + f.outVotes == {} {
      var j :| 0 <= j < |votes| && !Marks(votes, j, i);
      assert j in Indices(|votes|) && j in f.remVotes;
    }
  }
}
