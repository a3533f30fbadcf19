/** Solving the reduced instance solves the original problem. */
module Reduction {
  import opened Sorting
  import opened Sums
  import opened Values
  import opened Instances
  import opened Ballots
  import opened Filtering
  import opened Aggregation
  import opened Solver
  import Search

  /** The attestations confirmed when the groups `bits` are chosen. */
  ghost function Assembled(f: Filtered, bits: set<AggregatedBit>): set<nat>
  {
    f.inBits + Positions(bits)
  }

  /** The open voters behind a selection are those who confirm each of its positions. */
  lemma SupportersExpand(votes: seq<WeightedBitVote>, fees: seq<nat>, total: nat, f: Filtered, bits: set<AggregatedBit>)
    requires Partitioned(votes, fees, f) && bits <= Reduced(votes, fees, total, f).bits
    ensures Voters(Supporters(Reduced(votes, fees, total, f).votes, bits)) == AllOnes(votes, f.remVotes, Positions(bits))
  {
    var p := Reduced(votes, fees, total, f);
    VoteGroupsCover(votes, fees, f.remVotes, f.remBits, p.assumedFees);
    forall j | j in f.remVotes
      ensures j in Voters(Supporters(p.votes, bits)) <==> j in AllOnes(votes, f.remVotes, Positions(bits))
    {
      VoterSupports(votes, fees, total, f, bits, j);
    }
    UnionMonotone(Supporters(p.votes, bits), p.votes, VoteMembers());
  }

  lemma VoterSupports(votes: seq<WeightedBitVote>, fees: seq<nat>, total: nat, f: Filtered, bits: set<AggregatedBit>,
                      j: nat)
    requires Partitioned(votes, fees, f) && bits <= Reduced(votes, fees, total, f).bits && j in f.remVotes
    ensures j in Voters(Supporters(Reduced(votes, fees, total, f).votes, bits))
            <==> forall i :: i in Positions(bits) ==> Marks(votes, j, i)
  {
    var vs := Reduced(votes, fees, total, f).votes;
    assert j in Voters(vs) by {
      VoteGroupsCover(votes, fees, f.remVotes, f.remBits, FeeOf(fees, f.inBits));
    }
    var v :| v in vs && j in VoteMembers()(v);
    GroupConfirms(votes, fees, total, f, bits, v, j);
    assert v in Supporters(vs, bits) ==> j in Voters(Supporters(vs, bits));
    if j in Voters(Supporters(vs, bits)) {
      var w :| w in Supporters(vs, bits) && j in VoteMembers()(w);
      GroupConfirms(votes, fees, total, f, bits, w, j);
    }
  }

  lemma GroupConfirms(votes: seq<WeightedBitVote>, fees: seq<nat>, total: nat, f: Filtered, bits: set<AggregatedBit>,
                      v: AggregatedVote, j: nat)
    requires Partitioned(votes, fees, f) && bits <= Reduced(votes, fees, total, f).bits
    requires v in Reduced(votes, fees, total, f).votes && j in v.indexes
    ensures j in f.remVotes
    ensures (forall b :: b in bits ==> Supports(v, b)) <==> forall i :: i in Positions(bits) ==> Marks(votes, j, i)
  {
    var p := Reduced(votes, fees, total, f);
    VotersInAmong(votes, fees, f.remVotes, f.remBits, p.assumedFees, v, j);
    forall b, i | b in bits && i in b.indexes ensures Supports(v, b) <==> Marks(votes, j, i) {
      GroupsSpeak(votes, fees, f.remVotes, f.remBits, p.assumedFees, p.assumedWeight, v, b, j, i);
    }
    if forall i :: i in Positions(bits) ==> Marks(votes, j, i) {
      forall b | b in bits ensures Supports(v, b) {
        var i := b.indexes[0];
        assert i in BitMembers()(b);
      }
    }
  }

  /** Who backs an assembled set: the votes that are in, and the groups that support the selection. */
  lemma BackersOfAssembled(votes: seq<WeightedBitVote>, fees: seq<nat>, total: nat, f: Filtered,
                           bits: set<AggregatedBit>)
    requires Filtration(votes, fees, total, f) && bits <= Reduced(votes, fees, total, f).bits
    requires Assembled(f, bits) != {}
    ensures Backers(votes, Assembled(f, bits))
            == f.inVotes + AllOnes(votes, f.remVotes, Positions(bits))
  {
    var a := Assembled(f, bits);
    FeesConserved(votes, fees, f.remBits, f.remVotes, Reduced(votes, fees, total, f).assumedWeight, bits);
    forall j | j in Indices(|votes|)
      ensures j in Backers(votes, a) <==> j in f.inVotes + AllOnes(votes, f.remVotes, Positions(bits))
    {
      BacksAssembled(votes, fees, total, f, Positions(bits), j);
    }
  }

  /** Which voters confirm a non-empty set of bits that are in or open. */
  lemma BacksAssembled(votes: seq<WeightedBitVote>, fees: seq<nat>, total: nat, f: Filtered, open: set<nat>, j: nat)
    requires Filtration(votes, fees, total, f) && open <= f.remBits && f.inBits + open != {} && j in Indices(|votes|)
    ensures (forall i :: i in f.inBits + open ==> Marks(votes, j, i))
            <==> j in f.inVotes + AllOnes(votes, f.remVotes, open)
  {
    var i0 :| i0 in f.inBits + open;
    if j in f.outVotes {
      assert !Marks(votes, j, i0);
    }
  }

  lemma FeesOfAssembled(votes: seq<WeightedBitVote>, fees: seq<nat>, total: nat, f: Filtered,
                        bits: set<AggregatedBit>)
    requires Partitioned(votes, fees, f) && bits <= Reduced(votes, fees, total, f).bits
    ensures Assembled(f, bits) <= Indices(|fees|)
    ensures FeeOf(fees, Assembled(f, bits)) == Reduced(votes, fees, total, f).assumedFees + Fees(bits)
  {
    FeesConserved(votes, fees, f.remBits, f.remVotes, WeightOf(votes, f.inVotes), bits);
    SumUnion(f.inBits, Positions(bits), FeeAt(fees));
  }

  lemma WeightOfAssembled(votes: seq<WeightedBitVote>, fees: seq<nat>, total: nat, f: Filtered,
                          bits: set<AggregatedBit>)
    requires Filtration(votes, fees, total, f) && bits <= Reduced(votes, fees, total, f).bits
    requires Assembled(f, bits) != {}
    ensures var p := Reduced(votes, fees, total, f);
            WeightOf(votes, Backers(votes, Assembled(f, bits)))
            == p.assumedWeight + Weight(Supporters(p.votes, bits))
  {
    var p := Reduced(votes, fees, total, f);
    var supporters := Supporters(p.votes, bits);
    BackersOfAssembled(votes, fees, total, f, bits);
    SupportersExpand(votes, fees, total, f, bits);
    WeightConserved(votes, fees, f.remVotes, f.remBits, p.assumedFees, supporters);
    SumUnion(f.inVotes, Voters(supporters), WeightAt(votes));
  }

  /** The reduction preserves value: every selection of groups is worth what its expansion is worth. */
  lemma ValuePreserved(votes: seq<WeightedBitVote>, fees: seq<nat>, total: nat, f: Filtered, bits: set<AggregatedBit>)
    requires Filtration(votes, fees, total, f) && bits <= Reduced(votes, fees, total, f).bits
    ensures TrueValue(votes, fees, total, Assembled(f, bits)) == ValueOfBits(Reduced(votes, fees, total, f), bits)
  {
    if Assembled(f, bits) != {} {
      NonEmptyAssembled(votes, fees, total, f, bits);
    } else {
      EmptyAssembled(votes, fees, total, f, bits);
    }
  }

  lemma NonEmptyAssembled(votes: seq<WeightedBitVote>, fees: seq<nat>, total: nat, f: Filtered,
                          bits: set<AggregatedBit>)
    requires Filtration(votes, fees, total, f) && bits <= Reduced(votes, fees, total, f).bits
    requires Assembled(f, bits) != {}
    ensures TrueValue(votes, fees, total, Assembled(f, bits)) == ValueOfBits(Reduced(votes, fees, total, f), bits)
  {
    FeesOfAssembled(votes, fees, total, f, bits);
    WeightOfAssembled(votes, fees, total, f, bits);
    EqualParts(votes, fees, total, Assembled(f, bits), Reduced(votes, fees, total, f), bits);
  }

  /** Equal fees and equal weights make equal values. */
  lemma EqualParts(votes: seq<WeightedBitVote>, fees: seq<nat>, total: nat, a: set<nat>, p: Instance,
                   bits: set<AggregatedBit>)
    requires FeeOf(fees, a) == p.assumedFees + Fees(bits) && p.total == total
    requires WeightOf(votes, Backers(votes, a)) == p.assumedWeight + Weight(Supporters(p.votes, bits))
    ensures TrueValue(votes, fees, total, a) == ValueOfBits(p, bits)
  {
    CalcValueSame(FeeOf(fees, a), WeightOf(votes, Backers(votes, a)),
                  p.assumedFees + Fees(bits), p.assumedWeight + Weight(Supporters(p.votes, bits)), total);
  }

  /** Nothing confirmed is worth nothing, even though filtering may have dropped some of its backers. */
  lemma EmptyAssembled(votes: seq<WeightedBitVote>, fees: seq<nat>, total: nat, f: Filtered, bits: set<AggregatedBit>)
    requires Partitioned(votes, fees, f) && bits <= Reduced(votes, fees, total, f).bits && Assembled(f, bits) == {}
    ensures TrueValue(votes, fees, total, Assembled(f, bits)) == ZERO
    ensures ValueOfBits(Reduced(votes, fees, total, f), bits) == ZERO
  {
    var p := Reduced(votes, fees, total, f);
    FeesOfAssembled(votes, fees, total, f, bits);
    assert p.assumedFees == 0 && Fees(bits) == 0;
    NoFeeNoValue(WeightOf(votes, Backers(votes, {})), total);
    NoFeeNoValue(p.assumedWeight + Weight(Supporters(p.votes, bits)), total);
  }

  /** The groups touched by a set of attestations. */
  ghost function Touched(votes: seq<WeightedBitVote>, fees: seq<nat>, total: nat, f: Filtered, a: set<nat>)
    : set<AggregatedBit>
    requires Partitioned(votes, fees, f)
  {
    set b | b in Reduced(votes, fees, total, f).bits && exists i :: i in b.indexes && i in a
  }

  /** A confirmable set avoids every bit that filtering threw out. */
  lemma ConfirmableAvoidsOut(votes: seq<WeightedBitVote>, fees: seq<nat>, total: nat, f: Filtered, a: set<nat>)
    requires Filtration(votes, fees, total, f) && Confirmable(votes, fees, total, a)
    ensures a !! f.outBits
  {
    if i :| i in a && i in f.outBits {
      WeightOfSubset(votes, Backers(votes, a), Confirming(votes, Indices(|votes|), i));
    }
  }

  lemma TouchedCovers(votes: seq<WeightedBitVote>, fees: seq<nat>, total: nat, f: Filtered, a: set<nat>)
    requires Partitioned(votes, fees, f) && a <= f.inBits + f.remBits
    ensures a <= Assembled(f, Touched(votes, fees, total, f, a))
  {
    forall i | i in a && i !in f.inBits ensures i in Positions(Touched(votes, fees, total, f, a)) {
      TouchesOwnGroup(votes, fees, total, f, a, i);
    }
  }

  lemma TouchesOwnGroup(votes: seq<WeightedBitVote>, fees: seq<nat>, total: nat, f: Filtered, a: set<nat>, i: nat)
    requires Partitioned(votes, fees, f) && i in a && i in f.remBits
    ensures i in Positions(Touched(votes, fees, total, f, a))
  {
    var p := Reduced(votes, fees, total, f);
    var b := BitGroup(votes, fees, f.remBits, f.remVotes, p.assumedWeight, i);
    assert i in SameColumn(votes, f.remBits, f.remVotes, i);
    assert b in p.bits && i in BitMembers()(b);
  }

  /** Rounding a confirmable set up to whole groups loses no backer. */
  lemma RoundUp(votes: seq<WeightedBitVote>, fees: seq<nat>, total: nat, f: Filtered, a: set<nat>)
    requires Filtration(votes, fees, total, f) && Confirmable(votes, fees, total, a) && a != {}
    ensures var up := Assembled(f, Touched(votes, fees, total, f, a));
            a <= up && Backers(votes, up) == Backers(votes, a)
  {
    ConfirmableAvoidsOut(votes, fees, total, f, a);
    var p := Reduced(votes, fees, total, f);
    var touched := Touched(votes, fees, total, f, a);
    TouchedCovers(votes, fees, total, f, a);
    BackersOfAssembled(votes, fees, total, f, touched);
    forall j | j in Backers(votes, a) ensures j in f.inVotes + AllOnes(votes, f.remVotes, Positions(touched)) {
      BackerStays(votes, fees, total, f, a, j);
    }
  }

  lemma BackerStays(votes: seq<WeightedBitVote>, fees: seq<nat>, total: nat, f: Filtered, a: set<nat>, j: nat)
    requires Filtration(votes, fees, total, f) && Confirmable(votes, fees, total, a) && a != {} && j in Backers(votes, a)
    ensures j in f.inVotes + AllOnes(votes, f.remVotes, Positions(Touched(votes, fees, total, f, a)))
  {
    ConfirmableAvoidsOut(votes, fees, total, f, a);
    var p := Reduced(votes, fees, total, f);
    var i0 :| i0 in a;
    assert j in Indices(|votes|) && Marks(votes, j, i0) && i0 in f.inBits + f.remBits;
    if j in f.remVotes {
      forall i | i in Positions(Touched(votes, fees, total, f, a)) ensures Marks(votes, j, i) {
        var b :| b in Touched(votes, fees, total, f, a) && i in BitMembers()(b);
        var k :| k in b.indexes && k in a;
        PositionsAgree(votes, fees, f.remBits, f.remVotes, p.assumedWeight, b, i, j);
        PositionsAgree(votes, fees, f.remBits, f.remVotes, p.assumedWeight, b, k, j);
      }
    }
  }

  /** Nothing is lost: every confirmable set is matched by a feasible selection of groups worth at least as much. */
  lemma NothingLost(votes: seq<WeightedBitVote>, fees: seq<nat>, total: nat, f: Filtered, a: set<nat>)
    returns (bits: set<AggregatedBit>)
    requires Filtration(votes, fees, total, f) && Confirmable(votes, fees, total, a)
    requires Majority(Reduced(votes, fees, total, f), Reduced(votes, fees, total, f).votes)
    ensures var p := Reduced(votes, fees, total, f);
            FeasibleBits(p, bits) && !Less(ValueOfBits(p, bits), TrueValue(votes, fees, total, a))
  {
    var p := Reduced(votes, fees, total, f);
    if a == {} {
      bits := {};
      assert Supporters(p.votes, {}) == p.votes;
      NoFeeNoValue(WeightOf(votes, Backers(votes, a)), total);
    } else {
      bits := Touched(votes, fees, total, f, a);
      RoundUp(votes, fees, total, f, a);
      ValuePreserved(votes, fees, total, f, bits);
      WeightOfAssembled(votes, fees, total, f, bits);
      var up := Assembled(f, bits);
      SumSubset(a, up, FeeAt(fees));
      CalcValueMono(FeeOf(fees, a), WeightOf(votes, Backers(votes, a)),
                    FeeOf(fees, up), WeightOf(votes, Backers(votes, up)), total);
    }
  }

  lemma WeightRemaining(votes: seq<WeightedBitVote>, fees: seq<nat>, total: nat, f: Filtered)
    requires Partitioned(votes, fees, f)
    ensures var p := Reduced(votes, fees, total, f);
            p.assumedWeight + Weight(p.votes) == WeightOf(votes, f.inVotes + f.remVotes)
  {
    var p := Reduced(votes, fees, total, f);
    WeightConserved(votes, fees, f.remVotes, f.remBits, p.assumedFees, p.votes);
    VoteGroupsCover(votes, fees, f.remVotes, f.remBits, p.assumedFees);
    SumUnion(f.inVotes, f.remVotes, WeightAt(votes));
  }

  /** The weight left after filtering is a majority exactly when the submitted weight is. */
  lemma WeightVoted(votes: seq<WeightedBitVote>, fees: seq<nat>, total: nat, f: Filtered)
    requires Filtration(votes, fees, total, f)
    ensures var p := Reduced(votes, fees, total, f);
            && p.assumedWeight + Weight(p.votes) <= Submitted(votes)
            && (Majority(p, p.votes) <==> 2 * Submitted(votes) > total)
  {
    var stay := f.inVotes + f.remVotes;
    WeightRemaining(votes, fees, total, f);
    WeightOfSubset(votes, stay, Indices(|votes|));
    if f.outVotes != {} {
      var i :| i in f.inBits + f.remBits && Support(votes, Indices(|votes|), i) > total / 2;
      assert Confirming(votes, Indices(|votes|), i) <= stay;
      WeightOfSubset(votes, Confirming(votes, Indices(|votes|), i), stay);
    } else {
      assert stay == Indices(|votes|);
    }
  }

  /** Groups are disjoint, so no two start at the same position: the exploration orders have no ties. */
  lemma ReducedIsProper(votes: seq<WeightedBitVote>, fees: seq<nat>, total: nat, f: Filtered)
    requires Partitioned(votes, fees, f)
    ensures ProperGroups(Reduced(votes, fees, total, f))
  {
    var p := Reduced(votes, fees, total, f);
    forall b, c | b in p.bits && c in p.bits && b != c ensures b.indexes[0] != c.indexes[0] {
      BitGroupsDisjoint(votes, fees, f.remBits, f.remVotes, p.assumedWeight, b, c);
      assert b.indexes[0] in Elements(b.indexes) && c.indexes[0] in Elements(c.indexes);
    }
    forall v, w | v in p.votes && w in p.votes && v != w ensures v.indexes[0] != w.indexes[0] {
      VoteGroupsDisjoint(votes, fees, f.remVotes, f.remBits, p.assumedFees, v, w);
      assert v.indexes[0] in Elements(v.indexes) && w.indexes[0] in Elements(w.indexes);
    }
  }

  lemma {:induction false} ImageSize<A(!new), B(!new)>(s: set<A>, g: A -> B)
    ensures |Image(s, g)| <= |s|
    decreases s
  {
    if s == {} {
      assert Image(s, g) == {};
    } else {
      var x :| x in s;
      ImageSize(s - {x}, g);
      assert Image(s, g) == Image(s - {x}, g) + {g(x)};
    }
  }

  lemma {:induction false} IndicesSize(n: nat)
    ensures |Indices(n)| == n
  {
    if n == 0 {
      assert Indices(0) == {};
    } else {
      IndicesSize(n - 1);
      assert Indices(n) == Indices(n - 1) + {n - 1};
    }
  }

  lemma BitGroupsFew(votes: seq<WeightedBitVote>, fees: seq<nat>, bits: set<nat>, among: set<nat>, weight: nat)
    ensures |BitGroups(votes, fees, bits, among, weight)| <= |bits|
  {
    var group := (i: nat) => if i in bits then BitGroup(votes, fees, bits, among, weight, i) else AggregatedBit(0, [0], 0);
    ImageSize(bits, group);
    assert BitGroups(votes, fees, bits, among, weight) == Image(bits, group);
  }

  lemma VoteGroupsFew(votes: seq<WeightedBitVote>, fees: seq<nat>, among: set<nat>, bits: set<nat>, fee: nat)
    requires among <= Indices(|votes|)
    ensures |VoteGroups(votes, fees, among, bits, fee)| <= |among|
  {
    var group := (j: nat) => if j in among then VoteGroup(votes, fees, among, bits, fee, j)
                             else AggregatedVote({}, 0, [0], 0);
    ImageSize(among, group);
    assert VoteGroups(votes, fees, among, bits, fee) == Image(among, group);
  }

  /** There are at most as many groups of bits as attestations, and of votes as votes. */
  lemma FewGroups(votes: seq<WeightedBitVote>, fees: seq<nat>, total: nat, f: Filtered)
    requires Partitioned(votes, fees, f)
    ensures |Reduced(votes, fees, total, f).bits| <= |fees| && |Reduced(votes, fees, total, f).votes| <= |votes|
  {
    BitGroupsFew(votes, fees, f.remBits, f.remVotes, WeightOf(votes, f.inVotes));
    VoteGroupsFew(votes, fees, f.remVotes, f.remBits, FeeOf(fees, f.inBits));
    IndicesSize(|fees|);
    IndicesSize(|votes|);
    Search.SubsetSize(f.remBits, Indices(|fees|));
    Search.SubsetSize(f.remVotes, Indices(|votes|));
  }

  lemma SupportSplit(votes: seq<WeightedBitVote>, fees: seq<nat>, f: Filtered, i: nat)
    requires Partitioned(votes, fees, f) && Agreed(votes, f) && i in f.remBits
    ensures Support(votes, Indices(|votes|), i) == WeightOf(votes, f.inVotes) + Support(votes, f.remVotes, i)
  {
    var open := Confirming(votes, f.remVotes, i);
    assert Confirming(votes, Indices(|votes|), i) == f.inVotes + open;
    SumUnion(f.inVotes, open, WeightAt(votes));
  }

  lemma RowSplit(votes: seq<WeightedBitVote>, fees: seq<nat>, f: Filtered, j: nat)
    requires Partitioned(votes, fees, f) && Agreed(votes, f) && j in f.remVotes
    ensures FeeOf(fees, Row(votes, f.inBits + f.remBits, j)) == FeeOf(fees, f.inBits) + FeeOf(fees, Row(votes, f.remBits, j))
  {
    assert Row(votes, f.inBits + f.remBits, j) == f.inBits + Row(votes, f.remBits, j);
    SumUnion(f.inBits, Row(votes, f.remBits, j), FeeAt(fees));
  }

  /** The support of a group, which decides when its bits are explored, is the weight of all submitted votes that confirm any
      one of its positions. */
  lemma GroupSupport(votes: seq<WeightedBitVote>, fees: seq<nat>, total: nat, f: Filtered, b: AggregatedBit, i: nat)
    requires Filtration(votes, fees, total, f) && b in Reduced(votes, fees, total, f).bits && i in b.indexes
    ensures b.support == Support(votes, Indices(|votes|), i)
  {
    var weight := WeightOf(votes, f.inVotes);
    SupportOfMember(votes, fees, f.remBits, f.remVotes, weight, b, i);
    SupportSplit(votes, fees, f, i);
  }

  /** The fees of a vote group, which decide when it is explored, are those of all bits not thrown out that any one of its
      members confirms. */
  lemma GroupFees(votes: seq<WeightedBitVote>, fees: seq<nat>, total: nat, f: Filtered, v: AggregatedVote, j: nat)
    requires Filtration(votes, fees, total, f) && v in Reduced(votes, fees, total, f).votes && j in v.indexes
    ensures v.fees == FeeOf(fees, Row(votes, f.inBits + f.remBits, j))
  {
    var fee := FeeOf(fees, f.inBits);
    VotersInAmong(votes, fees, f.remVotes, f.remBits, fee, v, j);
    FeesOfMember(votes, fees, f.remVotes, f.remBits, fee, v, j);
    RowSplit(votes, fees, f, j);
  }
}
