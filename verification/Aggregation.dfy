/** Aggregation: votes that agree on every open bit become one vote, bits that no open vote tells apart become one. */
module Aggregation {
  import opened Sorting
  import opened Sums
  import opened Instances
  import opened Ballots
  import opened Filtering

  /** The open bits that vote `j` confirms. */
  function Row(votes: seq<WeightedBitVote>, bits: set<nat>, j: nat): set<nat>
  {
    set i | i in bits && Marks(votes, j, i)
  }

  /** The members of `among` that agree with `j` on every bit of `bits`. */
  function SameRow(votes: seq<WeightedBitVote>, among: set<nat>, bits: set<nat>, j: nat): set<nat>
  {
    set k | k in among && forall i :: i in bits ==> (Marks(votes, k, i) <==> Marks(votes, j, i))
  }

  /** The members of `bits` on which every vote of `among` agrees with bit `i`. */
  function SameColumn(votes: seq<WeightedBitVote>, bits: set<nat>, among: set<nat>, i: nat): set<nat>
  {
    set k | k in bits && forall j :: j in among ==> (Marks(votes, j, k) <==> Marks(votes, j, i))
  }

  ghost predicate Increasing(s: seq<nat>) { forall i, j :: 0 <= i < j < |s| ==> s[i] < s[j] }

  /** The increasing list of a non-empty set. */
  ghost function List(s: set<nat>): (r: Indexes)
    requires s != {}
    ensures Elements(r) == s && Increasing(r)
  {
    ArrangeContents(s, NatBefore);
    Arrange(s, NatBefore)
  }

  ghost function VoteGroup(votes: seq<WeightedBitVote>, fees: seq<nat>, among: set<nat>, bits: set<nat>,
                           guaranteedFees: nat, j: nat): (v: AggregatedVote)
    requires j in among && among <= Indices(|votes|)
    ensures Elements(v.indexes) == SameRow(votes, among, bits, j) && Increasing(v.indexes)
  {
    var group := SameRow(votes, among, bits, j);
    assert j in group;
    var indexes := List(group);
    assert indexes[0] in Elements(indexes);
    AggregatedVote(votes[indexes[0]].bitVote.bitVector, WeightOf(votes, group), indexes,
                   guaranteedFees + FeeOf(fees, Row(votes, bits, j)))
  }

  ghost function BitGroup(votes: seq<WeightedBitVote>, fees: seq<nat>, bits: set<nat>, among: set<nat>,
                          guaranteedWeight: nat, i: nat): (b: AggregatedBit)
    requires i in bits
    ensures Elements(b.indexes) == SameColumn(votes, bits, among, i) && Increasing(b.indexes)
  {
    var group := SameColumn(votes, bits, among, i);
    assert i in group;
    AggregatedBit(FeeOf(fees, group), List(group), guaranteedWeight + Support(votes, among, i))
  }

  ghost function VoteGroups(votes: seq<WeightedBitVote>, fees: seq<nat>, among: set<nat>, bits: set<nat>,
                            guaranteedFees: nat): set<AggregatedVote>
    requires among <= Indices(|votes|)
  {
    set j | j in among :: VoteGroup(votes, fees, among, bits, guaranteedFees, j)
  }

  ghost function BitGroups(votes: seq<WeightedBitVote>, fees: seq<nat>, bits: set<nat>, among: set<nat>,
                           guaranteedWeight: nat): set<AggregatedBit>
  {
    set i | i in bits :: BitGroup(votes, fees, bits, among, guaranteedWeight, i)
  }

  /** The instance handed to the searches after filtering `f`. */
  ghost function Reduced(votes: seq<WeightedBitVote>, fees: seq<nat>, total: nat, f: Filtered): Instance
    requires Partitioned(votes, fees, f)
  {
    var weight := WeightOf(votes, f.inVotes);
    var guaranteed := FeeOf(fees, f.inBits);
    Instance(VoteGroups(votes, fees, f.remVotes, f.remBits, guaranteed),
             BitGroups(votes, fees, f.remBits, f.remVotes, weight), weight, guaranteed, total)
  }

  function VoteMembers(): AggregatedVote -> set<nat> { (v: AggregatedVote) => Elements(v.indexes) }
  function BitMembers(): AggregatedBit -> set<nat> { (b: AggregatedBit) => Elements(b.indexes) }

  /** The original voters behind aggregated votes. */
  ghost function Voters(vs: set<AggregatedVote>): set<nat> { Union(vs, VoteMembers()) }

  /** The original positions behind aggregated bits. */
  ghost function Positions(bs: set<AggregatedBit>): set<nat> { Union(bs, BitMembers()) }

  // ---------------------------------------------------------------- the groups are a partition

  lemma RowsEqual(votes: seq<WeightedBitVote>, among: set<nat>, bits: set<nat>, j: nat, k: nat)
    requires k in SameRow(votes, among, bits, j)
    ensures SameRow(votes, among, bits, j) == SameRow(votes, among, bits, k) && Row(votes, bits, j) == Row(votes, bits, k)
  {
  }

  lemma ColumnsEqual(votes: seq<WeightedBitVote>, bits: set<nat>, among: set<nat>, i: nat, k: nat)
    requires k in SameColumn(votes, bits, among, i)
    ensures SameColumn(votes, bits, among, i) == SameColumn(votes, bits, among, k)
    ensures Confirming(votes, among, i) == Confirming(votes, among, k)
  {
  }

  /** Two vote groups that share a member are the same group. */
  lemma SameVoteGroup(votes: seq<WeightedBitVote>, fees: seq<nat>, among: set<nat>, bits: set<nat>,
                      guaranteedFees: nat, j: nat, k: nat)
    requires j in among && k in among && among <= Indices(|votes|) && k in SameRow(votes, among, bits, j)
    ensures VoteGroup(votes, fees, among, bits, guaranteedFees, j)
            == VoteGroup(votes, fees, among, bits, guaranteedFees, k)
  {
    RowsEqual(votes, among, bits, j, k);
  }

  lemma SameBitGroup(votes: seq<WeightedBitVote>, fees: seq<nat>, bits: set<nat>, among: set<nat>,
                     guaranteedWeight: nat, i: nat, k: nat)
    requires i in bits && k in bits && k in SameColumn(votes, bits, among, i)
    ensures BitGroup(votes, fees, bits, among, guaranteedWeight, i)
            == BitGroup(votes, fees, bits, among, guaranteedWeight, k)
  {
    ColumnsEqual(votes, bits, among, i, k);
  }

  /** Vote groups that share a member are equal, and each carries the weight of its members. */
  lemma VoteGroupsDisjoint(votes: seq<WeightedBitVote>, fees: seq<nat>, among: set<nat>, bits: set<nat>,
                           guaranteedFees: nat, v: AggregatedVote, w: AggregatedVote)
    requires among <= Indices(|votes|)
    requires v in VoteGroups(votes, fees, among, bits, guaranteedFees)
    requires w in VoteGroups(votes, fees, among, bits, guaranteedFees)
    ensures v != w ==> Elements(v.indexes) !! Elements(w.indexes)
    ensures v.weight == WeightOf(votes, Elements(v.indexes))
  {
    var j :| j in among && v == VoteGroup(votes, fees, among, bits, guaranteedFees, j);
    var k :| k in among && w == VoteGroup(votes, fees, among, bits, guaranteedFees, k);
    if x :| x in Elements(v.indexes) && x in Elements(w.indexes) {
      SameVoteGroup(votes, fees, among, bits, guaranteedFees, j, x);
      SameVoteGroup(votes, fees, among, bits, guaranteedFees, k, x);
    }
  }

  lemma BitGroupsDisjoint(votes: seq<WeightedBitVote>, fees: seq<nat>, bits: set<nat>, among: set<nat>,
                          guaranteedWeight: nat, b: AggregatedBit, c: AggregatedBit)
    requires b in BitGroups(votes, fees, bits, among, guaranteedWeight)
    requires c in BitGroups(votes, fees, bits, among, guaranteedWeight)
    ensures b != c ==> Elements(b.indexes) !! Elements(c.indexes)
    ensures b.fee == FeeOf(fees, Elements(b.indexes))
  {
    var i :| i in bits && b == BitGroup(votes, fees, bits, among, guaranteedWeight, i);
    var k :| k in bits && c == BitGroup(votes, fees, bits, among, guaranteedWeight, k);
    if x :| x in Elements(b.indexes) && x in Elements(c.indexes) {
      SameBitGroup(votes, fees, bits, among, guaranteedWeight, i, x);
      SameBitGroup(votes, fees, bits, among, guaranteedWeight, k, x);
    }
  }

  /** The vote groups cover exactly the open votes. */
  lemma VoteGroupsCover(votes: seq<WeightedBitVote>, fees: seq<nat>, among: set<nat>, bits: set<nat>,
                        guaranteedFees: nat)
    requires among <= Indices(|votes|)
    ensures Voters(VoteGroups(votes, fees, among, bits, guaranteedFees)) == among
  {
    var gs := VoteGroups(votes, fees, among, bits, guaranteedFees);
    forall j | j in among ensures j in Voters(gs) {
      var v := VoteGroup(votes, fees, among, bits, guaranteedFees, j);
      assert v in gs && j in VoteMembers()(v);
    }
  }

  /** The bit groups cover exactly the open bits. */
  lemma BitGroupsCover(votes: seq<WeightedBitVote>, fees: seq<nat>, bits: set<nat>, among: set<nat>,
                       guaranteedWeight: nat)
    ensures Positions(BitGroups(votes, fees, bits, among, guaranteedWeight)) == bits
  {
    var gs := BitGroups(votes, fees, bits, among, guaranteedWeight);
    forall i | i in bits ensures i in Positions(gs) {
      var b := BitGroup(votes, fees, bits, among, guaranteedWeight, i);
      assert i in SameColumn(votes, bits, among, i);
      assert b in gs && i in BitMembers()(b);
    }
  }

  lemma UnionMonotone<G(!new), T(!new)>(gs: set<G>, hs: set<G>, member: G -> set<T>)
    requires gs <= hs
    ensures Union(gs, member) <= Union(hs, member)
  {
  }

  /** Aggregation conserves weight, for every selection of groups. */
  lemma WeightConserved(votes: seq<WeightedBitVote>, fees: seq<nat>, among: set<nat>, bits: set<nat>,
                        guaranteedFees: nat, vs: set<AggregatedVote>)
    requires among <= Indices(|votes|) && vs <= VoteGroups(votes, fees, among, bits, guaranteedFees)
    ensures WeightOf(votes, Voters(vs)) == Weight(vs) && Voters(vs) <= among
  {
    forall v, w | v in vs && w in vs
      ensures v.weight == WeightOf(votes, Elements(v.indexes)) && (v != w ==> VoteMembers()(v) !! VoteMembers()(w))
    {
      VoteGroupsDisjoint(votes, fees, among, bits, guaranteedFees, v, w);
    }
    VoteGroupsCover(votes, fees, among, bits, guaranteedFees);
    UnionMonotone(vs, VoteGroups(votes, fees, among, bits, guaranteedFees), VoteMembers());
    SumGroups(vs, VoteMembers(), WeightAt(votes), VoteWeight());
  }

  /** Aggregation conserves fees, for every selection of groups. */
  lemma FeesConserved(votes: seq<WeightedBitVote>, fees: seq<nat>, bits: set<nat>, among: set<nat>,
                      guaranteedWeight: nat, bs: set<AggregatedBit>)
    requires bs <= BitGroups(votes, fees, bits, among, guaranteedWeight)
    ensures FeeOf(fees, Positions(bs)) == Fees(bs) && Positions(bs) <= bits
  {
    forall b, c | b in bs && c in bs
      ensures b.fee == FeeOf(fees, Elements(b.indexes)) && (b != c ==> BitMembers()(b) !! BitMembers()(c))
    {
      BitGroupsDisjoint(votes, fees, bits, among, guaranteedWeight, b, c);
    }
    BitGroupsCover(votes, fees, bits, among, guaranteedWeight);
    UnionMonotone(bs, BitGroups(votes, fees, bits, among, guaranteedWeight), BitMembers());
    SumGroups(bs, BitMembers(), FeeAt(fees), BitFee());
  }

  lemma VotersAgree(votes: seq<WeightedBitVote>, fees: seq<nat>, among: set<nat>, bits: set<nat>, fee: nat,
                    v: AggregatedVote, j: nat, i: nat)
    requires among <= Indices(|votes|) && v in VoteGroups(votes, fees, among, bits, fee) && j in v.indexes && i in bits
    ensures i in v.bitVector <==> Marks(votes, j, i)
  {
    var j0 :| j0 in among && v == VoteGroup(votes, fees, among, bits, fee, j0);
    assert j in Elements(v.indexes) && v.indexes[0] in Elements(v.indexes);
  }

  lemma PositionsAgree(votes: seq<WeightedBitVote>, fees: seq<nat>, bits: set<nat>, among: set<nat>, weight: nat,
                       b: AggregatedBit, i: nat, j: nat)
    requires b in BitGroups(votes, fees, bits, among, weight) && i in b.indexes && j in among
    ensures Marks(votes, j, b.indexes[0]) <==> Marks(votes, j, i)
    ensures i in bits && b.indexes[0] in bits
  {
    var i0 :| i0 in bits && b == BitGroup(votes, fees, bits, among, weight, i0);
    assert i in Elements(b.indexes) && b.indexes[0] in Elements(b.indexes);
  }

  /** One representative speaks for the whole group, on both sides. */
  lemma GroupsSpeak(votes: seq<WeightedBitVote>, fees: seq<nat>, among: set<nat>, bits: set<nat>, fee: nat,
                    weight: nat, v: AggregatedVote, b: AggregatedBit, j: nat, i: nat)
    requires among <= Indices(|votes|)
    requires v in VoteGroups(votes, fees, among, bits, fee) && b in BitGroups(votes, fees, bits, among, weight)
    requires j in v.indexes && i in b.indexes
    ensures Supports(v, b) <==> Marks(votes, j, i)
  {
    VotersInAmong(votes, fees, among, bits, fee, v, j);
    PositionsAgree(votes, fees, bits, among, weight, b, i, j);
    VotersAgree(votes, fees, among, bits, fee, v, j, b.indexes[0]);
  }

  lemma VotersInAmong(votes: seq<WeightedBitVote>, fees: seq<nat>, among: set<nat>, bits: set<nat>, fee: nat,
                      v: AggregatedVote, j: nat)
    requires among <= Indices(|votes|) && v in VoteGroups(votes, fees, among, bits, fee) && j in v.indexes
    ensures j in among
  {
    assert j in Elements(v.indexes);
  }

  lemma MembersAgree(votes: seq<WeightedBitVote>, fees: seq<nat>, among: set<nat>, bits: set<nat>, fee: nat,
                     v: AggregatedVote, j: nat, k: nat)
    requires among <= Indices(|votes|) && v in VoteGroups(votes, fees, among, bits, fee) && j in v.indexes && k in v.indexes
    ensures forall i :: i in bits ==> (Marks(votes, j, i) <==> Marks(votes, k, i))
  {
    forall i | i in bits ensures Marks(votes, j, i) <==> Marks(votes, k, i) {
      VotersAgree(votes, fees, among, bits, fee, v, j, i);
      VotersAgree(votes, fees, among, bits, fee, v, k, i);
    }
  }

  lemma AgreeingShare(votes: seq<WeightedBitVote>, fees: seq<nat>, among: set<nat>, bits: set<nat>, fee: nat, j: nat, k: nat)
    returns (v: AggregatedVote)
    requires among <= Indices(|votes|) && j in among && k in SameRow(votes, among, bits, j)
    ensures v in VoteGroups(votes, fees, among, bits, fee) && j in v.indexes && k in v.indexes
  {
    v := VoteGroup(votes, fees, among, bits, fee, j);
    assert j in SameRow(votes, among, bits, j);
    assert j in Elements(v.indexes) && k in Elements(v.indexes);
  }

  /** Groups are as large as possible: two open votes are in one group exactly if they agree on every open bit. */
  lemma VoteGroupsMaximal(votes: seq<WeightedBitVote>, fees: seq<nat>, among: set<nat>, bits: set<nat>, fee: nat, j: nat,
                          k: nat)
    requires among <= Indices(|votes|) && j in among && k in among
    ensures (exists v :: v in VoteGroups(votes, fees, among, bits, fee) && j in v.indexes && k in v.indexes)
            <==> forall i :: i in bits ==> (Marks(votes, j, i) <==> Marks(votes, k, i))
  {
    if v :| v in VoteGroups(votes, fees, among, bits, fee) && j in v.indexes && k in v.indexes {
      MembersAgree(votes, fees, among, bits, fee, v, j, k);
    } else if forall i :: i in bits ==> (Marks(votes, j, i) <==> Marks(votes, k, i)) {
      var v := AgreeingShare(votes, fees, among, bits, fee, j, k);
    }
  }

  lemma PositionsAlike(votes: seq<WeightedBitVote>, fees: seq<nat>, bits: set<nat>, among: set<nat>, weight: nat,
                       b: AggregatedBit, i: nat, k: nat)
    requires b in BitGroups(votes, fees, bits, among, weight) && i in b.indexes && k in b.indexes
    ensures forall j :: j in among ==> (Marks(votes, j, i) <==> Marks(votes, j, k))
  {
    forall j | j in among ensures Marks(votes, j, i) <==> Marks(votes, j, k) {
      PositionsAgree(votes, fees, bits, among, weight, b, i, j);
      PositionsAgree(votes, fees, bits, among, weight, b, k, j);
    }
  }

  lemma AlikeShare(votes: seq<WeightedBitVote>, fees: seq<nat>, bits: set<nat>, among: set<nat>, weight: nat, i: nat, k: nat)
    returns (b: AggregatedBit)
    requires i in bits && k in SameColumn(votes, bits, among, i)
    ensures b in BitGroups(votes, fees, bits, among, weight) && i in b.indexes && k in b.indexes
  {
    b := BitGroup(votes, fees, bits, among, weight, i);
    assert i in SameColumn(votes, bits, among, i);
    assert i in Elements(b.indexes) && k in Elements(b.indexes);
  }

  /** Two open bits are in one group exactly if every open vote treats them alike. */
  lemma BitGroupsMaximal(votes: seq<WeightedBitVote>, fees: seq<nat>, bits: set<nat>, among: set<nat>, weight: nat, i: nat,
                         k: nat)
    requires i in bits && k in bits
    ensures (exists b :: b in BitGroups(votes, fees, bits, among, weight) && i in b.indexes && k in b.indexes)
            <==> forall j :: j in among ==> (Marks(votes, j, i) <==> Marks(votes, j, k))
  {
    if b :| b in BitGroups(votes, fees, bits, among, weight) && i in b.indexes && k in b.indexes {
      PositionsAlike(votes, fees, bits, among, weight, b, i, k);
    } else if forall j :: j in among ==> (Marks(votes, j, i) <==> Marks(votes, j, k)) {
      var b := AlikeShare(votes, fees, bits, among, weight, i, k);
    }
  }

  lemma SupportOfMember(votes: seq<WeightedBitVote>, fees: seq<nat>, bits: set<nat>, among: set<nat>, weight: nat,
                        b: AggregatedBit, i: nat)
    requires b in BitGroups(votes, fees, bits, among, weight) && i in b.indexes
    ensures i in bits && b.support == weight + Support(votes, among, i)
  {
    var i0 :| i0 in bits && b == BitGroup(votes, fees, bits, among, weight, i0);
    assert i in Elements(b.indexes);
    SameBitGroup(votes, fees, bits, among, weight, i0, i);
  }

  lemma FeesOfMember(votes: seq<WeightedBitVote>, fees: seq<nat>, among: set<nat>, bits: set<nat>, fee: nat,
                     v: AggregatedVote, j: nat)
    requires among <= Indices(|votes|) && v in VoteGroups(votes, fees, among, bits, fee) && j in v.indexes
    ensures v.fees == fee + FeeOf(fees, Row(votes, bits, j))
  {
    var j0 :| j0 in among && v == VoteGroup(votes, fees, among, bits, fee, j0);
    assert j in Elements(v.indexes);
    SameVoteGroup(votes, fees, among, bits, fee, j0, j);
  }
}
