/** Inputs on which a tempting property fails. Each stands beside the theorem that says exactly when it holds. */
module Witnesses {
  import opened Sorting
  import opened Sums
  import opened Values
  import opened Instances
  import opened Ballots
  import opened Filtering
  import opened Aggregation
  import opened Descent
  import opened Solver
  import opened Reduction
  import TieBreaks
  import BitsSearch
  import VotesSearch
  import Search
  import E = Ensemble
  import C = Collection
  import T = Timing
  import R = Trigger

  // ---------------------------------------------------------------- an understated value

  /** Two voters: both confirm the first attestation, the heavier one also the second. */
  const TWO_VOTES: seq<WeightedBitVote> :=
    [WeightedBitVote(0, IndexTx(1, 0), 3, BitVote(2, {0, 1})), WeightedBitVote(1, IndexTx(1, 1), 1, BitVote(2, {0}))]

  lemma TwoWeights()
    ensures Positive(TWO_VOTES) && Submitted(TWO_VOTES) == 4
    ensures Support(TWO_VOTES, Indices(2), 0) == 4 && Support(TWO_VOTES, Indices(2), 1) == 3
  {
    assert Indices(2) == {0} + {1} && {} + {0} == {0};
    WeightOfAdd(TWO_VOTES, {}, 0);
    WeightOfAdd(TWO_VOTES, {0}, 1);
    assert Confirming(TWO_VOTES, Indices(2), 0) == Indices(2);
    assert Confirming(TWO_VOTES, Indices(2), 1) == {0};
  }

  /** The first attestation is in, the second one and the lighter voter stay open. */
  lemma TwoFiltered()
    ensures var f := FilterResult(TWO_VOTES, [5, 1], 4); 0 in f.inBits && 1 in f.remBits && 1 in f.remVotes
  {
    TwoWeights();
    assert 0 in FirstIn(TWO_VOTES, [5, 1]) && 1 in Open(TWO_VOTES, [5, 1], 4);
    assert !Marks(TWO_VOTES, 1, 1);
  }

  /** If a paid bit is in while a bit and a vote are open, one operation is not enough to report its fee. */
  lemma CutShort(votes: seq<WeightedBitVote>, fees: seq<nat>, total: nat, k: nat, i: nat, j: nat)
    requires Positive(votes) && 2 * Submitted(votes) > total && k < |fees| && fees[k] > 0
    ensures var f := FilterResult(votes, fees, total);
            var sol := E.Chosen(votes, fees, total, 1);
            var c := E.Consensus(votes, fees, total, 1);
            k in f.inBits && i in f.remBits && j in f.remVotes
            ==> sol.Some? && Less(sol.value.value, TrueValue(votes, fees, total, c.value))
  {
    var f, p := E.Unfolded(votes, fees, total, 1);
    if k in f.inBits && i in f.remBits && j in f.remVotes {
      E.FailsExactlyWithoutQuorum(votes, fees, total, 1);
      SumRemove(f.inBits, FeeAt(fees), k);
      NotEmpty(votes, fees, total, f, i, j);
      BudgetThatFits(p, 1);
      E.ReportedExactly(votes, fees, total, 1);
    }
  }

  /** With one operation no search gets anywhere, and the fee of the first attestation is not reported. */
  lemma Understated()
    ensures var sol := E.Chosen(TWO_VOTES, [5, 1], 4, 1);
            var c := E.Consensus(TWO_VOTES, [5, 1], 4, 1);
            sol.Some? && Less(sol.value.value, TrueValue(TWO_VOTES, [5, 1], 4, c.value))
  {
    TwoWeights();
    TwoFiltered();
    CutShort(TWO_VOTES, [5, 1], 4, 0, 1, 1);
  }

  lemma NotEmpty(votes: seq<WeightedBitVote>, fees: seq<nat>, total: nat, f: Filtered, i: nat, j: nat)
    requires Partitioned(votes, fees, f) && i in f.remBits && j in f.remVotes
    ensures var p := Reduced(votes, fees, total, f); p.bits != {} && p.votes != {}
  {
    var p := Reduced(votes, fees, total, f);
    assert BitGroup(votes, fees, f.remBits, f.remVotes, p.assumedWeight, i) in p.bits;
    assert VoteGroup(votes, fees, f.remVotes, f.remBits, p.assumedFees, j) in p.votes;
  }

  // ---------------------------------------------------------------- small problems, solved completely

  lemma SmallTrees(depth: nat, width: nat)
    requires depth <= 3 && width <= 3
    ensures BitsSearch.TreeCost(depth, width) < 100 && VotesSearch.TreeCost(depth, width) < 100
  {
    if depth > 0 {
      assert depth == 1 || depth == 2 || depth == 3;
      assert BitsSearch.TreeCost(0, width) == 1 == VotesSearch.TreeCost(0, width);
      assert BitsSearch.TreeCost(1, width) <= 5 && VotesSearch.TreeCost(1, width) <= 6;
      assert BitsSearch.TreeCost(2, width) <= 13 && VotesSearch.TreeCost(2, width) <= 16;
    }
  }

  /** The client's budget covers every problem with up to three votes and three attestations. */
  lemma SmallIsAmple(votes: seq<WeightedBitVote>, fees: seq<nat>, total: nat)
    requires Positive(votes) && |votes| <= 3 && |fees| <= 3
    ensures AmpleBudget(E.InstanceOf(votes, fees, total), 20_000_000)
  {
    var f, p := E.Unfolded(votes, fees, total, 20_000_000);
    FewGroups(votes, fees, total, f);
    SmallTrees(|p.bits|, |p.votes|);
    SmallTrees(|p.votes|, |p.bits|);
  }

  // ---------------------------------------------------------------- the cap decides

  /** Four fifths of the weight confirm both attestations, everybody confirms the first. */
  const CAPPED_VOTES: seq<WeightedBitVote> :=
    [WeightedBitVote(0, IndexTx(1, 0), 80, BitVote(2, {0, 1})), WeightedBitVote(1, IndexTx(1, 1), 20, BitVote(2, {0}))]

  lemma CappedWeights()
    ensures Positive(CAPPED_VOTES)
    ensures WeightOf(CAPPED_VOTES, Backers(CAPPED_VOTES, {0})) == 100
    ensures WeightOf(CAPPED_VOTES, Backers(CAPPED_VOTES, {0, 1})) == 80
  {
    assert {} + {0} == {0} && {0} + {1} == {0, 1};
    WeightOfAdd(CAPPED_VOTES, {}, 0);
    WeightOfAdd(CAPPED_VOTES, {0}, 1);
    assert Marks(CAPPED_VOTES, 0, 0) && Marks(CAPPED_VOTES, 0, 1) && Marks(CAPPED_VOTES, 1, 0) && !Marks(CAPPED_VOTES, 1, 1);
    assert Indices(2) == {0, 1};
    assert Backers(CAPPED_VOTES, {0}) == {0, 1};
    assert Backers(CAPPED_VOTES, {0, 1}) == {0};
  }

  lemma CappedFees()
    ensures FeeOf([9, 1], {0}) == 9 && FeeOf([9, 1], {1}) == 1 && FeeOf([9, 1], {0, 1}) == 10 && FeeOf([9, 1], {}) == 0
  {
    assert {} + {0} == {0} && {0} + {1} == {0, 1} && {} + {1} == {1};
    FeeOfAdd([9, 1], {}, 0);
    FeeOfAdd([9, 1], {}, 1);
    FeeOfAdd([9, 1], {0}, 1);
  }

  lemma PairSubsets(c: set<nat>)
    requires c <= Indices(2)
    ensures c == {} || c == {0} || c == {1} || c == {0, 1}
  {
    assert Indices(2) == {0, 1};
    assert c == (if 0 in c then {0} else {}) + (if 1 in c then {1} else {});
  }

  lemma CapIsBest(c: set<nat>)
    requires c <= Indices(2) && c != {0, 1}
    ensures Less(TrueValue(CAPPED_VOTES, [9, 1], 100, c), TrueValue(CAPPED_VOTES, [9, 1], 100, {0, 1}))
  {
    CappedWeights();
    CappedFees();
    PairSubsets(c);
    FourFifthsAreWorth(10, 80, FeeOf([9, 1], c), WeightOf(CAPPED_VOTES, Backers(CAPPED_VOTES, c)), 100);
  }

  lemma CapIsBestOfAll()
    ensures Positive(CAPPED_VOTES) && Confirmable(CAPPED_VOTES, [9, 1], 100, {0, 1})
    ensures forall a :: Confirmable(CAPPED_VOTES, [9, 1], 100, a) && a != {0, 1}
                        ==> Less(TrueValue(CAPPED_VOTES, [9, 1], 100, a), TrueValue(CAPPED_VOTES, [9, 1], 100, {0, 1}))
  {
    CappedWeights();
    assert {0, 1} <= Indices(2);
    forall a | Confirmable(CAPPED_VOTES, [9, 1], 100, a) && a != {0, 1}
      ensures Less(TrueValue(CAPPED_VOTES, [9, 1], 100, a), TrueValue(CAPPED_VOTES, [9, 1], 100, {0, 1}))
    {
      CapIsBest(a);
    }
  }

  /** Without the cap the first attestation alone would be worth more (900 against 800); with it, both are confirmed. */
  lemma CapDecides()
    ensures E.Consensus(CAPPED_VOTES, [9, 1], 100, 20_000_000) == Some({0, 1})
  {
    CapIsBestOfAll();
    SmallIsAmple(CAPPED_VOTES, [9, 1], 100);
    E.UniqueBest(CAPPED_VOTES, [9, 1], 100, 20_000_000, {0, 1});
  }

  // ---------------------------------------------------------------- a tie

  /** Either attestation is confirmed by sixty of one hundred, both only by twenty. */
  const TIED_VOTES: seq<WeightedBitVote> :=
    [WeightedBitVote(0, IndexTx(1, 0), 40, BitVote(2, {0})), WeightedBitVote(1, IndexTx(1, 1), 20, BitVote(2, {0, 1})),
     WeightedBitVote(2, IndexTx(1, 2), 40, BitVote(2, {1}))]

  const TIED_FILTERED := Filtered({}, {}, {0, 1}, {1}, {}, {0, 2})

  lemma TiedMarks()
    ensures Marks(TIED_VOTES, 0, 0) && !Marks(TIED_VOTES, 0, 1) && Marks(TIED_VOTES, 1, 0) && Marks(TIED_VOTES, 1, 1)
    ensures !Marks(TIED_VOTES, 2, 0) && Marks(TIED_VOTES, 2, 1)
  {
  }

  lemma TiedBackers()
    ensures Backers(TIED_VOTES, {0}) == {0, 1} == Confirming(TIED_VOTES, Indices(3), 0)
    ensures Backers(TIED_VOTES, {1}) == {1, 2} == Confirming(TIED_VOTES, Indices(3), 1)
    ensures Backers(TIED_VOTES, {0, 1}) == {1}
  {
    TiedMarks();
    assert Indices(3) == {0, 1, 2};
    assert Backers(TIED_VOTES, {0}) == {0, 1};
    assert Backers(TIED_VOTES, {1}) == {1, 2};
    assert Backers(TIED_VOTES, {0, 1}) == {1};
  }

  lemma TiedWeights()
    ensures Positive(TIED_VOTES)
    ensures WeightOf(TIED_VOTES, Backers(TIED_VOTES, {0})) == 60 == Support(TIED_VOTES, Indices(3), 0)
    ensures WeightOf(TIED_VOTES, Backers(TIED_VOTES, {1})) == 60 == Support(TIED_VOTES, Indices(3), 1)
    ensures WeightOf(TIED_VOTES, Backers(TIED_VOTES, {0, 1})) == 20
    ensures FeeOf([1, 1], {0}) == 1 == FeeOf([1, 1], {1}) && FeeOf([1, 1], {}) == 0
  {
    TiedBackers();
    assert {} + {0} == {0} && {} + {1} == {1} && {0} + {1} == {0, 1} && {1} + {2} == {1, 2};
    WeightOfAdd(TIED_VOTES, {}, 0);
    WeightOfAdd(TIED_VOTES, {}, 1);
    WeightOfAdd(TIED_VOTES, {0}, 1);
    WeightOfAdd(TIED_VOTES, {1}, 2);
    FeeOfAdd([1, 1], {}, 0);
    FeeOfAdd([1, 1], {}, 1);
  }

  lemma TiedContested(i: nat)
    ensures Contested(TIED_VOTES, [1, 1], 100, i) <==> i == 0 || i == 1
    ensures !Uncontested(TIED_VOTES, [1, 1], i)
  {
    TiedWeights();
    assert !Marks(TIED_VOTES, 2, 0) && !Marks(TIED_VOTES, 0, 1);
  }

  /** Three votes on two contested bits, the middle one confirming both, the others one each. */
  lemma OnlyMiddleIn(votes: seq<WeightedBitVote>, fees: seq<nat>, total: nat)
    requires Positive(votes) && |votes| == 3 && forall i :: Contested(votes, fees, total, i) <==> i == 0 || i == 1
    requires Marks(votes, 0, 0) && !Marks(votes, 0, 1) && Marks(votes, 1, 0) && Marks(votes, 1, 1)
    requires !Marks(votes, 2, 0) && Marks(votes, 2, 1)
    ensures var f := FilterResult(votes, fees, total);
            && 0 !in f.inVotes && 1 in f.inVotes && 2 !in f.inVotes
            && 0 !in f.outVotes && 1 !in f.outVotes && 2 !in f.outVotes
  {
    assert Contested(votes, fees, total, 0) && Contested(votes, fees, total, 1);
    FilterVoteExactly(votes, fees, total, 0);
    FilterVoteExactly(votes, fees, total, 1);
    FilterVoteExactly(votes, fees, total, 2);
  }

  lemma TiedVotesFiltered()
    ensures var f := FilterResult(TIED_VOTES, [1, 1], 100);
            && 0 !in f.inVotes && 1 in f.inVotes && 2 !in f.inVotes
            && 0 !in f.outVotes && 1 !in f.outVotes && 2 !in f.outVotes
  {
    TiedWeights();
    forall i: nat ensures Contested(TIED_VOTES, [1, 1], 100, i) <==> i == 0 || i == 1 {
      TiedContested(i);
    }
    OnlyMiddleIn(TIED_VOTES, [1, 1], 100);
  }

  lemma TiedBitsFiltered()
    ensures var f := FilterResult(TIED_VOTES, [1, 1], 100);
            0 in f.remVotes && 2 in f.remVotes ==> 0 in f.remBits && 1 in f.remBits
  {
    TiedWeights();
    TiedContested(0);
    TiedContested(1);
    FilterBitExactly(TIED_VOTES, [1, 1], 100, 0);
    FilterBitExactly(TIED_VOTES, [1, 1], 100, 1);
    assert !Marks(TIED_VOTES, 2, 0) && !Marks(TIED_VOTES, 0, 1);
  }

  lemma ThreeAndTwo(f: Filtered, votes: seq<WeightedBitVote>, fees: seq<nat>)
    requires Partitioned(votes, fees, f) && |votes| == 3 && |fees| == 2
    requires 0 !in f.inVotes && 1 in f.inVotes && 2 !in f.inVotes
    requires 0 !in f.outVotes && 1 !in f.outVotes && 2 !in f.outVotes
    ensures 0 in f.remVotes && 2 in f.remVotes
    ensures 0 in f.remBits && 1 in f.remBits ==> f == TIED_FILTERED
  {
    assert Indices(2) == {0, 1} && Indices(3) == {0, 1, 2};
    assert 0 in Indices(3) && 2 in Indices(3) && 0 in Indices(2) && 1 in Indices(2);
  }

  lemma TiedFilters()
    ensures FilterResult(TIED_VOTES, [1, 1], 100) == TIED_FILTERED
  {
    FilterPartitions(TIED_VOTES, [1, 1], 100);
    TiedVotesFiltered();
    ThreeAndTwo(FilterResult(TIED_VOTES, [1, 1], 100), TIED_VOTES, [1, 1]);
    TiedBitsFiltered();
  }

  lemma ColumnsDiffer(votes: seq<WeightedBitVote>, bits: set<nat>, among: set<nat>, j: nat)
    requires bits == {0, 1} && j in among && Marks(votes, j, 0) && !Marks(votes, j, 1)
    ensures SameColumn(votes, bits, among, 0) == {0} && SameColumn(votes, bits, among, 1) == {1}
  {
  }

  lemma TwoBitGroups(votes: seq<WeightedBitVote>, fees: seq<nat>, bits: set<nat>, among: set<nat>, weight: nat)
    requires bits == {0, 1}
    ensures BitGroups(votes, fees, bits, among, weight)
            == {BitGroup(votes, fees, bits, among, weight, 0), BitGroup(votes, fees, bits, among, weight, 1)}
  {
  }

  /** Two open bits that some open vote tells apart make two groups. */
  lemma TwoColumns(votes: seq<WeightedBitVote>, fees: seq<nat>, total: nat, f: Filtered, p: Instance, j: nat)
    returns (b: AggregatedBit, c: AggregatedBit)
    requires Filtration(votes, fees, total, f) && p == Reduced(votes, fees, total, f) && f.remBits == {0, 1}
    requires j in f.remVotes && Marks(votes, j, 0) && !Marks(votes, j, 1)
    ensures p.bits == {b, c} && Elements(b.indexes) == {0} && Elements(c.indexes) == {1}
    ensures b.indexes[0] == 0 && c.indexes[0] == 1
    ensures b.fee == FeeOf(fees, {0}) && c.fee == FeeOf(fees, {1})
    ensures b.support == Support(votes, Indices(|votes|), 0) && c.support == Support(votes, Indices(|votes|), 1)
  {
    b := BitGroup(votes, fees, f.remBits, f.remVotes, p.assumedWeight, 0);
    c := BitGroup(votes, fees, f.remBits, f.remVotes, p.assumedWeight, 1);
    ColumnsDiffer(votes, f.remBits, f.remVotes, j);
    TwoBitGroups(votes, fees, f.remBits, f.remVotes, p.assumedWeight);
    assert b.indexes[0] in Elements(b.indexes) && c.indexes[0] in Elements(c.indexes);
    GroupSupport(votes, fees, total, f, b, 0);
    GroupSupport(votes, fees, total, f, c, 1);
  }

  lemma TwoAtLeast<T(!new)>(s: set<T>, x: T, y: T)
    requires x in s && y in s && x != y
    ensures |s| >= 2
  {
    Search.SubsetSize({x, y}, s);
  }

  lemma RowsDiffer(votes: seq<WeightedBitVote>, among: set<nat>, bits: set<nat>, i: nat, j: nat, k: nat)
    requires i in bits && j in among && Marks(votes, j, i) && !Marks(votes, k, i)
    ensures j in SameRow(votes, among, bits, j) && j !in SameRow(votes, among, bits, k)
  {
  }

  /** Two open votes that some open bit tells apart make two groups. */
  lemma TwoRows(votes: seq<WeightedBitVote>, fees: seq<nat>, total: nat, f: Filtered, p: Instance, i: nat, j: nat, k: nat)
    requires Partitioned(votes, fees, f) && p == Reduced(votes, fees, total, f)
    requires i in f.remBits && j in f.remVotes && k in f.remVotes && Marks(votes, j, i) && !Marks(votes, k, i)
    ensures |p.votes| >= 2
  {
    var v := VoteGroup(votes, fees, f.remVotes, f.remBits, p.assumedFees, j);
    var w := VoteGroup(votes, fees, f.remVotes, f.remBits, p.assumedFees, k);
    RowsDiffer(votes, f.remVotes, f.remBits, i, j, k);
    TwoAtLeast(p.votes, v, w);
  }

  /** Of two groups that differ only in their position, the list has the earlier one in front. */
  lemma EarlierInFront(p: Instance, b: AggregatedBit, c: AggregatedBit, a: set<AggregatedBit>)
    requires ProperGroups(p) && p.bits == {b, c} && b.indexes[0] < c.indexes[0] && b.fee == c.fee && b.support == c.support
    ensures TieBreaks.Comes(BitList(p, false), 0, false, a, {b}) ==> b in a
  {
    var s := BitList(p, false);
    BitsListed(p, false);
    DistinctSize(s);
    assert |p.bits| == 2 && s[0] in Elements(s) && s[1] in Elements(s);
    assert s[0] == b;
  }

  /** The first search completes, since one group alone is worth something. */
  lemma FirstCompletes(p: Instance, b: AggregatedBit, maxOperations: int)
    requires ProperGroups(p) && Majority(p, p.votes) && AmpleBudget(p, maxOperations)
    requires FeasibleBits(p, {b}) && Less(ZERO, ValueOfBits(p, {b}))
    ensures SolveBits(p, BitList(p, false), maxOperations, ZERO, false).optimal
  {
    BitsListed(p, false);
    DistinctSize(BitList(p, false));
    AmpleForBits(p, BitList(p, false), maxOperations, ZERO, false);
    SolveBitsGuaranteed(p, BitList(p, false), maxOperations, ZERO, false);
  }

  /** A tie between two groups that exclude each other goes to the one with the earlier position. */
  lemma TieGoesToEarlier(p: Instance, b: AggregatedBit, c: AggregatedBit, maxOperations: int)
    requires ProperGroups(p) && Majority(p, p.votes) && AmpleBudget(p, maxOperations) && |p.votes| >= 2
    requires p.bits == {b, c} && b.indexes[0] < c.indexes[0] && b.fee == c.fee && b.support == c.support
    requires FeasibleBits(p, {b}) && Less(ZERO, ValueOfBits(p, {b})) && !FeasibleBits(p, {b, c})
    requires ValueOfBits(p, {c}) == ValueOfBits(p, {b}) && ValueOfBits(p, {}) == ZERO
    ensures E.Solve(p, maxOperations).bits == {b}
  {
    var sol := SolveBits(p, BitList(p, false), maxOperations, ZERO, false);
    FirstCompletes(p, b, maxOperations);
    E.BitTies(p, maxOperations, {b});
    E.SolveGuaranteed(p, maxOperations);
    SoundFeasible(p, sol);
    TwoGroups(sol.bits, b, c);
    EarlierInFront(p, b, c, sol.bits);
  }

  lemma TwoGroups(bits: set<AggregatedBit>, b: AggregatedBit, c: AggregatedBit)
    requires bits <= {b, c}
    ensures bits == {} || bits == {b} || bits == {c} || bits == {b, c}
  {
    assert bits == (if b in bits then {b} else {}) + (if c in bits then {c} else {});
  }

  /** The value of each selection of two groups is that of its position. */
  lemma PositionValues(votes: seq<WeightedBitVote>, fees: seq<nat>, total: nat, f: Filtered, p: Instance, b: AggregatedBit,
                       i: nat)
    requires Filtration(votes, fees, total, f) && p == Reduced(votes, fees, total, f) && f.inBits == {}
    requires b in p.bits && Elements(b.indexes) == {i}
    ensures ValueOfBits(p, {b}) == TrueValue(votes, fees, total, {i})
    ensures FeasibleBits(p, {b}) <==> 2 * WeightOf(votes, Backers(votes, {i})) > total
  {
    AssembledSingle(f, b, i);
    ValuePreserved(votes, fees, total, f, {b});
    WeightOfAssembled(votes, fees, total, f, {b});
  }

  lemma AssembledSingle(f: Filtered, b: AggregatedBit, i: nat)
    requires f.inBits == {} && Elements(b.indexes) == {i}
    ensures Assembled(f, {b}) == {i}
  {
    assert i in BitMembers()(b);
  }

  lemma AssembledPair(f: Filtered, b: AggregatedBit, c: AggregatedBit)
    requires f.inBits == {} && Elements(b.indexes) == {0} && Elements(c.indexes) == {1}
    ensures Assembled(f, {b, c}) == {0, 1}
  {
    assert 0 in BitMembers()(b) && 1 in BitMembers()(c);
  }

  lemma EmptyIsWorthless(p: Instance)
    requires p.assumedFees == 0
    ensures ValueOfBits(p, {}) == ZERO
  {
    NoFeeNoValue(p.assumedWeight + Weight(Supporters(p.votes, {})), p.total);
  }

  /** Two attestations of the same fee and support that exclude each other, in a problem of three votes. */
  ghost predicate Tied(votes: seq<WeightedBitVote>, fees: seq<nat>, total: nat, f: Filtered)
  {
    && Filtration(votes, fees, total, f) && f.inBits == {} && f.remBits == {0, 1} && 0 in f.remVotes && 2 in f.remVotes
    && Marks(votes, 0, 0) && !Marks(votes, 0, 1) && !Marks(votes, 2, 0)
    && FeeOf(fees, {0}) == FeeOf(fees, {1}) > 0
    && Support(votes, Indices(|votes|), 0) == Support(votes, Indices(|votes|), 1)
    && WeightOf(votes, Backers(votes, {0})) == WeightOf(votes, Backers(votes, {1}))
    && 2 * WeightOf(votes, Backers(votes, {0})) > total >= 2 * WeightOf(votes, Backers(votes, {0, 1}))
  }

  /** Its reduced instance has the shape that `TieGoesToEarlier` asks for. */
  lemma TiedInstance(votes: seq<WeightedBitVote>, fees: seq<nat>, total: nat, f: Filtered, p: Instance)
    returns (b: AggregatedBit, c: AggregatedBit)
    requires Tied(votes, fees, total, f) && p == Reduced(votes, fees, total, f)
    ensures p.bits == {b, c} && b.indexes[0] < c.indexes[0] && b.fee == c.fee && b.support == c.support
    ensures FeasibleBits(p, {b}) && Less(ZERO, ValueOfBits(p, {b})) && !FeasibleBits(p, {b, c})
    ensures ValueOfBits(p, {c}) == ValueOfBits(p, {b}) && ValueOfBits(p, {}) == ZERO
    ensures |p.votes| >= 2 && Assembled(f, {b}) == {0}
  {
    b, c := TwoColumns(votes, fees, total, f, p, 0);
    TwoRows(votes, fees, total, f, p, 0, 0, 2);
    PositionValues(votes, fees, total, f, p, b, 0);
    PositionValues(votes, fees, total, f, p, c, 1);
    AssembledSingle(f, b, 0);
    PairInfeasible(votes, fees, total, f, p, b, c);
    TiedValues(votes, fees, total, f);
    EmptyIsWorthless(p);
  }

  lemma PairInfeasible(votes: seq<WeightedBitVote>, fees: seq<nat>, total: nat, f: Filtered, p: Instance, b: AggregatedBit,
                       c: AggregatedBit)
    requires Filtration(votes, fees, total, f) && p == Reduced(votes, fees, total, f) && f.inBits == {}
    requires b in p.bits && c in p.bits && Elements(b.indexes) == {0} && Elements(c.indexes) == {1}
    ensures 2 * WeightOf(votes, Backers(votes, {0, 1})) <= total ==> !FeasibleBits(p, {b, c})
  {
    AssembledPair(f, b, c);
    WeightOfAssembled(votes, fees, total, f, {b, c});
  }

  lemma TiedValues(votes: seq<WeightedBitVote>, fees: seq<nat>, total: nat, f: Filtered)
    requires Tied(votes, fees, total, f)
    ensures Less(ZERO, TrueValue(votes, fees, total, {0}))
    ensures TrueValue(votes, fees, total, {0}) == TrueValue(votes, fees, total, {1})
  {
    var fee, weight := FeeOf(fees, {0}), WeightOf(votes, Backers(votes, {0}));
    PositiveValue(fee, weight, total);
    CalcValueSame(fee, weight, FeeOf(fees, {1}), WeightOf(votes, Backers(votes, {1})), total);
  }

  /** Such a tie goes to the first attestation. */
  lemma TieGoesToFirst(votes: seq<WeightedBitVote>, fees: seq<nat>, total: nat, maxOperations: int)
    requires Positive(votes)
    ensures Tied(votes, fees, total, FilterResult(votes, fees, total))
            && AmpleBudget(E.InstanceOf(votes, fees, total), maxOperations)
            ==> E.Consensus(votes, fees, total, maxOperations) == Some({0})
  {
    var f, p := E.Unfolded(votes, fees, total, maxOperations);
    if Tied(votes, fees, total, f) && AmpleBudget(p, maxOperations) {
      var b, c := TiedInstance(votes, fees, total, f, p);
      WeightSubset(Supporters(p.votes, {b}), p.votes);
      TieGoesToEarlier(p, b, c, maxOperations);
    }
  }

  lemma TiedVotesTie()
    ensures Positive(TIED_VOTES) && Tied(TIED_VOTES, [1, 1], 100, FilterResult(TIED_VOTES, [1, 1], 100))
  {
    TiedMarks();
    TiedWeights();
    TiedFilters();
    FilterIsFiltration(TIED_VOTES, [1, 1], 100);
  }

  /** Both attestations are worth the same, and every client confirms the first. */
  lemma TieDecided()
    ensures E.Consensus(TIED_VOTES, [1, 1], 100, 20_000_000) == Some({0})
  {
    TiedVotesTie();
    SmallIsAmple(TIED_VOTES, [1, 1], 100);
    TieGoesToFirst(TIED_VOTES, [1, 1], 100, 20_000_000);
  }

  // ---------------------------------------------------------------- one voter, two submit addresses

  /** Two submit addresses of one voter, who holds all the weight. */
  const SHARED_VOTER := C.VoterSet(map[1 := 9, 2 := 9], map[9 := C.Voter(0, 40_000)], 40_000)

  lemma SharedWeight()
    ensures C.Totalled(SHARED_VOTER) && !C.Injective(SHARED_VOTER)
    ensures C.SubmittableWeight(SHARED_VOTER) == 80_000
  {
    var none: set<C.Address> := {};
    assert SHARED_VOTER.voters.Keys == none + {9} && SHARED_VOTER.submitToSigning.Keys == none + {1} + {2};
    SumAdd(none, C.VoterWeight(SHARED_VOTER), 9);
    SumAdd(none, C.SenderWeight(SHARED_VOTER), 1);
    SumAdd(none + {1}, C.SenderWeight(SHARED_VOTER), 2);
  }

  /** The voter is counted twice: more than the total weight is stored, and more than 16 bits can sum. */
  lemma CountedTwice(n: nat)
    requires n < 65536
    ensures var b := C.Run(SHARED_VOTER, n, C.EverybodyVotes(SHARED_VOTER, n));
            && C.Listed(b.senders, b.ballots)
            && Submitted(C.Votes(b)) > SHARED_VOTER.totalWeight && Submitted(C.Votes(b)) > MAX_UINT16
  {
    SharedWeight();
    C.EverybodyStored(SHARED_VOTER, n);
  }

  // ---------------------------------------------------------------- a clock that reads almost nothing

  /** With a local clock of five seconds, round 0 is announced long before its choose phase ends. */
  lemma EarlyAnnouncement()
    ensures var c := T.Timing(1000, 90, 45);
            var s := R.Run(c, R.Start(c, 0), [R.Reading(0, 5, false)]);
            s.sent == [R.Event(0, 0, 5)] && !R.Justified(c, s.sent[0]) && s.nextRoundID == 1
  {
    var c := T.Timing(1000, 90, 45);
    var readings := [R.Reading(0, 5, false)];
    assert readings[..0] == [];
    assert R.Run(c, R.Start(c, 0), readings) == R.Attempt(c, R.Start(c, 0), readings[0]);
  }
}
