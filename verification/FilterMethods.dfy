/** Filtering as written: one record updated in place by passes over maps in arbitrary order. */
module FilterMethods {
  import opened Sorting
  import opened Sums
  import opened Ballots
  import opened Filtering

  method SupportOf(bitVotes: seq<WeightedBitVote>, among: set<nat>, guaranteed: nat, i: nat) returns (support: nat)
    requires among <= Indices(|bitVotes|) && guaranteed + WeightOf(bitVotes, among) <= MAX_UINT16
    ensures support == guaranteed + Support(bitVotes, among, i)
  {
    support := guaranteed;
    var todo := among;
    while todo != {}
      invariant todo <= among
      invariant support == guaranteed + Support(bitVotes, among - todo, i)
      decreases todo
    {
      var j :| j in todo;
      SupportStep(bitVotes, among, todo, j, i);
      if i in bitVotes[j].bitVote.bitVector {
        support := Add16(support, bitVotes[j].weight);
      }
      todo := todo - {j};
    }
    assert among - todo == among;
  }

  lemma SupportStep(bitVotes: seq<WeightedBitVote>, among: set<nat>, todo: set<nat>, j: nat, i: nat)
    requires j in todo && todo <= among && among <= Indices(|bitVotes|)
    ensures Support(bitVotes, among - (todo - {j}), i)
            == Support(bitVotes, among - todo, i) + (if Marks(bitVotes, j, i) then bitVotes[j].weight else 0)
    ensures Support(bitVotes, among - (todo - {j}), i) <= WeightOf(bitVotes, among)
  {
    var before := Confirming(bitVotes, among - todo, i);
    var after := Confirming(bitVotes, among - (todo - {j}), i);
    if Marks(bitVotes, j, i) {
      assert after == before + {j};
      WeightOfAdd(bitVotes, before, j);
    } else {
      assert after == before;
    }
    WeightOfSubset(bitVotes, after, among);
  }

  /** Whether vote `i` is all ones, or (if allowed) all zeros, on `bits`. */
  method Classify(bitVotes: seq<WeightedBitVote>, i: nat, bits: set<nat>, zerosAllowed: bool)
    returns (allOnes: bool, allZeros: bool)
    requires i < |bitVotes|
    ensures allOnes <==> forall j :: j in bits ==> Marks(bitVotes, i, j)
    ensures allZeros <==> zerosAllowed && forall j :: j in bits ==> !Marks(bitVotes, i, j)
  {
    allOnes, allZeros := true, zerosAllowed;
    var todo := bits;
    while todo != {}
      invariant todo <= bits
      invariant allOnes <==> forall j :: j in bits - todo ==> Marks(bitVotes, i, j)
      invariant allZeros <==> zerosAllowed && forall j :: j in bits - todo ==> !Marks(bitVotes, i, j)
      decreases todo
    {
      if !allOnes && !allZeros {
        return;
      }
      var j :| j in todo;
      assert bits - (todo - {j}) == (bits - todo) + {j};
      if allOnes && j !in bitVotes[i].bitVote.bitVector {
        allOnes := false;
      }
      if allZeros && j in bitVotes[i].bitVote.bitVector {
        allZeros := false;
      }
      todo := todo - {j};
    }
  }

  method ConfirmedByAll(bitVotes: seq<WeightedBitVote>, among: set<nat>, i: nat) returns (full: bool)
    requires among <= Indices(|bitVotes|)
    ensures full <==> forall j :: j in among ==> Marks(bitVotes, j, i)
  {
    full := true;
    var todo := among;
    while todo != {}
      invariant todo <= among && full
      invariant forall j :: j in among - todo ==> Marks(bitVotes, j, i)
      decreases todo
    {
      var j :| j in todo;
      if i !in bitVotes[j].bitVote.bitVector {
        return false;
      }
      todo := todo - {j};
    }
  }

  /** `list` holds `base` and those elements of `whole` that were already visited. */
  ghost predicate Taken(list: seq<nat>, base: set<nat>, whole: set<nat>, all: set<nat>, todo: set<nat>)
  {
    Elements(list) == base + whole * (all - todo)
  }

  /** Visiting `i`: it is taken exactly if it belongs to `whole`. */
  lemma Visit(list: seq<nat>, base: set<nat>, whole: set<nat>, all: set<nat>, todo: set<nat>, i: nat)
    requires todo <= all && i in todo && Taken(list, base, whole, all, todo)
    ensures i !in whole * (all - todo)
    ensures i in whole ==> whole * (all - (todo - {i})) == whole * (all - todo) + {i}
    ensures i !in whole ==> whole * (all - (todo - {i})) == whole * (all - todo)
    ensures i in whole ==> Taken(list + [i], base, whole, all, todo - {i})
    ensures i !in whole ==> Taken(list, base, whole, all, todo - {i})
  {
    ElementsAppend(list, i);
    if i in whole {
      assert whole * (all - (todo - {i})) == whole * (all - todo) + {i};
    } else {
      assert whole * (all - (todo - {i})) == whole * (all - todo);
    }
  }

  /** `rest` is what remains of `all` after the visited elements of `s` and `t` were taken out. */
  ghost predicate Left(rest: set<nat>, s: set<nat>, t: set<nat>, all: set<nat>, todo: set<nat>)
  {
    rest == all - s * (all - todo) - t * (all - todo)
  }

  lemma LeftStep(rest: set<nat>, s: set<nat>, t: set<nat>, all: set<nat>, todo: set<nat>, i: nat)
    requires todo <= all && i in todo && Left(rest, s, t, all, todo)
    ensures i in s + t ==> Left(rest - {i}, s, t, all, todo - {i})
    ensures i !in s + t ==> Left(rest, s, t, all, todo - {i})
  {
    assert all - (todo - {i}) == (all - todo) + {i};
  }

  lemma WeighVisited(bitVotes: seq<WeightedBitVote>, whole: set<nat>, all: set<nat>, todo: set<nat>, i: nat, start: nat)
    requires todo <= all && i in todo && i in whole && all <= Indices(|bitVotes|)
    requires start + WeightOf(bitVotes, all) <= MAX_UINT16
    ensures Add16(start + WeightOf(bitVotes, whole * (all - todo)), bitVotes[i].weight)
            == start + WeightOf(bitVotes, whole * (all - (todo - {i})))
  {
    assert whole * (all - (todo - {i})) == whole * (all - todo) + {i};
    WeightOfAdd(bitVotes, whole * (all - todo), i);
    WeightOfSubset(bitVotes, whole * (all - (todo - {i})), all);
  }

  lemma NothingVisited(s: set<nat>, t: set<nat>, all: set<nat>, list: seq<nat>, list': seq<nat>)
    ensures s * (all - all) == {} && t * (all - all) == {}
    ensures Taken(list, Elements(list), s, all, all) && Taken(list', Elements(list'), t, all, all)
    ensures Left(all, s, t, all, all)
  {
    assert s * (all - all) == {} && t * (all - all) == {};
  }

  lemma AllVisited(list: seq<nat>, base: set<nat>, whole: set<nat>, all: set<nat>)
    requires whole <= all && Taken(list, base, whole, all, {})
    ensures Elements(list) == base + whole && whole * (all - {}) == whole
  {
    assert whole * (all - {}) == whole;
  }

  /** State of the pass over votes: what was taken in, what was thrown out, what is left, and the weight taken in. */
  datatype VotePass = VotePass(inVotes: seq<nat>, outVotes: seq<nat>, rest: set<nat>, weight: nat)

  /** From `start`, the pass has visited all of `votes` but `todo`. */
  ghost predicate Passed(bitVotes: seq<WeightedBitVote>, start: VotePass, now: VotePass, ones: set<nat>, zeros: set<nat>,
                         votes: set<nat>, todo: set<nat>)
  {
    && Taken(now.inVotes, Elements(start.inVotes), ones, votes, todo)
    && Taken(now.outVotes, Elements(start.outVotes), zeros, votes, todo)
    && Left(now.rest, ones, zeros, votes, todo)
    && now.weight == start.weight + WeightOf(bitVotes, ones * (votes - todo))
  }

  /** The pass visits vote `i`. */
  function PassVote(p: VotePass, isOnes: bool, isZeros: bool, i: nat, weight: nat): VotePass
  {
    if isOnes then VotePass(p.inVotes + [i], p.outVotes, p.rest - {i}, Add16(p.weight, weight))
    else if isZeros then VotePass(p.inVotes, p.outVotes + [i], p.rest - {i}, p.weight)
    else p
  }

  lemma PassStep(bitVotes: seq<WeightedBitVote>, start: VotePass, now: VotePass, ones: set<nat>, zeros: set<nat>,
                 votes: set<nat>, todo: set<nat>, i: nat)
    requires Passed(bitVotes, start, now, ones, zeros, votes, todo) && todo <= votes && i in todo && ones !! zeros
    requires votes <= Indices(|bitVotes|) && start.weight + WeightOf(bitVotes, votes) <= MAX_UINT16
    ensures Passed(bitVotes, start, PassVote(now, i in ones, i in zeros, i, bitVotes[i].weight), ones, zeros, votes,
                   todo - {i})
  {
    Visit(now.inVotes, Elements(start.inVotes), ones, votes, todo, i);
    Visit(now.outVotes, Elements(start.outVotes), zeros, votes, todo, i);
    LeftStep(now.rest, ones, zeros, votes, todo, i);
    if i in ones {
      WeighVisited(bitVotes, ones, votes, todo, i, start.weight);
    }
  }

  lemma PassStarts(bitVotes: seq<WeightedBitVote>, start: VotePass, ones: set<nat>, zeros: set<nat>)
    ensures Passed(bitVotes, start, start, ones, zeros, start.rest, start.rest)
  {
    NothingVisited(ones, zeros, start.rest, start.inVotes, start.outVotes);
  }

  lemma PassEnds(bitVotes: seq<WeightedBitVote>, start: VotePass, now: VotePass, ones: set<nat>, zeros: set<nat>,
                 votes: set<nat>)
    requires Passed(bitVotes, start, now, ones, zeros, votes, {}) && ones <= votes && zeros <= votes
    ensures Elements(now.inVotes) == Elements(start.inVotes) + ones
    ensures Elements(now.outVotes) == Elements(start.outVotes) + zeros
    ensures now.rest == votes - ones - zeros && now.weight == start.weight + WeightOf(bitVotes, ones)
  {
    AllVisited(now.inVotes, Elements(start.inVotes), ones, votes);
    AllVisited(now.outVotes, Elements(start.outVotes), zeros, votes);
  }

  class FilterResults {
    var alwaysInBits: seq<nat>
    var alwaysOutBits: seq<nat>
    var remainingBits: set<nat>
    var guaranteedFees: nat

    var alwaysInVotes: seq<nat>
    var alwaysOutVotes: seq<nat>
    var remainingVotes: set<nat>
    var guaranteedWeight: nat
    var remainingWeight: nat

    ghost function View(): Filtered
      reads this
    {
      Filtered(Elements(alwaysInBits), Elements(alwaysOutBits), remainingBits,
               Elements(alwaysInVotes), Elements(alwaysOutVotes), remainingVotes)
    }

    ghost predicate Fits(bitVotes: seq<WeightedBitVote>, fees: seq<nat>)
      reads this
    {
      && remainingBits <= Indices(|fees|) && remainingVotes <= Indices(|bitVotes|)
      && guaranteedWeight + WeightOf(bitVotes, remainingVotes) <= MAX_UINT16
    }

    constructor (bits: set<nat>, votes: set<nat>, weight: nat)
      ensures View() == Filtered({}, {}, bits, {}, {}, votes)
      ensures guaranteedFees == 0 && guaranteedWeight == 0 && remainingWeight == weight
    {
      alwaysInBits, alwaysOutBits, remainingBits, guaranteedFees := [], [], bits, 0;
      alwaysInVotes, alwaysOutVotes, remainingVotes := [], [], votes;
      guaranteedWeight, remainingWeight := 0, weight;
    }

    /** Moves the bits that all the weight backs, or at most half of it. */
    method FilterBits(bitVotes: seq<WeightedBitVote>, fees: seq<nat>, totalWeight: nat)
      requires Fits(bitVotes, fees)
      modifies this`alwaysInBits, this`alwaysOutBits, this`remainingBits, this`guaranteedFees
      ensures var moved := Unanimous(bitVotes, old(remainingBits), remainingVotes, guaranteedWeight, remainingWeight);
              var dropped := Hopeless(bitVotes, old(remainingBits), remainingVotes, guaranteedWeight, totalWeight)
                             - moved;
              && View() == old(View()).(inBits := old(View()).inBits + moved,
                                        outBits := old(View()).outBits + dropped,
                                        remBits := old(remainingBits) - moved - dropped)
              && guaranteedFees == old(guaranteedFees) + FeeOf(fees, moved)
    {
      var bits := remainingBits;
      ghost var moved := Unanimous(bitVotes, bits, remainingVotes, guaranteedWeight, remainingWeight);
      ghost var dropped := Hopeless(bitVotes, bits, remainingVotes, guaranteedWeight, totalWeight) - moved;
      var todo := bits;
      NothingVisited(moved, dropped, bits, alwaysInBits, alwaysOutBits);
      while todo != {}
        invariant todo <= bits
        invariant Taken(alwaysInBits, Elements(old(alwaysInBits)), moved, bits, todo)
        invariant Taken(alwaysOutBits, Elements(old(alwaysOutBits)), dropped, bits, todo)
        invariant Left(remainingBits, moved, dropped, bits, todo)
        invariant guaranteedFees == old(guaranteedFees) + FeeOf(fees, moved * (bits - todo))
        decreases todo
      {
        var i :| i in todo;
        var support := SupportOf(bitVotes, remainingVotes, guaranteedWeight, i);
        assert (support == remainingWeight <==> i in moved);
        assert (support != remainingWeight && support <= totalWeight / 2 <==> i in dropped);
        Visit(alwaysInBits, Elements(old(alwaysInBits)), moved, bits, todo, i);
        Visit(alwaysOutBits, Elements(old(alwaysOutBits)), dropped, bits, todo, i);
        LeftStep(remainingBits, moved, dropped, bits, todo, i);
        if support == remainingWeight {
          FeeOfAdd(fees, moved * (bits - todo), i);
          alwaysInBits := alwaysInBits + [i];
          guaranteedFees := guaranteedFees + fees[i];
          remainingBits := remainingBits - {i};
        } else if support <= totalWeight / 2 {
          alwaysOutBits := alwaysOutBits + [i];
          remainingBits := remainingBits - {i};
        }
        todo := todo - {i};
      }
      AllVisited(alwaysInBits, Elements(old(alwaysInBits)), moved, bits);
      AllVisited(alwaysOutBits, Elements(old(alwaysOutBits)), dropped, bits);
    }

    /** Moves the bits that every remaining vote confirms. */
    method FilterBitsOnes(bitVotes: seq<WeightedBitVote>, fees: seq<nat>)
      requires Fits(bitVotes, fees)
      modifies this`alwaysInBits, this`remainingBits, this`guaranteedFees
      ensures var moved := Full(bitVotes, old(remainingBits), remainingVotes);
              && View() == old(View()).(inBits := old(View()).inBits + moved, remBits := old(remainingBits) - moved)
              && guaranteedFees == old(guaranteedFees) + FeeOf(fees, moved)
    {
      var bits := remainingBits;
      ghost var moved := Full(bitVotes, bits, remainingVotes);
      var todo := bits;
      while todo != {}
        invariant todo <= bits
        invariant Taken(alwaysInBits, Elements(old(alwaysInBits)), moved, bits, todo)
        invariant remainingBits == bits - moved * (bits - todo)
        invariant guaranteedFees == old(guaranteedFees) + FeeOf(fees, moved * (bits - todo))
        decreases todo
      {
        var i :| i in todo;
        var full := ConfirmedByAll(bitVotes, remainingVotes, i);
        Visit(alwaysInBits, Elements(old(alwaysInBits)), moved, bits, todo, i);
        if full {
          FeeOfAdd(fees, moved * (bits - todo), i);
          alwaysInBits := alwaysInBits + [i];
          guaranteedFees := guaranteedFees + fees[i];
          remainingBits := remainingBits - {i};
        }
        todo := todo - {i};
      }
      AllVisited(alwaysInBits, Elements(old(alwaysInBits)), moved, bits);
    }

    /** The last pass, run only if some vote was moved. */
    method LastPass(bitVotes: seq<WeightedBitVote>, fees: seq<nat>, ghost first: set<nat>, ghost open: set<nat>,
                    ghost ones: set<nat>, ghost rest: set<nat>)
      requires Elements(alwaysInBits) == first && remainingBits == open && remainingVotes == rest
      requires first !! open && first + open <= Indices(|fees|) && ones !! rest && ones + rest <= Indices(|bitVotes|)
      requires guaranteedFees == FeeOf(fees, first) && guaranteedWeight == WeightOf(bitVotes, ones)
      requires Submitted(bitVotes) <= MAX_UINT16
      modifies this`alwaysInBits, this`remainingBits, this`guaranteedFees
      ensures var agreed := Full(bitVotes, open, rest);
              && View() == old(View()).(inBits := first + agreed, remBits := open - agreed)
              && guaranteedFees == FeeOf(fees, first + agreed)
    {
      WeightLeft(bitVotes, ones, rest);
      FeesDisjoint(fees, first, Full(bitVotes, open, rest));
      FilterBitsOnes(bitVotes, fees);
    }

    ghost function Pass(): VotePass
      reads this
    {
      VotePass(alwaysInVotes, alwaysOutVotes, remainingVotes, guaranteedWeight)
    }

    /** Moves one vote if it is constant on the remaining bits. */
    method SettleVote(bitVotes: seq<WeightedBitVote>, i: nat, ghost votes: set<nat>, ghost ones: set<nat>,
                      ghost zeros: set<nat>) returns (moved: bool)
      requires i in votes && i < |bitVotes|
      requires ones == AllOnes(bitVotes, votes, remainingBits)
      requires zeros == if alwaysInBits == [] then AllZeros(bitVotes, votes, remainingBits) - ones else {}
      modifies this`alwaysInVotes, this`alwaysOutVotes, this`remainingVotes, this`guaranteedWeight
      ensures moved <==> i in ones + zeros
      ensures Pass() == PassVote(old(Pass()), i in ones, i in zeros, i, bitVotes[i].weight)
    {
      moved := false;
      var allOnes, allZeros := Classify(bitVotes, i, remainingBits, alwaysInBits == []);
      if allOnes {
        moved := true;
        alwaysInVotes := alwaysInVotes + [i];
        guaranteedWeight := Add16(guaranteedWeight, bitVotes[i].weight);
        remainingVotes := remainingVotes - {i};
      } else if allZeros {
        moved := true;
        alwaysOutVotes := alwaysOutVotes + [i];
        remainingVotes := remainingVotes - {i};
      }
    }

    /** Moves the votes that are constant on the remaining bits; all-zero votes only while no bit is in. */
    method FilterVotes(bitVotes: seq<WeightedBitVote>, ghost fees: seq<nat>) returns (somethingChanged: bool)
      requires Fits(bitVotes, fees)
      modifies this`alwaysInVotes, this`alwaysOutVotes, this`remainingVotes, this`guaranteedWeight
      ensures var ones := AllOnes(bitVotes, old(remainingVotes), remainingBits);
              var zeros := if alwaysInBits == [] then AllZeros(bitVotes, old(remainingVotes), remainingBits) - ones
                           else {};
              && View() == old(View()).(inVotes := old(View()).inVotes + ones,
                                        outVotes := old(View()).outVotes + zeros,
                                        remVotes := old(remainingVotes) - ones - zeros)
              && guaranteedWeight == old(guaranteedWeight) + WeightOf(bitVotes, ones)
              && (somethingChanged <==> ones + zeros != {})
    {
      somethingChanged := false;
      var votes := remainingVotes;
      ghost var ones := AllOnes(bitVotes, votes, remainingBits);
      ghost var zeros := if alwaysInBits == [] then AllZeros(bitVotes, votes, remainingBits) - ones else {};
      ghost var start := Pass();
      var todo := votes;
      PassStarts(bitVotes, start, ones, zeros);
      while todo != {}
        invariant todo <= votes && Passed(bitVotes, start, Pass(), ones, zeros, votes, todo)
        invariant somethingChanged <==> (ones + zeros) * (votes - todo) != {}
        decreases todo
      {
        var i :| i in todo;
        PassStep(bitVotes, start, Pass(), ones, zeros, votes, todo, i);
        VisitAny(ones + zeros, votes, todo, i);
        var moved := SettleVote(bitVotes, i, votes, ones, zeros);
        somethingChanged := somethingChanged || moved;
        todo := todo - {i};
      }
      PassEnds(bitVotes, start, Pass(), ones, zeros, votes);
      assert (ones + zeros) * (votes - todo) == ones + zeros;
    }
  }

  lemma VisitAny(whole: set<nat>, all: set<nat>, todo: set<nat>, i: nat)
    requires todo <= all && i in todo
    ensures whole * (all - (todo - {i})) != {} <==> whole * (all - todo) != {} || i in whole
  {
    assert all - (todo - {i}) == (all - todo) + {i};
    if i in whole {
      assert i in whole * (all - (todo - {i}));
    } else {
      assert whole * (all - (todo - {i})) == whole * (all - todo);
    }
  }

  method TotalWeight(bitVotes: seq<WeightedBitVote>) returns (weight: nat)
    requires Submitted(bitVotes) <= MAX_UINT16
    ensures weight == Submitted(bitVotes)
  {
    weight := 0;
    for i := 0 to |bitVotes|
      invariant weight == WeightOf(bitVotes, Indices(i))
    {
      assert Indices(i + 1) == Indices(i) + {i};
      WeightOfAdd(bitVotes, Indices(i), i);
      WeightOfSubset(bitVotes, Indices(i + 1), Indices(|bitVotes|));
      weight := Add16(weight, bitVotes[i].weight);
    }
  }

  method FirstPass(bitVotes: seq<WeightedBitVote>, fees: seq<nat>, totalWeight: nat) returns (results: FilterResults)
    requires Submitted(bitVotes) <= MAX_UINT16
    ensures fresh(results)
    ensures results.View() == Filtered(FirstIn(bitVotes, fees), FirstOut(bitVotes, fees, totalWeight),
                                       Open(bitVotes, fees, totalWeight), {}, {}, Indices(|bitVotes|))
    ensures results.guaranteedFees == FeeOf(fees, FirstIn(bitVotes, fees)) && results.guaranteedWeight == 0
    ensures results.alwaysInBits == [] <==> FirstIn(bitVotes, fees) == {}
  {
    var weight := TotalWeight(bitVotes);
    results := new FilterResults(Indices(|fees|), Indices(|bitVotes|), weight);
    results.FilterBits(bitVotes, fees, totalWeight);
    EmptyList(results.alwaysInBits);
    assert results.View().inBits == FirstIn(bitVotes, fees);
    assert results.View().outBits == FirstOut(bitVotes, fees, totalWeight);
  }

  /** The three passes leave exactly `FilterResult`, for every iteration order of the maps. */
  method Filter(bitVotes: seq<WeightedBitVote>, fees: seq<nat>, totalWeight: nat) returns (results: FilterResults)
    requires Submitted(bitVotes) <= MAX_UINT16
    ensures fresh(results)
    ensures results.View() == FilterResult(bitVotes, fees, totalWeight)
    ensures results.guaranteedFees == FeeOf(fees, results.View().inBits)
    ensures results.guaranteedWeight == WeightOf(bitVotes, results.View().inVotes)
  {
    results := FirstPass(bitVotes, fees, totalWeight);
    ghost var first, open := FirstIn(bitVotes, fees), Open(bitVotes, fees, totalWeight);
    var changed := results.FilterVotes(bitVotes, fees);
    ghost var ones, zeros := Ones(bitVotes, fees, totalWeight), Zeros(bitVotes, fees, totalWeight);
    ghost var rest := Indices(|bitVotes|) - ones - zeros;
    assert {} + ones == ones && {} + zeros == zeros;
    assert results.View() == Filtered(first, FirstOut(bitVotes, fees, totalWeight), open, ones, zeros, rest);
    if changed {
      results.LastPass(bitVotes, fees, first, open, ones, rest);
    }
  }

  lemma EmptyList(s: seq<nat>)
    ensures s == [] <==> Elements(s) == {}
  {
    if s != [] {
      assert s[0] in Elements(s);
    }
  }

  lemma WeightLeft(bitVotes: seq<WeightedBitVote>, ones: set<nat>, rest: set<nat>)
    requires ones !! rest && ones + rest <= Indices(|bitVotes|)
    ensures WeightOf(bitVotes, ones) + WeightOf(bitVotes, rest) <= Submitted(bitVotes)
  {
    SumUnion(ones, rest, WeightAt(bitVotes));
    WeightOfSubset(bitVotes, ones + rest, Indices(|bitVotes|));
  }

  lemma FeesDisjoint(fees: seq<nat>, s: set<nat>, t: set<nat>)
    requires s !! t
    ensures FeeOf(fees, s + t) == FeeOf(fees, s) + FeeOf(fees, t)
  {
    SumUnion(s, t, FeeAt(fees));
  }
}
