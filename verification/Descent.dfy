/** The first path a search follows. If fees are guaranteed, every leaf is worth something, so a search started from zero
    returns nothing exactly if the budget is spent before the end of that path. */
module Descent {
  import opened Sorting
  import opened Values
  import opened Instances
  import opened Search
  import opened Solver
  import B = BitsSearch
  import V = VotesSearch

  lemma PositiveValue(fee: nat, weight: nat, total: nat)
    requires fee > 0 && weight > 0
    ensures Less(ZERO, CalcValue(fee, weight, total))
  {
    TimesStrict(fee, 0, weight);
  }

  // ---------------------------------------------------------------- bits

  /** The first path from a node entered after `ops` operations ends before the budget does. */
  ghost predicate BitsDescend(info: ProcessInfo<AggregatedBit>, assumedWeight: nat, ops: nat, branch: nat,
                              included: set<AggregatedVote>)
    requires branch <= |info.items|
    decreases |info.items| - branch
  {
    if branch == |info.items| then true
    else if ops + 1 >= info.maxOperations then false
    else if info.excludeFirst then BitsDescend(info, assumedWeight, ops + 2, branch + 1, included)
    else
      var kept := Supporters(included, {info.items[branch]});
      if assumedWeight + Weight(kept) > info.totalWeight / 2 then
        BitsDescend(info, assumedWeight, ops + 1 + |included| / 2, branch + 1, kept)
      else
        BitsDescend(info, assumedWeight, ops + 2 + |included| / 2, branch + 1, included)
  }

  /** Something was found exactly if `descends`; otherwise the budget is spent and the bound is still zero. */
  ghost predicate Decided(descends: bool, r: (Option<Partial>, Status), maxOperations: int)
  {
    && (r.0.Some? <==> descends)
    && (r.0.None? ==> r.1.ops >= maxOperations && r.1.bound == ZERO)
  }

  lemma {:induction false} BitsDecided(info: ProcessInfo<AggregatedBit>, assumedWeight: nat, st: Status, branch: nat,
                                       included: set<AggregatedVote>, fee: nat)
    requires branch <= |info.items| && st.bound == ZERO && fee > 0
    requires assumedWeight + Weight(included) > info.totalWeight / 2
    ensures Decided(BitsDescend(info, assumedWeight, st.ops, branch, included),
                    B.Branch(info, assumedWeight, st, branch, included, fee), info.maxOperations)
    decreases |info.items| - branch
  {
    var here := st.(ops := st.ops + 1);
    PositiveValue(fee + Fees(From(info.items, branch)), assumedWeight + Weight(included), info.totalWeight);
    if branch < |info.items| && here.ops < info.maxOperations {
      if info.excludeFirst {
        BitsDecided(info, assumedWeight, here.Tick(1), branch + 1, included, fee);
        var without := B.Branch(info, assumedWeight, here.Tick(1), branch + 1, included, fee);
        if without.0.None? {
          BitsIncludeDecided(info, assumedWeight, without.1, branch, included, fee);
        }
      } else {
        BitsIncludeDecided(info, assumedWeight, here, branch, included, fee);
        var with := B.Include(info, assumedWeight, here, branch, included, fee);
        if with.0.None? {
          BitsDecided(info, assumedWeight, with.1.Tick(1), branch + 1, included, fee);
        }
      }
    }
  }

  lemma {:induction false} BitsIncludeDecided(info: ProcessInfo<AggregatedBit>, assumedWeight: nat, st: Status, branch: nat,
                                              included: set<AggregatedVote>, fee: nat)
    requires branch < |info.items| && st.bound == ZERO && fee > 0
    ensures var kept := Supporters(included, {info.items[branch]});
            var r := B.Include(info, assumedWeight, st, branch, included, fee);
            if assumedWeight + Weight(kept) > info.totalWeight / 2 then
              Decided(BitsDescend(info, assumedWeight, st.ops + |included| / 2, branch + 1, kept), r, info.maxOperations)
            else r == (None, st.Tick(|included| / 2))
    decreases |info.items| - branch, 0
  {
    var bit := info.items[branch];
    var kept := Supporters(included, {bit});
    if assumedWeight + Weight(kept) > info.totalWeight / 2 {
      BitsDecided(info, assumedWeight, st.Tick(|included| / 2), branch + 1, kept, fee + bit.fee);
    }
  }

  /** Dropping every bit costs two operations a bit. */
  lemma {:induction false} DropAll(info: ProcessInfo<AggregatedBit>, assumedWeight: nat, ops: nat, branch: nat,
                                   included: set<AggregatedVote>)
    requires branch <= |info.items| && info.excludeFirst
    ensures BitsDescend(info, assumedWeight, ops, branch, included)
            <==> branch == |info.items| || ops + 2 * (|info.items| - branch) <= info.maxOperations
    decreases |info.items| - branch
  {
    if branch < |info.items| {
      DropAll(info, assumedWeight, ops + 2, branch + 1, included);
    }
  }

  // ---------------------------------------------------------------- votes

  ghost predicate VotesDescend(info: ProcessInfo<AggregatedVote>, ops: nat, branch: nat, included: set<AggregatedBit>,
                               weight: nat)
    requires branch <= |info.items|
    decreases |info.items| - branch
  {
    if branch == |info.items| then true
    else if ops + 1 >= info.maxOperations then false
    else if info.excludeFirst && weight + Weight(From(info.items, branch + 1)) > info.totalWeight / 2 then
      VotesDescend(info, ops + 1, branch + 1, included, weight)
    else
      var vote := info.items[branch];
      VotesDescend(info, ops + 1 + V.Cost(included, vote), branch + 1, Common(included, {vote}), weight + vote.weight)
  }

  lemma {:induction false} VotesDecided(info: ProcessInfo<AggregatedVote>, assumedFees: nat, st: Status, branch: nat,
                                        included: set<AggregatedBit>, weight: nat)
    requires branch <= |info.items| && Distinct(info.items) && st.bound == ZERO && assumedFees > 0
    requires weight + Weight(From(info.items, branch)) > info.totalWeight / 2
    ensures Decided(VotesDescend(info, st.ops, branch, included, weight),
                    V.Branch(info, assumedFees, st, branch, included, weight), info.maxOperations)
    decreases |info.items| - branch
  {
    var here := st.(ops := st.ops + 1);
    PositiveValue(assumedFees + Fees(included), weight + Weight(From(info.items, branch)), info.totalWeight);
    if branch < |info.items| && here.ops < info.maxOperations {
      if info.excludeFirst {
        VotesExcludeDecided(info, assumedFees, here, branch, included, weight);
        var without := V.Exclude(info, assumedFees, here, branch, included, weight);
        if without.0.None? {
          VotesIncludeDecided(info, assumedFees, without.1, branch, included, weight);
        }
      } else {
        VotesIncludeDecided(info, assumedFees, here, branch, included, weight);
        var with := V.Include(info, assumedFees, here, branch, included, weight);
        if with.0.None? {
          VotesExcludeDecided(info, assumedFees, with.1, branch, included, weight);
        }
      }
    }
  }

  lemma {:induction false} VotesIncludeDecided(info: ProcessInfo<AggregatedVote>, assumedFees: nat, st: Status,
                                               branch: nat, included: set<AggregatedBit>, weight: nat)
    requires branch < |info.items| && Distinct(info.items) && st.bound == ZERO && assumedFees > 0
    requires weight + Weight(From(info.items, branch)) > info.totalWeight / 2
    ensures var vote := info.items[branch];
            Decided(VotesDescend(info, st.ops + V.Cost(included, vote), branch + 1, Common(included, {vote}),
                                 weight + vote.weight),
                    V.Include(info, assumedFees, st, branch, included, weight), info.maxOperations)
    decreases |info.items| - branch, 0
  {
    var vote := info.items[branch];
    V.WeightStep(info.items, branch);
    VotesDecided(info, assumedFees, st.Tick(V.Cost(included, vote)), branch + 1, Common(included, {vote}),
                 weight + vote.weight);
  }

  lemma {:induction false} VotesExcludeDecided(info: ProcessInfo<AggregatedVote>, assumedFees: nat, st: Status,
                                               branch: nat, included: set<AggregatedBit>, weight: nat)
    requires branch < |info.items| && Distinct(info.items) && st.bound == ZERO && assumedFees > 0
    ensures var r := V.Exclude(info, assumedFees, st, branch, included, weight);
            if weight + Weight(From(info.items, branch + 1)) > info.totalWeight / 2 then
              Decided(VotesDescend(info, st.ops, branch + 1, included, weight), r, info.maxOperations)
            else r == (None, st)
    decreases |info.items| - branch, 0
  {
    if weight + Weight(From(info.items, branch + 1)) > info.totalWeight / 2 {
      VotesDecided(info, assumedFees, st, branch + 1, included, weight);
    }
  }

  // ---------------------------------------------------------------- whole searches

  ghost predicate BitsFind(p: Instance, maxOperations: int, excludeFirst: bool)
  {
    BitsDescend(BitsInfo(p, Arrange(p.bits, BitOrder(p.total, !excludeFirst)), maxOperations, excludeFirst),
                p.assumedWeight, 0, 0, p.votes)
  }

  ghost predicate VotesFind(p: Instance, maxOperations: int, excludeFirst: bool)
  {
    VotesDescend(VotesInfo(p, Arrange(p.votes, VoteOrder(!excludeFirst)), maxOperations, excludeFirst),
                 0, 0, p.bits, p.assumedWeight)
  }

  /** At least one of the four first paths fits the budget. */
  ghost predicate SomethingFits(p: Instance, maxOperations: int)
  {
    || BitsFind(p, maxOperations, false) || BitsFind(p, maxOperations, true)
    || VotesFind(p, maxOperations, false) || VotesFind(p, maxOperations, true)
  }

  /** With guaranteed fees, a search from zero falls back exactly if it misses its first leaf. */
  lemma BitsFound(p: Instance, maxOperations: int, excludeFirst: bool)
    requires ProperGroups(p) && Majority(p, p.votes) && p.assumedFees > 0
    ensures var bits := Arrange(p.bits, BitOrder(p.total, !excludeFirst));
            var sol := SolveBits(p, bits, maxOperations, ZERO, excludeFirst);
            && FallsBackOrBeats(p, ZERO, sol)
            && (sol == Fallback(p.votes) <==> !BitsFind(p, maxOperations, excludeFirst))
  {
    var bits := Arrange(p.bits, BitOrder(p.total, !excludeFirst));
    BitOrderStrict(p, !excludeFirst);
    ArrangeContents(p.bits, BitOrder(p.total, !excludeFirst));
    BitsDecided(BitsInfo(p, bits, maxOperations, excludeFirst), p.assumedWeight, Status(ZERO, 0), 0, p.votes,
                p.assumedFees);
    SolveBitsGuaranteed(p, bits, maxOperations, ZERO, excludeFirst);
  }

  lemma VotesFound(p: Instance, maxOperations: int, excludeFirst: bool)
    requires ProperGroups(p) && Majority(p, p.votes) && p.assumedFees > 0
    ensures var votes := Arrange(p.votes, VoteOrder(!excludeFirst));
            var sol := SolveVotes(p, votes, maxOperations, ZERO, excludeFirst);
            && FallsBackOrBeats(p, ZERO, sol)
            && (sol == Fallback(p.votes) <==> !VotesFind(p, maxOperations, excludeFirst))
  {
    var votes := Arrange(p.votes, VoteOrder(!excludeFirst));
    VoteOrderStrict(p, !excludeFirst);
    ArrangeContents(p.votes, VoteOrder(!excludeFirst));
    assert From(votes, 0) == p.votes by { assert votes[0..] == votes; }
    VotesDecided(VotesInfo(p, votes, maxOperations, excludeFirst), p.assumedFees, Status(ZERO, 0), 0, p.bits,
                 p.assumedWeight);
    SolveVotesGuaranteed(p, votes, maxOperations, ZERO, excludeFirst);
  }

  /** The pick of two searches from zero falls back exactly if neither finds its first leaf. */
  lemma BitsDoubleFound(p: Instance, maxOperations: int)
    requires ProperGroups(p) && Majority(p, p.votes) && p.assumedFees > 0
    ensures SolveBitsDouble(p, maxOperations, ZERO) == Fallback(p.votes)
            <==> !BitsFind(p, maxOperations, false) && !BitsFind(p, maxOperations, true)
  {
    BitsFound(p, maxOperations, false);
    BitsFound(p, maxOperations, true);
  }

  lemma VotesDoubleFound(p: Instance, maxOperations: int)
    requires ProperGroups(p) && Majority(p, p.votes) && p.assumedFees > 0
    ensures SolveVotesDouble(p, maxOperations, ZERO) == Fallback(p.votes)
            <==> !VotesFind(p, maxOperations, false) && !VotesFind(p, maxOperations, true)
  {
    VotesFound(p, maxOperations, false);
    VotesFound(p, maxOperations, true);
  }

  /** Two operations for each group of bits are enough; with no operation to spare, only an empty list is finished. */
  lemma BudgetThatFits(p: Instance, maxOperations: int)
    requires ProperGroups(p)
    ensures 2 * |p.bits| <= maxOperations ==> SomethingFits(p, maxOperations)
    ensures maxOperations <= 1 ==> (SomethingFits(p, maxOperations) <==> p.bits == {} || p.votes == {})
  {
    var bits := Arrange(p.bits, BitOrder(p.total, false));
    forall descending: bool
      ensures |Arrange(p.bits, BitOrder(p.total, descending))| == |p.bits|
      ensures |Arrange(p.votes, VoteOrder(descending))| == |p.votes|
    {
      BitOrderStrict(p, descending);
      VoteOrderStrict(p, descending);
      ArrangeContents(p.bits, BitOrder(p.total, descending));
      ArrangeContents(p.votes, VoteOrder(descending));
      DistinctSize(Arrange(p.bits, BitOrder(p.total, descending)));
      DistinctSize(Arrange(p.votes, VoteOrder(descending)));
    }
    DropAll(BitsInfo(p, bits, maxOperations, true), p.assumedWeight, 0, 0, p.votes);
  }
}
