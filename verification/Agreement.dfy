/** What two clients agree on when the same requests and bit votes reach them in different orders. */
module Agreement {
  import opened Sorting
  import opened Sums
  import opened Values
  import opened Ballots
  import opened Solver
  import opened Ensemble
  import Intake
  import Collection

  // ---------------------------------------------------------------- the order of the vote list

  function WeightFor(v: WeightedBitVote, bits: set<nat>): nat { if bits <= v.bitVote.bitVector then v.weight else 0 }

  /** The weight behind `bits`, read off the list. */
  function BackingWeight(votes: seq<WeightedBitVote>, bits: set<nat>): nat
  {
    if votes == [] then 0 else BackingWeight(votes[..|votes| - 1], bits) + WeightFor(votes[|votes| - 1], bits)
  }

  lemma BackersStep(votes: seq<WeightedBitVote>, v: WeightedBitVote, bits: set<nat>)
    ensures WeightOf(votes + [v], Backers(votes + [v], bits)) == WeightOf(votes, Backers(votes, bits)) + WeightFor(v, bits)
  {
    var more := votes + [v];
    var earlier, n := Backers(votes, bits), |votes|;
    forall j | j in Indices(n) ensures j in Backers(more, bits) <==> j in earlier {
      assert forall i :: Marks(more, j, i) <==> Marks(votes, j, i);
    }
    assert n in Backers(more, bits) <==> bits <= v.bitVote.bitVector by {
      assert forall i :: Marks(more, n, i) <==> i in v.bitVote.bitVector;
    }
    SumCongruent(earlier, WeightAt(votes), WeightAt(more));
    if bits <= v.bitVote.bitVector {
      assert Backers(more, bits) == earlier + {n};
      WeightOfAdd(more, earlier, n);
    } else {
      assert Backers(more, bits) == earlier;
    }
  }

  lemma {:induction false} BackersWeigh(votes: seq<WeightedBitVote>, bits: set<nat>)
    ensures WeightOf(votes, Backers(votes, bits)) == BackingWeight(votes, bits)
  {
    if votes == [] {
      assert Backers(votes, bits) == {};
    } else {
      var before := votes[..|votes| - 1];
      assert votes == before + [votes[|votes| - 1]];
      BackersWeigh(before, bits);
      BackersStep(before, votes[|votes| - 1], bits);
    }
  }

  lemma {:induction false} BackingConcat(s: seq<WeightedBitVote>, t: seq<WeightedBitVote>, bits: set<nat>)
    ensures BackingWeight(s + t, bits) == BackingWeight(s, bits) + BackingWeight(t, bits)
  {
    if t == [] {
      assert s + t == s;
    } else {
      var front := t[..|t| - 1];
      assert (s + t)[..|s + t| - 1] == s + front;
      BackingConcat(s, front, bits);
    }
  }

  /** Dropping a vote drops its weight. */
  lemma BackingDrop(s: seq<WeightedBitVote>, i: nat, rest: seq<WeightedBitVote>, bits: set<nat>)
    requires i < |s| && rest == s[..i] + s[i + 1..]
    ensures BackingWeight(s, bits) == BackingWeight(rest, bits) + WeightFor(s[i], bits)
  {
    assert s == s[..i] + [s[i]] + s[i + 1..];
    BackingConcat(s[..i] + [s[i]], s[i + 1..], bits);
    BackingConcat(s[..i], [s[i]], bits);
    BackingConcat(s[..i], s[i + 1..], bits);
    assert [s[i]][..0] == [];
  }

  lemma {:induction false} BackingPermuted(s: seq<WeightedBitVote>, t: seq<WeightedBitVote>, bits: set<nat>)
    requires multiset(s) == multiset(t)
    ensures BackingWeight(s, bits) == BackingWeight(t, bits)
    decreases |s|
  {
    if s == [] {
      assert |multiset(t)| == 0;
    } else {
      var i, rest := MatchFirst(s, t);
      BackingDrop(s, 0, s[1..], bits);
      BackingDrop(t, i, rest, bits);
      BackingPermuted(s[1..], rest, bits);
    }
  }

  /** The question does not depend on the order of the votes: every set has the same backing, value and chance. */
  lemma SameQuestion(votes: seq<WeightedBitVote>, votes': seq<WeightedBitVote>, fees: seq<nat>, total: nat, a: set<nat>)
    requires multiset(votes) == multiset(votes')
    ensures TrueValue(votes, fees, total, a) == TrueValue(votes', fees, total, a)
    ensures Confirmable(votes, fees, total, a) <==> Confirmable(votes', fees, total, a)
    ensures Submitted(votes) == Submitted(votes')
  {
    BackersWeigh(votes, a);
    BackersWeigh(votes', a);
    BackingPermuted(votes, votes', a);
    BackersWeigh(votes, {});
    BackersWeigh(votes', {});
    BackingPermuted(votes, votes', {});
    assert Backers(votes, {}) == Indices(|votes|) && Backers(votes', {}) == Indices(|votes'|);
  }

  /** The search was complete: the solution is flagged optimal, or the budget exceeds the whole trees. */
  ghost predicate Complete(votes: seq<WeightedBitVote>, fees: seq<nat>, total: nat, maxOperations: int)
  {
    var sol := Chosen(votes, fees, total, maxOperations);
    (sol.Some? && sol.value.optimal) || AmpleBudget(InstanceOf(votes, fees, total), maxOperations)
  }

  lemma CompleteIsBest(votes: seq<WeightedBitVote>, fees: seq<nat>, total: nat, maxOperations: int, a: set<nat>)
    requires Positive(votes) && Confirmable(votes, fees, total, a)
    ensures var c := Consensus(votes, fees, total, maxOperations);
            Complete(votes, fees, total, maxOperations) ==>
              c.Some? && !Less(TrueValue(votes, fees, total, c.value), TrueValue(votes, fees, total, a))
  {
    OptimalConsensus(votes, fees, total, maxOperations, a);
    AmpleBudgetIsOptimal(votes, fees, total, maxOperations, a);
  }

  lemma PositivePermuted(votes: seq<WeightedBitVote>, votes': seq<WeightedBitVote>)
    requires Positive(votes) && multiset(votes) == multiset(votes')
    ensures Positive(votes')
  {
    forall j | 0 <= j < |votes'| ensures votes'[j].weight > 0 {
      assert votes'[j] in multiset(votes);
    }
  }

  /** The two results, whatever ties did to the sets: no quorum for both or for none, and after complete searches the same
      value, judged by either list of votes. */
  lemma OrderFreeValue(votes: seq<WeightedBitVote>, votes': seq<WeightedBitVote>, fees: seq<nat>, total: nat,
                       maxOperations: int)
    requires Positive(votes) && multiset(votes) == multiset(votes')
    ensures var c := Consensus(votes, fees, total, maxOperations);
            var c' := Consensus(votes', fees, total, maxOperations);
            && (c.None? <==> c'.None?)
            && (c.Some? && Complete(votes, fees, total, maxOperations) && Complete(votes', fees, total, maxOperations)
                ==> TrueValue(votes, fees, total, c.value) == TrueValue(votes', fees, total, c'.value))
  {
    PositivePermuted(votes, votes');
    SameQuestion(votes, votes', fees, total, {});
    FailsExactlyWithoutQuorum(votes, fees, total, maxOperations);
    FailsExactlyWithoutQuorum(votes', fees, total, maxOperations);
    var c := Consensus(votes, fees, total, maxOperations);
    var c' := Consensus(votes', fees, total, maxOperations);
    if c.Some? && Complete(votes, fees, total, maxOperations) && Complete(votes', fees, total, maxOperations) {
      JointMajority(votes, fees, total, maxOperations);
      JointMajority(votes', fees, total, maxOperations);
      SameQuestion(votes, votes', fees, total, c.value);
      SameQuestion(votes, votes', fees, total, c'.value);
      CompleteIsBest(votes, fees, total, maxOperations, c'.value);
      CompleteIsBest(votes', fees, total, maxOperations, c.value);
    }
  }

  // ---------------------------------------------------------------- two clients

  /** The fees in the order of the attestations. */
  function FeesOf(s: seq<Intake.Entry>): (r: seq<nat>)
    ensures |r| == |s| && forall k :: 0 <= k < |s| ==> r[k] == s[k].fee
  {
    seq(|s|, k requires 0 <= k < |s| => s[k].fee)
  }

  lemma SameFees(s: seq<Intake.Entry>, s': seq<Intake.Entry>)
    requires Intake.Summaries(s) == Intake.Summaries(s')
    ensures FeesOf(s) == FeesOf(s')
  {
    assert |s| == |Intake.Summaries(s)| == |s'|;
    forall k | 0 <= k < |s| ensures s[k].fee == s'[k].fee {
      assert Intake.Summaries(s)[k] == Intake.Summaries(s')[k];
    }
  }

  /** The votes a client hands to the optimiser after it received `messages`. */
  ghost function Collected(vs: Collection.VoterSet, n: nat, messages: seq<Collection.Message>): seq<WeightedBitVote>
  {
    Collection.RunWeights(vs, n, messages);
    Collection.Votes(Collection.Run(vs, n, messages))
  }

  lemma SameVotes(vs: Collection.VoterSet, n: nat, messages: seq<Collection.Message>, messages': seq<Collection.Message>)
    requires Elements(messages) == Elements(messages')
    requires Collection.OneLatest(Collection.AcceptedOf(vs, n, Elements(messages)))
    ensures multiset(Collected(vs, n, messages)) == multiset(Collected(vs, n, messages')) && Positive(Collected(vs, n, messages))
    ensures Collection.Run(vs, n, messages).senders == Collection.Run(vs, n, messages').senders
            ==> Collected(vs, n, messages) == Collected(vs, n, messages')
  {
    Collection.RunWeights(vs, n, messages);
    Collection.RunWeights(vs, n, messages');
    Collection.SameBallots(vs, n, messages, messages');
    Collection.SameBallotsPermuted(Collection.Run(vs, n, messages), Collection.Run(vs, n, messages'));
  }

  /** Two clients that receive the same distinct request logs and the same bit votes, each in its own order and sorting
      whenever it likes, list the same attestations with the same fees. They reach or miss the quorum together. If they heard
      the senders for the first time in the same order they choose the same set; in any case, after complete searches, sets
      of the same value. */
  lemma ClientsAgree(steps: seq<Intake.Step>, steps': seq<Intake.Step>, s: seq<Intake.Entry>, s': seq<Intake.Entry>,
                     vs: Collection.VoterSet, messages: seq<Collection.Message>, messages': seq<Collection.Message>,
                     maxOperations: int)
    requires Intake.Arises(steps, s) && Intake.Ordered(s) && Intake.Arises(steps', s') && Intake.Ordered(s')
    requires Intake.DifferentLogs(Intake.Arrived(steps))
    requires multiset(Intake.Arrived(steps)) == multiset(Intake.Arrived(steps'))
    requires Elements(messages) == Elements(messages')
    requires Collection.OneLatest(Collection.AcceptedOf(vs, |s|, Elements(messages)))
    ensures Intake.Summaries(s) == Intake.Summaries(s') && FeesOf(s) == FeesOf(s')
    ensures var votes := Collected(vs, |s|, messages);
            var votes' := Collected(vs, |s'|, messages');
            var c := Consensus(votes, FeesOf(s), vs.totalWeight, maxOperations);
            var c' := Consensus(votes', FeesOf(s'), vs.totalWeight, maxOperations);
            && (c.None? <==> c'.None?)
            && (Collection.Run(vs, |s|, messages).senders == Collection.Run(vs, |s'|, messages').senders ==> c == c')
            && (c.Some? && Complete(votes, FeesOf(s), vs.totalWeight, maxOperations)
                && Complete(votes', FeesOf(s'), vs.totalWeight, maxOperations) ==>
                  TrueValue(votes, FeesOf(s), vs.totalWeight, c.value) == TrueValue(votes', FeesOf(s'), vs.totalWeight, c'.value))
  {
    Intake.IntakeConfluent(steps, steps', s, s');
    SameFees(s, s');
    assert |s| == |FeesOf(s)| == |s'|;
    SameVotes(vs, |s|, messages, messages');
    OrderFreeValue(Collected(vs, |s|, messages), Collected(vs, |s|, messages'), FeesOf(s), vs.totalWeight, maxOperations);
  }
}
