/** One voting round: attestations, bit votes and the consensus, as objects updated in place. */
module Rounds {
  import opened Sorting
  import opened Values
  import opened Ballots
  import opened Intake
  import C = Collection
  import Codec
  import E = Ensemble

  const MAX_OPERATIONS: int := 20_000_000

  datatype RoundStatus = PreConsensus | Consensus | Done

  /** How a consensus computation ends. */
  datatype Outcome = Computed | NoQuorum | TooLong

  class Attestation {
    const request: Request
    var indexes: IndexLogs
    var fee: nat
    var success: bool
    var consensus: bool

    constructor (log: Log)
      ensures request == log.request && indexes == [log.index] && fee == log.fee && !success && !consensus
    {
      request, indexes, fee, success, consensus := log.request, [log.index], log.fee, false, false;
    }

    ghost function View(): Entry
      reads this
    {
      Entry(request, indexes, fee)
    }

    /** Adds the fee and the index of a further log of the same request. */
    method AddLog(index: IndexLog, logFee: nat)
      modifies this`fee, this`indexes
      ensures View() == Merge(old(View()), Log(request, index, logFee))
    {
      fee := fee + logFee;
      if EarlierLog(index, indexes[0]) {
        indexes := Prepend(indexes, index);
      } else {
        indexes := indexes + [index];
      }
    }
  }

  /** A stored bit vote, reachable both from the list and from the check list. */
  class Ballot {
    var vote: WeightedBitVote

    constructor (vote: WeightedBitVote)
      ensures this.vote == vote
    {
      this.vote := vote;
    }
  }

  ghost function Entries(s: seq<Attestation>): (r: seq<Entry>)
    reads s
    ensures |r| == |s| && forall k :: 0 <= k < |s| ==> r[k] == s[k].View()
  {
    seq(|s|, k requires 0 <= k < |s| reads s => s[k].View())
  }

  function FeesOf(s: seq<Attestation>): (r: seq<nat>)
    reads s
    ensures |r| == |s| && forall k :: 0 <= k < |s| ==> r[k] == s[k].fee
  {
    seq(|s|, k requires 0 <= k < |s| reads s => s[k].fee)
  }

  /** The stored votes as the optimiser sees them. */
  function VotesOf(s: seq<Ballot>): (r: seq<WeightedBitVote>)
    reads s
    ensures |r| == |s| && forall k :: 0 <= k < |s| ==> r[k] == s[k].vote
  {
    seq(|s|, k requires 0 <= k < |s| reads s => s[k].vote)
  }

  /** The stored vote comes from an earlier block than the message, or from an earlier transaction of its block. */
  predicate EarlierThan(vote: WeightedBitVote, m: C.Message)
  {
    vote.indexTx.blockNumber < m.blockNumber
    || (vote.indexTx.blockNumber == m.blockNumber && vote.indexTx.transactionIndex < m.transactionIndex)
  }

  ghost function BallotsOf(m: map<C.Address, Ballot>): map<C.Address, WeightedBitVote>
    reads m.Values
  {
    map a | a in m :: m[a].vote
  }

  lemma BallotsPut(m: map<C.Address, Ballot>, from: C.Address, ballot: Ballot)
    ensures BallotsOf(m[from := ballot]) == BallotsOf(m)[from := ballot.vote]
  {
  }

  lemma EntriesDrop(s: seq<Attestation>, i: nat, rest: seq<Attestation>)
    requires i < |s| && rest == s[..i] + s[i + 1..]
    ensures multiset(Entries(s)) == multiset(Entries(rest)) + multiset{s[i].View()}
  {
    var e := Entries(s);
    assert Entries(rest) == e[..i] + e[i + 1..];
    assert e == e[..i] + [e[i]] + e[i + 1..];
  }

  lemma {:induction false} EntriesMultiset(s: seq<Attestation>, t: seq<Attestation>)
    requires multiset(s) == multiset(t)
    ensures multiset(Entries(s)) == multiset(Entries(t))
    decreases |s|
  {
    if s == [] {
      assert |multiset(t)| == 0;
    } else {
      var i, rest := MatchFirst(s, t);
      EntriesDrop(s, 0, s[1..]);
      EntriesDrop(t, i, rest);
      EntriesMultiset(s[1..], rest);
    }
  }

  /** Inserts an attestation behind all that have an earlier first log. */
  method InsertByIndex(s: seq<Attestation>, a: Attestation) returns (r: seq<Attestation>)
    requires Ordered(Entries(s))
    ensures Ordered(Entries(r)) && multiset(r) == multiset(s) + multiset{a}
  {
    var k := 0;
    while k < |s| && EarlierLog(s[k].indexes[0], a.indexes[0])
      invariant 0 <= k <= |s|
      invariant forall i :: 0 <= i < k ==> EarlierLog(s[i].indexes[0], a.indexes[0])
    {
      k := k + 1;
    }
    r := s[..k] + [a] + s[k..];
    assert s == s[..k] + s[k..];
    InsertOrdered(Entries(s), a.View(), k);
    EntriesInsert(s, a, k);
  }

  lemma EntriesAppend(s: seq<Attestation>, a: Attestation)
    ensures Entries(s + [a]) == Entries(s) + [a.View()]
  {
  }

  lemma EntriesInsert(s: seq<Attestation>, a: Attestation, k: nat)
    requires k <= |s|
    ensures Entries(s[..k] + [a] + s[k..]) == Entries(s)[..k] + [a.View()] + Entries(s)[k..]
  {
    var r := s[..k] + [a] + s[k..];
    var e := Entries(s)[..k] + [a.View()] + Entries(s)[k..];
    forall i | 0 <= i < |r| ensures Entries(r)[i] == e[i] {
      if i > k {
        assert r[i] == s[i - 1] && e[i] == Entries(s)[i - 1];
      }
    }
  }

  lemma Rearranged(s: seq<Attestation>, t: seq<Attestation>)
    requires multiset(s) == multiset(t) && Distinct(s)
    ensures |s| == |t| && Distinct(t) && forall a :: a in t <==> a in s
  {
    assert |s| == |multiset(s)| == |multiset(t)| == |t|;
    MultisetDistinct(s, t);
    MultisetElements(s, t);
    forall a | a in s || a in t ensures a in t && a in s {
      assert a in Elements(t) && a in Elements(s);
    }
  }

  /** Some arrangement by first log; the library's sort may pick any. */
  method SortByIndex(s: seq<Attestation>) returns (r: seq<Attestation>)
    ensures Ordered(Entries(r)) && multiset(r) == multiset(s)
  {
    r := [];
    for n := 0 to |s|
      invariant Ordered(Entries(r)) && multiset(r) == multiset(s[..n])
    {
      r := InsertByIndex(r, s[n]);
      assert s[..n + 1] == s[..n] + [s[n]];
    }
    assert s[..|s|] == s;
  }

  /** The answer of the optimiser under the client's budget. */
  ghost function ClientConsensus(votes: seq<WeightedBitVote>, fees: seq<nat>, total: nat): Option<set<nat>>
  {
    E.Consensus(votes, fees, total, 20_000_000)
  }

  /** `r` is the answer of the optimiser: none exactly without a quorum, otherwise a set of positions within the round
      that a strict majority jointly confirms. */
  ghost predicate IsConsensus(votes: seq<WeightedBitVote>, fees: seq<nat>, total: nat, r: Option<BitVote>)
  {
    && (r.None? <==> 2 * Submitted(votes) <= total)
    && (r.Some? ==>
          && ClientConsensus(votes, fees, total) == Some(r.value.bitVector)
          && r.value.length == |fees| % 65536
          && Confirmable(votes, fees, total, r.value.bitVector))
  }

  /** The client's budget is far above what the reported value needs to be the true one, for every round whose
      attestations 16 bits can count. */
  lemma ClientReportsTrueValue(votes: seq<WeightedBitVote>, fees: seq<nat>, total: nat)
    requires Positive(votes) && |fees| < 65536
    ensures var sol := E.Chosen(votes, fees, total, 20_000_000);
            var c := ClientConsensus(votes, fees, total);
            sol.Some? ==> TrueValue(votes, fees, total, c.value) == sol.value.value
  {
    E.ReportedIsTrue(votes, fees, total, MAX_OPERATIONS);
  }

  /** Positive weights whose sum fits 16 bits. */
  ghost predicate Usable(votes: seq<WeightedBitVote>)
  {
    Positive(votes) && Submitted(votes) <= MAX_UINT16
  }

  method SolveFor(votes: seq<WeightedBitVote>, fees: seq<nat>, total: nat) returns (r: Option<BitVote>)
    requires Usable(votes)
    ensures IsConsensus(votes, fees, total, r)
    ensures r.Some? ==> r.value.bitVector <= Indices(|fees|)
  {
    E.FailsExactlyWithoutQuorum(votes, fees, total, MAX_OPERATIONS);
    r := E.EnsembleConsensusBitVote(votes, fees, total, MAX_OPERATIONS);
    E.JointMajority(votes, fees, total, MAX_OPERATIONS);
  }

  class Round {
    var status: RoundStatus
    var attestations: seq<Attestation>
    var attestationMap: map<Request, Attestation>
    var bitVotes: seq<Ballot>
    var bitVoteCheckList: map<C.Address, Ballot>
    var calculationFinished: bool
    var consensusBitVote: Option<BitVote>
    const voterSet: C.VoterSet

    ghost var senders: seq<C.Address>  // senders[k] is the sender of bitVotes[k]

    /** The map and the list hold the same attestations, one for each request. */
    ghost predicate ValidAttestations()
      reads this`attestations, this`attestationMap
    {
      && (forall k :: 0 <= k < |attestations| ==>
            attestations[k].request in attestationMap && attestationMap[attestations[k].request] == attestations[k])
      && (forall r :: r in attestationMap ==> attestationMap[r] in attestations && attestationMap[r].request == r)
      && Distinct(attestations)
    }

    /** The list and the check list hold the same objects, one for each sender. */
    ghost predicate ValidBallots()
      reads this`senders, this`bitVotes, this`bitVoteCheckList
    {
      && |senders| == |bitVotes| && Distinct(senders) && Elements(senders) == bitVoteCheckList.Keys
      && (forall k :: 0 <= k < |senders| ==> senders[k] in bitVoteCheckList && bitVotes[k] == bitVoteCheckList[senders[k]])
      && (forall a, b :: a in bitVoteCheckList && b in bitVoteCheckList && a != b
            ==> bitVoteCheckList[a] != bitVoteCheckList[b])
    }

    ghost function Box(): C.Box
      reads this`senders, this`bitVoteCheckList, bitVoteCheckList.Values
    {
      C.Box(senders, BallotsOf(bitVoteCheckList))
    }

    /** The invariant of the round: both pairs of containers agree, and every stored vote carries the weight of the voter
        behind its sender and fits the round. */
    ghost predicate Valid()
      reads this, bitVoteCheckList.Values
    {
      ValidAttestations() && ValidBallots() && C.Backed(voterSet, |attestations|, Box())
    }

    /** What touches neither the containers of votes nor the votes in them keeps both. */
    twostate lemma VotesKept()
      requires old(ValidBallots())
      requires unchanged(this`senders, this`bitVotes, this`bitVoteCheckList)
      requires forall b :: b in bitVoteCheckList.Values ==> b.vote == old(b.vote)
      ensures ValidBallots() && Box() == old(Box()) && VotesOf(bitVotes) == old(VotesOf(bitVotes))
    {
      assert forall k :: 0 <= k < |bitVotes| ==> bitVotes[k] in bitVoteCheckList.Values;
      assert Box().ballots == old(Box().ballots);
    }

    constructor (voterSet: C.VoterSet)
      ensures Valid() && attestations == [] && Box() == C.EMPTY
      ensures status == PreConsensus && !calculationFinished && consensusBitVote.None?
      ensures this.voterSet == voterSet
    {
      status, calculationFinished, consensusBitVote := PreConsensus, false, None;
      attestations, attestationMap, bitVotes, bitVoteCheckList, senders := [], map[], [], map[], [];
      this.voterSet := voterSet;
    }

    /** The map leads to the position that a search of the list finds. */
    lemma FindsExisting(r: Request)
      requires ValidAttestations()
      ensures var k := Find(Entries(attestations), r);
              if r in attestationMap then k < |attestations| && attestations[k] == attestationMap[r]
              else k == |attestations|
    {
      var entries := Entries(attestations);
      if r in attestationMap {
        var j :| 0 <= j < |attestations| && attestations[j] == attestationMap[r];
        assert entries[j].request == r;
      }
      var k := Find(entries, r);
      if k < |attestations| {
        assert entries[k].request == attestations[k].request;
      }
    }

    method MergeExisting(att: Attestation, ghost k: nat)
      requires ValidAttestations() && att !in attestations && att.request in attestationMap
      requires k < |attestations| && attestations[k] == attestationMap[att.request]
      modifies attestations`fee, attestations`indexes
      ensures ValidAttestations()
      ensures Entries(attestations)
              == old(Entries(attestations)[k := Merge(Entries(attestations)[k],
                                                      Log(att.request, att.indexes[0], att.fee))])
    {
      attestationMap[att.request].AddLog(att.indexes[0], att.fee);
    }

    method AppendNew(att: Attestation)
      requires ValidAttestations() && att !in attestations && att.request !in attestationMap
      modifies this`attestations, this`attestationMap
      ensures ValidAttestations() && |attestations| == |old(attestations)| + 1
      ensures Entries(attestations) == old(Entries(attestations)) + [old(att.View())]
    {
      EntriesAppend(attestations, att);
      attestationMap := attestationMap[att.request := att];
      attestations := attestations + [att];
    }

    method PutAttestation(att: Attestation) returns (added: bool)
      requires ValidAttestations() && att !in attestations && |att.indexes| == 1
      modifies this`attestations, this`attestationMap, attestations`fee, attestations`indexes
      ensures ValidAttestations() && |attestations| == |old(attestations)| + if added then 1 else 0
      ensures Entries(attestations)
              == Add(old(Entries(attestations)), old(Log(att.request, att.indexes[0], att.fee)))
      ensures added <==> old(Find(Entries(attestations), att.request) == |attestations|)
    {
      FindsExisting(att.request);
      if att.request in attestationMap {
        MergeExisting(att, Find(Entries(attestations), att.request));
        added := false;
      } else {
        assert att.indexes == [att.indexes[0]];
        AppendNew(att);
        added := true;
      }
    }

    /** A request already present gets the fee and the log; a new one is appended. */
    method AddAttestation(att: Attestation) returns (added: bool)
      requires Valid() && att !in attestations && |att.indexes| == 1
      modifies this`attestations, this`attestationMap, attestations`fee, attestations`indexes
      ensures Valid() && Box() == old(Box())
      ensures Entries(attestations)
              == Add(old(Entries(attestations)), old(Log(att.request, att.indexes[0], att.fee)))
      ensures added <==> old(Find(Entries(attestations), att.request) == |attestations|)
    {
      C.BackedGrows(voterSet, |attestations|, |attestations| + 1, Box());
      added := PutAttestation(att);
      VotesKept();
    }

    method AppendBallot(from: C.Address, vote: WeightedBitVote)
      requires ValidBallots() && from !in bitVoteCheckList
      modifies this`bitVotes, this`bitVoteCheckList, this`senders
      ensures ValidBallots() && Box() == C.Store(old(Box()), from, vote)
    {
      var ballot := new Ballot(vote);
      ElementsAppend(senders, from);
      assert from !in Elements(senders);
      BallotsPut(bitVoteCheckList, from, ballot);
      bitVotes := bitVotes + [ballot];
      bitVoteCheckList := bitVoteCheckList[from := ballot];
      senders := senders + [from];
    }

    /** Overwrites the stored vote in place; the list sees the change because it holds the same object. */
    method ReplaceBallot(from: C.Address, vote: WeightedBitVote)
      requires ValidBallots() && from in bitVoteCheckList
      requires EarlierTx(bitVoteCheckList[from].vote.indexTx, vote.indexTx)
      modifies bitVoteCheckList[from]
      ensures ValidBallots() && Box() == C.Store(old(Box()), from, vote)
    {
      bitVoteCheckList[from].vote := vote;
    }

    /** Decodes, checks and stores a bit vote. */
    method ProcessBitVote(message: C.Message) returns (rejection: Option<C.Rejection>)
      requires Valid()
      modifies this`bitVotes, this`bitVoteCheckList, this`senders, bitVoteCheckList.Values
      ensures Valid()
      ensures Box() == C.Receive(voterSet, |attestations|, old(Box()), message)
      ensures rejection
              == match C.Check(voterSet, |attestations|, message) {
                   case Accepted(_) => None
                   case Rejected(reason) => Some(reason)
                 }
      ensures rejection.None? <==> C.Acceptable(voterSet, |attestations|, message)
      ensures rejection.None? ==> message.from in Box().ballots
      ensures rejection.None? && old(message.from !in Box().ballots || EarlierThan(Box().ballots[message.from], message)) ==>
                Box().ballots[message.from] == C.Carried(voterSet, |attestations|, message)
    {
      C.CheckExactly(voterSet, |attestations|, message);
      C.ReceiveBacked(voterSet, |attestations|, Box(), message);
      var decoded := Codec.Decode(message.payload);
      if decoded.Err? {
        return Some(C.Malformed(decoded.error));
      }
      var bitVote := decoded.value;
      if bitVote.length != |attestations| {
        return Some(C.WrongLength);
      }
      if Codec.BitLen(bitVote.vector) > |attestations| {
        return Some(C.VectorTooLong);
      }
      if message.from !in voterSet.submitToSigning {
        return Some(C.NoSigningAddress);
      }
      var signingAddress := voterSet.submitToSigning[message.from];
      if signingAddress !in voterSet.voters {
        return Some(C.InvalidVoter);
      }
      var voter := voterSet.voters[signingAddress];
      if voter.weight <= 0 {
        return Some(C.ZeroWeight);
      }
      var vote := WeightedBitVote(voter.index, IndexTx(message.blockNumber, message.transactionIndex), voter.weight,
                                  BitVote(bitVote.length, Codec.Bits(bitVote.vector)));
      if message.from !in bitVoteCheckList {
        AppendBallot(message.from, vote);
      } else if EarlierTx(bitVoteCheckList[message.from].vote.indexTx, vote.indexTx) {
        assert bitVoteCheckList[message.from] in bitVoteCheckList.Values;
        ReplaceBallot(message.from, vote);
      }
      return None;
    }

    /** Sorted positions: the order in which bits are assigned to attestations. */
    method SortAttestations()
      requires ValidAttestations()
      modifies this`attestations
      ensures ValidAttestations() && Ordered(Entries(attestations))
      ensures |attestations| == |old(attestations)| && forall a :: a in attestations <==> a in old(attestations)
      ensures multiset(Entries(attestations)) == old(multiset(Entries(attestations)))
    {
      var sorted := SortByIndex(attestations);
      Rearranged(attestations, sorted);
      KeepsValid(sorted);
      EntriesMultiset(sorted, attestations);
      attestations := sorted;
    }

    lemma KeepsValid(sorted: seq<Attestation>)
      requires ValidAttestations() && forall a :: a in sorted <==> a in attestations
      ensures forall k :: 0 <= k < |sorted| ==>
                sorted[k].request in attestationMap && attestationMap[sorted[k].request] == sorted[k]
      ensures forall r :: r in attestationMap ==> attestationMap[r] in sorted
    {
      forall k | 0 <= k < |sorted|
        ensures sorted[k].request in attestationMap && attestationMap[sorted[k].request] == sorted[k]
      {
        assert sorted[k] in attestations;
      }
    }

    /** Marks each attestation whose position is set, unless the vector is longer than the list. */
    method SetConsensusStatus(vector: set<nat>) returns (ok: bool)
      requires Distinct(attestations)
      modifies attestations`consensus
      ensures ok <==> vector <= Indices(|attestations|)
      ensures ok ==> forall k :: 0 <= k < |attestations| ==> (attestations[k].consensus <==> k in vector)
    {
      if !(vector <= Indices(|attestations|)) {
        return false;
      }
      for i := 0 to |attestations|
        invariant forall k :: 0 <= k < i ==> (attestations[k].consensus <==> k in vector)
        modifies attestations`consensus
      {
        attestations[i].consensus := i in vector;
      }
      return true;
    }

    /** This client's own bit vote: the positions of the verified attestations, if 16 bits can count them. */
    method OwnBitVote() returns (r: Option<BitVote>)
      requires Valid()
      modifies this`attestations
      ensures Valid() && Ordered(Entries(attestations))
      ensures multiset(Entries(attestations)) == old(multiset(Entries(attestations)))
      ensures r.Some? <==> |attestations| < 65536
      ensures r.Some? ==> r.value.length == |attestations| && r.value.bitVector <= Indices(|attestations|)
                          && forall k :: 0 <= k < |attestations| ==> (k in r.value.bitVector <==> attestations[k].success)
    {
      SortAttestations();
      if |attestations| > MAX_UINT16 {
        return None;
      }
      var vector: set<nat> := {};
      for i := 0 to |attestations|
        invariant vector <= Indices(i)
        invariant forall k :: 0 <= k < i ==> (k in vector <==> attestations[k].success)
      {
        if attestations[i].success {
          vector := vector + {i};
        }
      }
      r := Some(BitVote(|attestations|, vector));
    }

    /** The invariant gives the optimiser what it needs, for every voter set whose submit addresses fit 16 bits. */
    lemma VotesAreUsable()
      requires Valid() && C.SubmittableWeight(voterSet) <= MAX_UINT16
      ensures C.Listed(Box().senders, Box().ballots) && VotesOf(bitVotes) == C.Votes(Box())
      ensures Usable(VotesOf(bitVotes))
    {
      C.StoredWeights(voterSet, |attestations|, Box());
    }

    /** Stores the consensus, if there is one, and marks the attestations. */
    method WriteBack(consensus: Option<BitVote>) returns (outcome: Outcome)
      requires Valid()
      modifies this`status, this`consensusBitVote, attestations`consensus
      ensures Valid() && Box() == old(Box()) && VotesOf(bitVotes) == old(VotesOf(bitVotes))
      ensures Entries(attestations) == old(Entries(attestations)) && FeesOf(attestations) == old(FeesOf(attestations))
      ensures outcome.NoQuorum? <==> consensus.None?
      ensures outcome.TooLong? <==> consensus.Some? && !(consensus.value.bitVector <= Indices(|attestations|))
      ensures consensus.Some? ==> consensusBitVote == consensus && status == Consensus
      ensures outcome.Computed? ==> forall k :: 0 <= k < |attestations| ==>
                                      (attestations[k].consensus <==> k in consensus.value.bitVector)
      ensures outcome.NoQuorum? ==>
                && consensusBitVote == old(consensusBitVote) && status == old(status)
                && forall a :: a in attestations ==> a.consensus == old(a.consensus)
    {
      if consensus.None? {
        return NoQuorum;
      }
      assert Distinct(attestations);
      consensusBitVote := consensus;
      status := Consensus;
      var ok := SetConsensusStatus(consensus.value.bitVector);
      VotesKept();
      outcome := if ok then Computed else TooLong;
    }

    /** Solves for the current order and writes the consensus back. */
    method Settle(ghost votes: seq<WeightedBitVote>, ghost fees: seq<nat>) returns (outcome: Outcome)
      requires Valid() && votes == VotesOf(bitVotes) && fees == FeesOf(attestations) && Usable(votes)
      modifies this`status, this`consensusBitVote, attestations`consensus
      ensures Valid() && Box() == old(Box()) && votes == VotesOf(bitVotes)
      ensures Entries(attestations) == old(Entries(attestations)) && fees == FeesOf(attestations)
      ensures outcome.Computed? ==>
                && consensusBitVote.Some? && status == Consensus
                && IsConsensus(votes, fees, voterSet.totalWeight, consensusBitVote)
                && forall k :: 0 <= k < |attestations| ==>
                     (attestations[k].consensus <==> k in consensusBitVote.value.bitVector)
      ensures outcome.NoQuorum? ==>
                && IsConsensus(votes, fees, voterSet.totalWeight, None)
                && consensusBitVote == old(consensusBitVote) && status == old(status)
                && forall a :: a in attestations ==> a.consensus == old(a.consensus)
      ensures !outcome.TooLong?
    {
      var consensus := SolveFor(VotesOf(bitVotes), FeesOf(attestations), voterSet.totalWeight);
      VotesKept();
      outcome := WriteBack(consensus);
    }

    /** Fixes the positions for the computation. */
    method Prepare()
      requires Valid() && C.SubmittableWeight(voterSet) <= MAX_UINT16
      modifies this`attestations, this`calculationFinished
      ensures Valid() && Ordered(Entries(attestations)) && calculationFinished && Box() == old(Box())
      ensures |attestations| == |old(attestations)| && forall a :: a in attestations <==> a in old(attestations)
      ensures VotesOf(bitVotes) == old(VotesOf(bitVotes)) && Usable(VotesOf(bitVotes))
    {
      VotesAreUsable();
      calculationFinished := true;
      SortAttestations();
    }

    /** Sorts, solves and writes the consensus back to the attestations. Requests, fees and votes stay as they were, and
        the check for a vector longer than the list never fires. */
    method ComputeConsensusBitVote(ghost votes: seq<WeightedBitVote>) returns (outcome: Outcome, ghost fees: seq<nat>)
      requires Valid() && votes == VotesOf(bitVotes) && C.SubmittableWeight(voterSet) <= MAX_UINT16
      modifies this`attestations, this`status, this`calculationFinished, this`consensusBitVote, attestations`consensus
      ensures Valid() && Ordered(Entries(attestations)) && calculationFinished && Box() == old(Box())
      ensures |attestations| == |old(attestations)| && forall a :: a in attestations <==> a in old(attestations)
      ensures votes == VotesOf(bitVotes) && fees == FeesOf(attestations)
      ensures outcome.Computed? ==>
                && consensusBitVote.Some? && status == Consensus
                && IsConsensus(votes, fees, voterSet.totalWeight, consensusBitVote)
                && forall k :: 0 <= k < |attestations| ==>
                     (attestations[k].consensus <==> k in consensusBitVote.value.bitVector)
      ensures outcome.NoQuorum? ==>
                && IsConsensus(votes, fees, voterSet.totalWeight, None)
                && consensusBitVote == old(consensusBitVote) && status == old(status)
                && forall a :: a in attestations ==> a.consensus == old(a.consensus)
      ensures !outcome.TooLong?
    {
      Prepare();
      fees := FeesOf(attestations);
      outcome := Settle(votes, fees);
    }
  }
}
