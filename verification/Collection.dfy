/** Vote collection: each sender's latest accepted bit vote, with the weight of the voter behind the sender. */
module Collection {
  import opened Sorting
  import opened Sums
  import opened Ballots
  import Codec

  type Address = nat

  datatype Voter = Voter(index: nat, weight: nat)

  datatype VoterSet = VoterSet(
    submitToSigning: map<Address, Address>,
    voters: map<Address, Voter>,
    totalWeight: nat)

  datatype Message = Message(from: Address, blockNumber: nat, transactionIndex: nat, payload: seq<Codec.Byte>)

  datatype Rejection =
    | Malformed(error: Codec.Error)
    | WrongLength
    | VectorTooLong
    | NoSigningAddress
    | InvalidVoter
    | ZeroWeight

  datatype Verdict = Accepted(vote: WeightedBitVote) | Rejected(reason: Rejection)

  /** The checks on a bit vote for a round with `n` attestations. */
  function Check(vs: VoterSet, n: nat, m: Message): Verdict
  {
    var decoded := Codec.Decode(m.payload);
    if decoded.Err? then Rejected(Malformed(decoded.error))
    else if decoded.value.length != n then Rejected(WrongLength)
    else if Codec.BitLen(decoded.value.vector) > n then Rejected(VectorTooLong)
    else if m.from !in vs.submitToSigning then Rejected(NoSigningAddress)
    else if vs.submitToSigning[m.from] !in vs.voters then Rejected(InvalidVoter)
    else
      var voter := vs.voters[vs.submitToSigning[m.from]];
      if voter.weight == 0 then Rejected(ZeroWeight)
      else Accepted(WeightedBitVote(voter.index, IndexTx(m.blockNumber, m.transactionIndex), voter.weight,
                                    BitVote(decoded.value.length, Codec.Bits(decoded.value.vector))))
  }

  /** The demands on a message, read off its bytes and the voter set: a header that gives the number of attestations, a
      vector within the round, and a sender that belongs to a voter with weight. */
  ghost predicate Acceptable(vs: VoterSet, n: nat, m: Message)
  {
    && |m.payload| >= 2 && 256 * (m.payload[0] as nat) + m.payload[1] as nat == n
    && (forall i :: i in Codec.Bits(Codec.Number(m.payload[2..])) ==> i < n)
    && m.from in vs.submitToSigning && vs.submitToSigning[m.from] in vs.voters
    && vs.voters[vs.submitToSigning[m.from]].weight > 0
  }

  /** The vote such a message carries. */
  ghost function Carried(vs: VoterSet, n: nat, m: Message): WeightedBitVote
    requires Acceptable(vs, n, m)
  {
    var voter := vs.voters[vs.submitToSigning[m.from]];
    WeightedBitVote(voter.index, IndexTx(m.blockNumber, m.transactionIndex), voter.weight,
                    BitVote(n, Codec.Bits(Codec.Number(m.payload[2..]))))
  }

  /** Exactly the acceptable messages are accepted, each with the vote it carries. A short payload and a vector beyond its own
      length are malformed; the check for a vector longer than the round never fires. */
  lemma CheckExactly(vs: VoterSet, n: nat, m: Message)
    ensures Check(vs, n, m).Accepted? <==> Acceptable(vs, n, m)
    ensures Acceptable(vs, n, m) ==> Check(vs, n, m).vote == Carried(vs, n, m)
    ensures Check(vs, n, m) == Rejected(Malformed(Codec.TooShort)) <==> |m.payload| < 2
    ensures Check(vs, n, m) != Rejected(VectorTooLong)
  {
    if |m.payload| >= 2 {
      var length, vector := 256 * (m.payload[0] as nat) + m.payload[1] as nat, Codec.Number(m.payload[2..]);
      Codec.BitLenBounds(vector, length);
      if length == n {
        assert Codec.BitLen(vector) <= n <==> forall i :: i in Codec.Bits(vector) ==> i < n;
      }
    }
  }

  /** An encoded bit vote from a known voter with weight is accepted unchanged. */
  lemma AcceptsEncoded(vs: VoterSet, n: nat, from: Address, block: nat, tx: nat, vector: nat)
    requires n < 65536 && Codec.BitLen(vector) <= n
    requires from in vs.submitToSigning && vs.submitToSigning[from] in vs.voters
    requires vs.voters[vs.submitToSigning[from]].weight > 0
    ensures var voter := vs.voters[vs.submitToSigning[from]];
            Check(vs, n, Message(from, block, tx, Codec.Encode(Codec.CodedVote(n, vector))))
            == Accepted(WeightedBitVote(voter.index, IndexTx(block, tx), voter.weight, BitVote(n, Codec.Bits(vector))))
  {
    var m := Message(from, block, tx, Codec.Encode(Codec.CodedVote(n, vector)));
    Codec.EncodeLayout(Codec.CodedVote(n, vector));
    Codec.BitLenBounds(vector, n);
    CheckExactly(vs, n, m);
  }

  /** Senders in order of their first accepted vote, and the vote stored for each. */
  datatype Box = Box(senders: seq<Address>, ballots: map<Address, WeightedBitVote>)

  const EMPTY := Box([], map[])

  /** A first submission is appended; a later one replaces the stored vote in place; anything else is ignored. */
  function Store(b: Box, from: Address, vote: WeightedBitVote): Box
  {
    if from !in b.ballots then Box(b.senders + [from], b.ballots[from := vote])
    else if EarlierTx(b.ballots[from].indexTx, vote.indexTx) then b.(ballots := b.ballots[from := vote])
    else b
  }

  function Receive(vs: VoterSet, n: nat, b: Box, m: Message): Box
  {
    match Check(vs, n, m)
    case Accepted(vote) => Store(b, m.from, vote)
    case Rejected(_) => b
  }

  function Run(vs: VoterSet, n: nat, messages: seq<Message>): Box
  {
    if messages == [] then EMPTY
    else Receive(vs, n, Run(vs, n, messages[..|messages| - 1]), messages[|messages| - 1])
  }

  ghost predicate Consistent(b: Box)
  {
    Distinct(b.senders) && Elements(b.senders) == b.ballots.Keys
  }

  predicate Listed(senders: seq<Address>, ballots: map<Address, WeightedBitVote>)
  {
    forall k :: 0 <= k < |senders| ==> senders[k] in ballots
  }

  /** The list handed to the optimiser. */
  function Votes(b: Box): (r: seq<WeightedBitVote>)
    requires Listed(b.senders, b.ballots)
    ensures |r| == |b.senders|
  {
    seq(|b.senders|, k requires 0 <= k < |b.senders| => b.ballots[b.senders[k]])
  }

  // ---------------------------------------------------------------- the latest submission wins

  datatype Submission = Submission(from: Address, vote: WeightedBitVote)

  /** The submissions that pass the checks. */
  ghost function AcceptedOf(vs: VoterSet, n: nat, messages: set<Message>): set<Submission>
  {
    set m | m in messages && Check(vs, n, m).Accepted? :: Submission(m.from, Check(vs, n, m).vote)
  }

  /** `s` is among `all`, and its sender submitted nothing later. */
  ghost predicate Latest(all: set<Submission>, s: Submission)
  {
    s in all && forall o :: o in all && o.from == s.from ==> NotLaterTx(o.vote.indexTx, s.vote.indexTx)
  }

  /** Every sender is stored with a latest submission; nobody else is stored. */
  ghost predicate HoldsLatest(all: set<Submission>, b: Box)
  {
    && (forall s :: s in all ==> s.from in b.ballots)
    && (forall a :: a in b.ballots ==> Latest(all, Submission(a, b.ballots[a])))
  }

  lemma StoreHoldsLatest(all: set<Submission>, b: Box, s: Submission)
    requires HoldsLatest(all, b)
    ensures HoldsLatest(all + {s}, Store(b, s.from, s.vote))
  {
    var b' := Store(b, s.from, s.vote);
    forall a | a in b'.ballots ensures Latest(all + {s}, Submission(a, b'.ballots[a])) {
      if a in b.ballots {
        assert Latest(all, Submission(a, b.ballots[a]));
      }
    }
  }

  lemma AcceptedAdd(vs: VoterSet, n: nat, messages: set<Message>, m: Message)
    ensures AcceptedOf(vs, n, messages + {m})
            == if Check(vs, n, m).Accepted?
               then AcceptedOf(vs, n, messages) + {Submission(m.from, Check(vs, n, m).vote)}
               else AcceptedOf(vs, n, messages)
  {
  }

  /** Over whole runs: one stored vote per sender, always a latest accepted submission. */
  lemma {:induction false} RunHoldsLatest(vs: VoterSet, n: nat, messages: seq<Message>)
    ensures HoldsLatest(AcceptedOf(vs, n, Elements(messages)), Run(vs, n, messages))
    ensures Consistent(Run(vs, n, messages))
  {
    if messages != [] {
      var before, m := messages[..|messages| - 1], messages[|messages| - 1];
      assert messages == before + [m];
      RunHoldsLatest(vs, n, before);
      ElementsAppend(before, m);
      AcceptedAdd(vs, n, Elements(before), m);
      ReceiveConsistent(vs, n, Run(vs, n, before), m);
      if Check(vs, n, m).Accepted? {
        StoreHoldsLatest(AcceptedOf(vs, n, Elements(before)), Run(vs, n, before),
                         Submission(m.from, Check(vs, n, m).vote));
      }
    }
  }

  /** Over whole runs, on the messages themselves: every sender of an acceptable message is stored, with the vote carried by
      an acceptable message of its own that no other one follows in the chain. */
  lemma RunStoresPayloads(vs: VoterSet, n: nat, messages: seq<Message>)
    ensures forall m :: m in messages && Acceptable(vs, n, m) ==> m.from in Run(vs, n, messages).ballots
    ensures forall a :: a in Run(vs, n, messages).ballots ==>
              exists m :: m in messages && Acceptable(vs, n, m) && LatestOf(vs, n, messages, m)
                          && m.from == a && Run(vs, n, messages).ballots[a] == Carried(vs, n, m)
  {
    var b := Run(vs, n, messages);
    RunHoldsLatest(vs, n, messages);
    forall m | m in messages && Acceptable(vs, n, m) ensures m.from in b.ballots {
      CheckExactly(vs, n, m);
      assert m in Elements(messages);
      assert Submission(m.from, Check(vs, n, m).vote) in AcceptedOf(vs, n, Elements(messages));
    }
    forall a | a in b.ballots
      ensures exists m :: m in messages && Acceptable(vs, n, m) && LatestOf(vs, n, messages, m)
                          && m.from == a && b.ballots[a] == Carried(vs, n, m)
    {
      var m := LatestMessage(vs, n, messages, Submission(a, b.ballots[a]));
    }
  }

  /** No acceptable message of the same sender comes later in the chain. */
  ghost predicate LatestOf(vs: VoterSet, n: nat, messages: seq<Message>, m: Message)
  {
    forall o :: o in messages && o.from == m.from && Acceptable(vs, n, o) ==>
      NotLaterTx(IndexTx(o.blockNumber, o.transactionIndex), IndexTx(m.blockNumber, m.transactionIndex))
  }

  lemma LatestMessage(vs: VoterSet, n: nat, messages: seq<Message>, s: Submission) returns (m: Message)
    requires Latest(AcceptedOf(vs, n, Elements(messages)), s)
    ensures m in messages && Acceptable(vs, n, m) && LatestOf(vs, n, messages, m)
    ensures m.from == s.from && s.vote == Carried(vs, n, m)
  {
    m :| m in messages && Check(vs, n, m).Accepted? && s == Submission(m.from, Check(vs, n, m).vote);
    CheckExactly(vs, n, m);
    forall o | o in messages && o.from == m.from && Acceptable(vs, n, o)
      ensures NotLaterTx(IndexTx(o.blockNumber, o.transactionIndex), IndexTx(m.blockNumber, m.transactionIndex))
    {
      CheckExactly(vs, n, o);
      assert o in Elements(messages);
      assert Submission(o.from, Check(vs, n, o).vote) in AcceptedOf(vs, n, Elements(messages));
    }
  }

  /** `k` is a message of the first sender, and no acceptable message of the second came by then. */
  ghost predicate HeardBefore(vs: VoterSet, n: nat, messages: seq<Message>, first: Address, second: Address, k: nat)
  {
    && k < |messages| && messages[k].from == first && Acceptable(vs, n, messages[k])
    && forall l :: 0 <= l <= k && messages[l].from == second ==> !Acceptable(vs, n, messages[l])
  }

  lemma HeardFirst(vs: VoterSet, n: nat, messages: seq<Message>, m: Message, first: Address) returns (k: nat)
    requires first in Run(vs, n, messages).ballots && m.from !in Run(vs, n, messages).ballots
    ensures HeardBefore(vs, n, messages + [m], first, m.from, k)
  {
    RunStoresPayloads(vs, n, messages);
    var o :| o in messages && Acceptable(vs, n, o) && o.from == first;
    k :| 0 <= k < |messages| && messages[k] == o;
  }

  /** One more message appends its sender or leaves the senders as they are. */
  lemma SendersGrow(vs: VoterSet, n: nat, b: Box, m: Message)
    ensures var senders := Receive(vs, n, b, m).senders;
            senders == b.senders || (senders == b.senders + [m.from] && m.from !in b.ballots)
  {
  }

  /** The list handed to the optimiser is in the order in which senders were first heard. */
  lemma {:induction false} SendersInOrder(vs: VoterSet, n: nat, messages: seq<Message>, i: nat, j: nat) returns (k: nat)
    requires i < j < |Run(vs, n, messages).senders|
    ensures var senders := Run(vs, n, messages).senders; HeardBefore(vs, n, messages, senders[i], senders[j], k)
    decreases |messages|
  {
    var before, m := messages[..|messages| - 1], messages[|messages| - 1];
    assert messages == before + [m];
    var b := Run(vs, n, before);
    SendersGrow(vs, n, b, m);
    if j < |b.senders| {
      k := SendersInOrder(vs, n, before, i, j);
    } else {
      RunHoldsLatest(vs, n, before);
      assert b.senders[i] in Elements(b.senders);
      k := HeardFirst(vs, n, before, m, b.senders[i]);
    }
  }

  /** No sender has two different latest submissions. */
  ghost predicate OneLatest(all: set<Submission>)
  {
    forall s, o :: Latest(all, s) && Latest(all, o) && s.from == o.from ==> s == o
  }

  /** A transaction carries one bit vote: equal positions mean equal votes. */
  ghost predicate OneVotePerTx(all: set<Submission>)
  {
    forall s, o :: s in all && o in all && s.from == o.from && s.vote.indexTx == o.vote.indexTx ==> s.vote == o.vote
  }

  lemma OneVotePerTxSuffices(all: set<Submission>)
    requires OneVotePerTx(all)
    ensures OneLatest(all)
  {
    forall s, o | Latest(all, s) && Latest(all, o) && s.from == o.from ensures s == o {
      assert NotLaterTx(s.vote.indexTx, o.vote.indexTx) && NotLaterTx(o.vote.indexTx, s.vote.indexTx);
      assert s.vote.indexTx == o.vote.indexTx;
    }
  }

  lemma LatestBallotsUnique(all: set<Submission>, b: Box, b': Box)
    requires OneLatest(all) && HoldsLatest(all, b) && HoldsLatest(all, b')
    ensures b.ballots == b'.ballots
  {
    forall a | a in b.ballots || a in b'.ballots
      ensures a in b.ballots && a in b'.ballots && b.ballots[a] == b'.ballots[a]
    {
      assert a in b.ballots ==> Latest(all, Submission(a, b.ballots[a]));
      assert a in b'.ballots ==> Latest(all, Submission(a, b'.ballots[a]));
    }
    assert b.ballots.Keys == b'.ballots.Keys;
  }

  /** The stored votes are the same for two orders in which the same messages arrive. */
  lemma SameBallots(vs: VoterSet, n: nat, messages: seq<Message>, messages': seq<Message>)
    requires Elements(messages) == Elements(messages') && OneLatest(AcceptedOf(vs, n, Elements(messages)))
    ensures Run(vs, n, messages).ballots == Run(vs, n, messages').ballots
  {
    RunHoldsLatest(vs, n, messages);
    RunHoldsLatest(vs, n, messages');
    LatestBallotsUnique(AcceptedOf(vs, n, Elements(messages)), Run(vs, n, messages), Run(vs, n, messages'));
  }

  /** A latest submission that arrives first is never replaced. */
  lemma {:induction false} FirstStays(vs: VoterSet, n: nat, m: Message, rest: seq<Message>, all: set<Message>)
    requires Elements(rest) <= all && Check(vs, n, m).Accepted?
    requires Latest(AcceptedOf(vs, n, all), Submission(m.from, Check(vs, n, m).vote))
    ensures var b := Run(vs, n, [m] + rest); m.from in b.ballots && b.ballots[m.from] == Check(vs, n, m).vote
  {
    var list := [m] + rest;
    if rest == [] {
      assert list[..0] == [] && list[0] == m;
    } else {
      var before, o := rest[..|rest| - 1], rest[|rest| - 1];
      assert list[..|list| - 1] == [m] + before && list[|list| - 1] == o;
      assert o in Elements(rest);
      FirstStays(vs, n, m, before, all);
      if Check(vs, n, o).Accepted? {
        assert Submission(o.from, Check(vs, n, o).vote) in AcceptedOf(vs, n, all);
      }
    }
  }

  /** Whichever latest submission comes first is stored. */
  lemma SomeOrderStores(vs: VoterSet, n: nat, messages: seq<Message>, s: Submission) returns (order: seq<Message>)
    requires Latest(AcceptedOf(vs, n, Elements(messages)), s)
    ensures Elements(order) == Elements(messages)
    ensures s.from in Run(vs, n, order).ballots && Run(vs, n, order).ballots[s.from] == s.vote
  {
    var m :| m in messages && Check(vs, n, m).Accepted? && s == Submission(m.from, Check(vs, n, m).vote);
    order := [m] + messages;
    FirstStays(vs, n, m, messages, Elements(messages));
  }

  /** Exactly when the stored votes do not depend on the order of arrival: no sender has two different latest submissions,
      as is the case if a transaction carries one vote. */
  lemma CollectionConfluent(vs: VoterSet, n: nat, messages: seq<Message>)
    ensures OneLatest(AcceptedOf(vs, n, Elements(messages)))
            <==> forall order :: Elements(order) == Elements(messages)
                   ==> Run(vs, n, order).ballots == Run(vs, n, messages).ballots
  {
    var all := AcceptedOf(vs, n, Elements(messages));
    if OneLatest(all) {
      forall order | Elements(order) == Elements(messages)
        ensures Run(vs, n, order).ballots == Run(vs, n, messages).ballots
      {
        SameBallots(vs, n, messages, order);
      }
    } else {
      var s, o :| Latest(all, s) && Latest(all, o) && s.from == o.from && s != o;
      var first := SomeOrderStores(vs, n, messages, s);
      var second := SomeOrderStores(vs, n, messages, o);
      assert Run(vs, n, first).ballots[s.from] != Run(vs, n, second).ballots[s.from];
    }
  }

  lemma VotesDrop(s: seq<Address>, ballots: map<Address, WeightedBitVote>, i: nat, rest: seq<Address>)
    requires Listed(s, ballots) && i < |s| && rest == s[..i] + s[i + 1..]
    ensures Listed(rest, ballots)
    ensures multiset(Votes(Box(s, ballots))) == multiset(Votes(Box(rest, ballots))) + multiset{ballots[s[i]]}
  {
    var votes := Votes(Box(s, ballots));
    assert Votes(Box(rest, ballots)) == votes[..i] + votes[i + 1..];
    assert votes == votes[..i] + [ballots[s[i]]] + votes[i + 1..];
  }

  /** The same ballots in another order of first arrival: the optimiser sees a permutation. */
  lemma {:induction false} VotesPermuted(s: seq<Address>, t: seq<Address>, ballots: map<Address, WeightedBitVote>)
    requires multiset(s) == multiset(t) && Listed(s, ballots) && Listed(t, ballots)
    ensures multiset(Votes(Box(s, ballots))) == multiset(Votes(Box(t, ballots)))
    decreases |s|
  {
    if s == [] {
      assert |multiset(t)| == 0;
    } else {
      var i, u := MatchFirst(s, t);
      VotesDrop(s, ballots, 0, s[1..]);
      VotesDrop(t, ballots, i, u);
      VotesPermuted(s[1..], u, ballots);
    }
  }

  /** Two boxes with the same ballots hand the optimiser two permutations of one list. */
  lemma SameBallotsPermuted(b: Box, b': Box)
    requires Consistent(b) && Consistent(b') && b.ballots == b'.ballots
    ensures Listed(b.senders, b.ballots) && Listed(b'.senders, b'.ballots)
    ensures multiset(Votes(b)) == multiset(Votes(b'))
  {
    forall k | 0 <= k < |b.senders| ensures b.senders[k] in b.ballots { assert b.senders[k] in Elements(b.senders); }
    forall k | 0 <= k < |b'.senders| ensures b'.senders[k] in b.ballots { assert b'.senders[k] in Elements(b'.senders); }
    DistinctMultiset(b.senders);
    DistinctMultiset(b'.senders);
    VotesPermuted(b.senders, b'.senders, b.ballots);
  }

  // ---------------------------------------------------------------- stored weights

  function VoterWeight(vs: VoterSet): Address -> nat
  {
    (a: Address) => if a in vs.voters then vs.voters[a].weight else 0
  }

  /** The weight of the voter a submit address belongs to. */
  function SenderWeight(vs: VoterSet): Address -> nat
  {
    (a: Address) =>
      if a in vs.submitToSigning && vs.submitToSigning[a] in vs.voters then vs.voters[vs.submitToSigning[a]].weight
      else 0
  }

  /** What all submit addresses together could bring in; a voter with two addresses counts twice. */
  ghost function SubmittableWeight(vs: VoterSet): nat { Sum(vs.submitToSigning.Keys, SenderWeight(vs)) }

  /** Different submit addresses belong to different voters. */
  ghost predicate Injective(vs: VoterSet)
  {
    forall a, b :: a in vs.submitToSigning && b in vs.submitToSigning && a != b
      ==> vs.submitToSigning[a] != vs.submitToSigning[b]
  }

  /** The total weight is the sum over all voters. */
  ghost predicate Totalled(vs: VoterSet) { Sum(vs.voters.Keys, VoterWeight(vs)) == vs.totalWeight }

  function SignerOf(vs: VoterSet): Address -> Address
  {
    (a: Address) => if a in vs.submitToSigning then vs.submitToSigning[a] else 0
  }

  /** With one submit address a voter, no more than the total weight can be submitted. */
  lemma InjectiveFits(vs: VoterSet)
    requires Injective(vs) && Totalled(vs)
    ensures SubmittableWeight(vs) <= vs.totalWeight
  {
    var known := set a | a in vs.submitToSigning && vs.submitToSigning[a] in vs.voters;
    SumSubset(known, vs.submitToSigning.Keys, SenderWeight(vs));
    SumZero(vs.submitToSigning.Keys - known, SenderWeight(vs));
    SumImage(known, SignerOf(vs), SenderWeight(vs), VoterWeight(vs));
    SumSubset(Image(known, SignerOf(vs)), vs.voters.Keys, VoterWeight(vs));
  }

  /** The vote carries the positive weight of the voter behind its sender, and fits the round. */
  ghost predicate BackedVote(vs: VoterSet, n: nat, a: Address, vote: WeightedBitVote)
  {
    && a in vs.submitToSigning && vs.submitToSigning[a] in vs.voters
    && vote.weight == vs.voters[vs.submitToSigning[a]].weight > 0
    && vote.bitVote.bitVector <= Indices(n)
  }

  ghost predicate Backed(vs: VoterSet, n: nat, b: Box)
  {
    forall a :: a in b.ballots ==> BackedVote(vs, n, a, b.ballots[a])
  }

  lemma CheckBacks(vs: VoterSet, n: nat, m: Message)
    requires Check(vs, n, m).Accepted?
    ensures BackedVote(vs, n, m.from, Check(vs, n, m).vote)
    ensures Acceptable(vs, n, m) && Check(vs, n, m).vote == Carried(vs, n, m)
  {
    CheckExactly(vs, n, m);
  }

  /** More attestations leave the stored votes within the round. */
  lemma BackedGrows(vs: VoterSet, n: nat, more: nat, b: Box)
    requires Backed(vs, n, b) && n <= more
    ensures Backed(vs, more, b)
  {
    assert Indices(n) <= Indices(more);
  }

  lemma ReceiveBacked(vs: VoterSet, n: nat, b: Box, m: Message)
    requires Backed(vs, n, b)
    ensures Backed(vs, n, Receive(vs, n, b, m))
  {
    if Check(vs, n, m).Accepted? {
      CheckBacks(vs, n, m);
    }
  }

  lemma ReceiveConsistent(vs: VoterSet, n: nat, b: Box, m: Message)
    requires Consistent(b)
    ensures Consistent(Receive(vs, n, b, m))
  {
    ElementsAppend(b.senders, m.from);
  }

  lemma {:induction false} RunBacked(vs: VoterSet, n: nat, messages: seq<Message>)
    ensures Backed(vs, n, Run(vs, n, messages))
  {
    if messages != [] {
      var before := messages[..|messages| - 1];
      RunBacked(vs, n, before);
      ReceiveBacked(vs, n, Run(vs, n, before), messages[|messages| - 1]);
    }
  }

  function SenderAt(senders: seq<Address>): nat -> Address
  {
    (k: nat) => if k < |senders| then senders[k] else 0
  }

  lemma SenderImage(senders: seq<Address>)
    ensures Image(Indices(|senders|), SenderAt(senders)) == Elements(senders)
  {
    forall a | a in Elements(senders) ensures a in Image(Indices(|senders|), SenderAt(senders)) {
      var k :| 0 <= k < |senders| && senders[k] == a;
      assert k in Indices(|senders|) && SenderAt(senders)(k) == a;
    }
  }

  /** Votes in the order of their senders weigh what the senders weigh. */
  lemma SumOverSenders(senders: seq<Address>, votes: seq<WeightedBitVote>, weight: Address -> nat)
    requires Distinct(senders) && |votes| == |senders|
    requires forall k :: 0 <= k < |votes| ==> votes[k].weight == weight(senders[k])
    ensures Submitted(votes) == Sum(Elements(senders), weight)
  {
    var all := Indices(|senders|);
    forall k | k in all ensures WeightAt(votes)(k) == weight(SenderAt(senders)(k)) {
      assert votes[k].weight == weight(senders[k]);
    }
    SumImage(all, SenderAt(senders), WeightAt(votes), weight);
    SenderImage(senders);
  }

  lemma StoredWeight(vs: VoterSet, n: nat, b: Box, k: nat)
    requires Consistent(b) && Backed(vs, n, b) && k < |b.senders|
    ensures b.senders[k] in b.ballots && b.ballots[b.senders[k]].weight == SenderWeight(vs)(b.senders[k]) > 0
  {
    assert b.senders[k] in Elements(b.senders);
    assert BackedVote(vs, n, b.senders[k], b.ballots[b.senders[k]]);
  }

  lemma StoredAreKnown(vs: VoterSet, n: nat, b: Box)
    requires Backed(vs, n, b)
    ensures Sum(b.ballots.Keys, SenderWeight(vs)) <= SubmittableWeight(vs)
  {
    forall a | a in b.ballots.Keys ensures a in vs.submitToSigning.Keys {
      assert BackedVote(vs, n, a, b.ballots[a]);
    }
    SumSubset(b.ballots.Keys, vs.submitToSigning.Keys, SenderWeight(vs));
  }

  /** What the optimiser may rely on: positive weights that sum to what the stored senders may submit. */
  lemma StoredWeights(vs: VoterSet, n: nat, b: Box)
    requires Consistent(b) && Backed(vs, n, b)
    ensures Listed(b.senders, b.ballots)
    ensures Positive(Votes(b)) && Submitted(Votes(b)) == Sum(b.ballots.Keys, SenderWeight(vs))
    ensures Submitted(Votes(b)) <= SubmittableWeight(vs)
  {
    forall k | 0 <= k < |b.senders|
      ensures b.senders[k] in b.ballots && b.ballots[b.senders[k]].weight == SenderWeight(vs)(b.senders[k]) > 0
    {
      StoredWeight(vs, n, b, k);
    }
    SumOverSenders(b.senders, Votes(b), SenderWeight(vs));
    StoredAreKnown(vs, n, b);
  }

  /** Over whole runs: the stored weights are positive and sum to at most what the submit addresses may submit. */
  lemma RunWeights(vs: VoterSet, n: nat, messages: seq<Message>)
    ensures var b := Run(vs, n, messages);
            && Consistent(b) && Backed(vs, n, b) && Listed(b.senders, b.ballots)
            && Positive(Votes(b)) && Submitted(Votes(b)) <= SubmittableWeight(vs)
  {
    RunHoldsLatest(vs, n, messages);
    RunBacked(vs, n, messages);
    StoredWeights(vs, n, Run(vs, n, messages));
  }

  // ---------------------------------------------------------------- the bound is attained

  /** Everybody with a submit address sends an empty bit vote. */
  ghost function EverybodyVotes(vs: VoterSet, n: nat): (r: seq<Message>)
    requires n < 65536
    ensures forall a :: a in vs.submitToSigning ==> Message(a, 0, 0, Codec.Encode(Codec.CodedVote(n, 0))) in r
  {
    var senders := Enumerate(vs.submitToSigning.Keys);
    var r := seq(|senders|, k requires 0 <= k < |senders| =>
                              Message(senders[k], 0, 0, Codec.Encode(Codec.CodedVote(n, 0))));
    assert forall a :: a in vs.submitToSigning ==> Message(a, 0, 0, Codec.Encode(Codec.CodedVote(n, 0))) in r by {
      forall a | a in vs.submitToSigning ensures Message(a, 0, 0, Codec.Encode(Codec.CodedVote(n, 0))) in r {
        assert a in Elements(senders);
        var k :| 0 <= k < |senders| && senders[k] == a;
        assert r[k].from == a;
      }
    }
    r
  }

  lemma EmptyVoteCounts(vs: VoterSet, n: nat, a: Address)
    requires n < 65536 && a in vs.submitToSigning && SenderWeight(vs)(a) > 0
    ensures a in Run(vs, n, EverybodyVotes(vs, n)).ballots
  {
    var messages := EverybodyVotes(vs, n);
    var m := Message(a, 0, 0, Codec.Encode(Codec.CodedVote(n, 0)));
    Codec.DecodeEncode(Codec.CodedVote(n, 0));
    assert Check(vs, n, m).Accepted? && m in Elements(messages);
    RunHoldsLatest(vs, n, messages);
    assert Submission(a, Check(vs, n, m).vote) in AcceptedOf(vs, n, Elements(messages));
  }

  lemma EverybodyStored(vs: VoterSet, n: nat)
    requires n < 65536
    ensures var b := Run(vs, n, EverybodyVotes(vs, n));
            Listed(b.senders, b.ballots) && Submitted(Votes(b)) == SubmittableWeight(vs)
  {
    var b := Run(vs, n, EverybodyVotes(vs, n));
    RunWeights(vs, n, EverybodyVotes(vs, n));
    StoredWeights(vs, n, b);
    forall a | a in vs.submitToSigning.Keys - b.ballots.Keys ensures SenderWeight(vs)(a) == 0 {
      if SenderWeight(vs)(a) > 0 {
        EmptyVoteCounts(vs, n, a);
      }
    }
    SumSubset(b.ballots.Keys, vs.submitToSigning.Keys, SenderWeight(vs));
    SumZero(vs.submitToSigning.Keys - b.ballots.Keys, SenderWeight(vs));
  }

  /** A vote is accepted only if its 16-bit length is the number of attestations. */
  lemma {:induction false} NothingFitsLongRounds(vs: VoterSet, n: nat, messages: seq<Message>)
    requires n >= 65536
    ensures Run(vs, n, messages) == EMPTY
  {
    if messages != [] {
      NothingFitsLongRounds(vs, n, messages[..|messages| - 1]);
    }
  }

  /** The weights stored in this run sum to at most `limit`. */
  ghost predicate Within(vs: VoterSet, n: nat, messages: seq<Message>, limit: nat)
  {
    var b := Run(vs, n, messages);
    Listed(b.senders, b.ballots) && Submitted(Votes(b)) <= limit
  }

  /** Exactly when no run can store more than `limit`, such as the total weight or the largest 16-bit number: the submit
      addresses together cannot submit more, or the round is too long for any bit vote. */
  lemma WeightLimit(vs: VoterSet, n: nat, limit: nat)
    ensures (forall messages :: Within(vs, n, messages, limit)) <==> n >= 65536 || SubmittableWeight(vs) <= limit
  {
    forall messages ensures n >= 65536 || SubmittableWeight(vs) <= limit ==> Within(vs, n, messages, limit) {
      RunWeights(vs, n, messages);
      if n >= 65536 {
        NothingFitsLongRounds(vs, n, messages);
        assert Indices(0) == {};
      }
    }
    if n < 65536 && SubmittableWeight(vs) > limit {
      EverybodyStored(vs, n);
      assert !Within(vs, n, EverybodyVotes(vs, n), limit);
    }
  }
}
