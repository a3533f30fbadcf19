/** Aggregation as written: groups collected in a map keyed by a string of zeros and ones. */
module AggregateMethods {
  import opened Sorting
  import opened Instances
  import opened Ballots
  import opened Filtering
  import opened Aggregation

  // ---------------------------------------------------------------- lists from sets and maps

  /** The keys of a map in an arbitrary order. */
  method Keys(s: set<nat>) returns (keys: seq<nat>)
    ensures Elements(keys) == s && Distinct(keys)
  {
    keys := [];
    var todo := s;
    while todo != {}
      invariant todo <= s && Elements(keys) == s - todo && Distinct(keys)
      decreases todo
    {
      var k :| k in todo;
      ElementsAppend(keys, k);
      assert k !in Elements(keys);
      keys := keys + [k];
      todo := todo - {k};
    }
  }

  /** The values of an injective map in an arbitrary order. */
  method ValuesOf<V(==)>(m: map<string, V>) returns (values: seq<V>)
    requires forall k, l :: k in m && l in m && k != l ==> m[k] != m[l]
    ensures Elements(values) == (set k | k in m :: m[k]) && Distinct(values)
  {
    values := [];
    var todo := m.Keys;
    while todo != {}
      invariant todo <= m.Keys
      invariant Elements(values) == set k | k in m && k !in todo :: m[k]
      invariant Distinct(values)
      decreases todo
    {
      var k :| k in todo;
      ElementsAppend(values, m[k]);
      assert m[k] !in Elements(values);
      values := values + [m[k]];
      todo := todo - {k};
    }
  }

  method SortedKeys(s: set<nat>) returns (keys: seq<nat>)
    ensures Elements(keys) == s && Increasing(keys)
  {
    var some := Keys(s);
    keys := Sort(some, NatBefore);
    SortSorted(some, NatBefore);
    MultisetElements(some, keys);
    MultisetDistinct(some, keys);
  }

  lemma ListIs(r: seq<nat>)
    requires r != [] && Increasing(r)
    ensures Elements(r) != {} && List(Elements(r)) == r
  {
    assert r[0] in Elements(r);
    IncreasingIsArranged(r);
  }

  // ---------------------------------------------------------------- identifiers

  ghost function RowId(bits: seq<nat>, vector: set<nat>): string
  {
    seq(|bits|, k requires 0 <= k < |bits| => if bits[k] in vector then '1' else '0')
  }

  ghost function ColumnId(votes: seq<WeightedBitVote>, among: seq<nat>, i: nat): string
  {
    seq(|among|, k requires 0 <= k < |among| => if Marks(votes, among[k], i) then '1' else '0')
  }

  /** Two votes have the same identifier exactly if they agree on every listed bit. */
  lemma RowIdInjective(votes: seq<WeightedBitVote>, bits: seq<nat>, j: nat, k: nat)
    requires j < |votes| && k < |votes|
    ensures RowId(bits, votes[j].bitVote.bitVector) == RowId(bits, votes[k].bitVote.bitVector)
            <==> forall i :: i in Elements(bits) ==> (Marks(votes, k, i) <==> Marks(votes, j, i))
  {
    var a, b := RowId(bits, votes[j].bitVote.bitVector), RowId(bits, votes[k].bitVote.bitVector);
    if a == b {
      forall i | i in Elements(bits) ensures Marks(votes, k, i) <==> Marks(votes, j, i) {
        var n :| 0 <= n < |bits| && bits[n] == i;
        assert a[n] == b[n];
      }
    }
    if forall i :: i in Elements(bits) ==> (Marks(votes, k, i) <==> Marks(votes, j, i)) {
      forall n | 0 <= n < |bits| ensures a[n] == b[n] {
        assert bits[n] in Elements(bits);
      }
      assert a == b;
    }
  }

  lemma ColumnIdInjective(votes: seq<WeightedBitVote>, among: seq<nat>, i: nat, k: nat)
    ensures ColumnId(votes, among, i) == ColumnId(votes, among, k)
            <==> forall j :: j in Elements(among) ==> (Marks(votes, j, k) <==> Marks(votes, j, i))
  {
    var a, b := ColumnId(votes, among, i), ColumnId(votes, among, k);
    if a == b {
      forall j | j in Elements(among) ensures Marks(votes, j, k) <==> Marks(votes, j, i) {
        var n :| 0 <= n < |among| && among[n] == j;
        assert a[n] == b[n];
      }
    }
    if forall j :: j in Elements(among) ==> (Marks(votes, j, k) <==> Marks(votes, j, i)) {
      forall n | 0 <= n < |among| ensures a[n] == b[n] {
        assert among[n] in Elements(among);
      }
      assert a == b;
    }
  }

  lemma PrefixStep(s: seq<nat>, n: nat)
    requires n < |s| && Increasing(s)
    ensures Elements(s[..n + 1]) == Elements(s[..n]) + {s[n]}
    ensures forall x :: x in Elements(s[..n]) ==> x < s[n]
  {
    assert s[..n + 1] == s[..n] + [s[n]];
  }

  lemma RowStep(bitVotes: seq<WeightedBitVote>, fees: seq<nat>, bits: seq<nat>, n: nat, i: nat)
    requires n < |bits| && i < |bitVotes| && Increasing(bits) && Elements(bits) <= Indices(|fees|)
    ensures bits[n] < |fees|
    ensures var vector := bitVotes[i].bitVote.bitVector;
            && RowId(bits[..n + 1], vector) == RowId(bits[..n], vector) + (if bits[n] in vector then "1" else "0")
            && FeeOf(fees, Row(bitVotes, Elements(bits[..n + 1]), i))
               == FeeOf(fees, Row(bitVotes, Elements(bits[..n]), i)) + (if bits[n] in vector then fees[bits[n]] else 0)
  {
    PrefixStep(bits, n);
    assert bits[n] in Elements(bits);
    var row, row' := Row(bitVotes, Elements(bits[..n]), i), Row(bitVotes, Elements(bits[..n + 1]), i);
    if bits[n] in bitVotes[i].bitVote.bitVector {
      assert row' == row + {bits[n]};
      FeeOfAdd(fees, row, bits[n]);
    } else {
      assert row' == row;
    }
  }

  lemma ColumnStep(bitVotes: seq<WeightedBitVote>, among: seq<nat>, n: nat, i: nat)
    requires n < |among| && Increasing(among) && Elements(among) <= Indices(|bitVotes|)
    ensures among[n] < |bitVotes|
    ensures Support(bitVotes, Elements(among[..n + 1]), i)
            == Support(bitVotes, Elements(among[..n]), i)
               + (if Marks(bitVotes, among[n], i) then bitVotes[among[n]].weight else 0)
    ensures Support(bitVotes, Elements(among[..n + 1]), i) <= WeightOf(bitVotes, Elements(among))
  {
    PrefixStep(among, n);
    var j := among[n];
    assert j in Elements(among) && j in Indices(|bitVotes|);
    var seen, seen' := Confirming(bitVotes, Elements(among[..n]), i), Confirming(bitVotes, Elements(among[..n + 1]), i);
    if Marks(bitVotes, j, i) {
      assert seen' == seen + {j};
      WeightOfAdd(bitVotes, seen, j);
    } else {
      assert seen' == seen;
    }
    PrefixWithin(among, n + 1);
    WeightOfSubset(bitVotes, seen', Elements(among));
  }

  lemma PrefixWithin(s: seq<nat>, n: nat)
    requires n <= |s|
    ensures Elements(s[..n]) <= Elements(s)
  {
  }

  lemma ColumnIdStep(bitVotes: seq<WeightedBitVote>, among: seq<nat>, n: nat, i: nat)
    requires n < |among|
    ensures ColumnId(bitVotes, among[..n + 1], i)
            == ColumnId(bitVotes, among[..n], i) + (if Marks(bitVotes, among[n], i) then "1" else "0")
  {
    assert among[..n + 1] == among[..n] + [among[n]];
  }

  /** Identifier and confirmed fees of vote `i`, read along the sorted bits. */
  method ReadRow(bitVotes: seq<WeightedBitVote>, fees: seq<nat>, bits: seq<nat>, guaranteedFees: nat, i: nat)
    returns (identifier: string, feesVote: nat)
    requires i < |bitVotes| && Increasing(bits) && Elements(bits) <= Indices(|fees|)
    ensures identifier == RowId(bits, bitVotes[i].bitVote.bitVector)
    ensures feesVote == guaranteedFees + FeeOf(fees, Row(bitVotes, Elements(bits), i))
  {
    identifier, feesVote := "", guaranteedFees;
    for n := 0 to |bits|
      invariant identifier == RowId(bits[..n], bitVotes[i].bitVote.bitVector)
      invariant feesVote == guaranteedFees + FeeOf(fees, Row(bitVotes, Elements(bits[..n]), i))
    {
      RowStep(bitVotes, fees, bits, n, i);
      if bits[n] in bitVotes[i].bitVote.bitVector {
        feesVote := feesVote + fees[bits[n]];
        identifier := identifier + "1";
      } else {
        identifier := identifier + "0";
      }
    }
    assert bits[..|bits|] == bits;
  }

  /** Identifier and support of bit `i`, read along the sorted votes. */
  method ReadColumn(bitVotes: seq<WeightedBitVote>, among: seq<nat>, guaranteedWeight: nat, i: nat)
    returns (identifier: string, support: nat)
    requires Increasing(among) && Elements(among) <= Indices(|bitVotes|)
    requires guaranteedWeight + WeightOf(bitVotes, Elements(among)) <= MAX_UINT16
    ensures identifier == ColumnId(bitVotes, among, i)
    ensures support == guaranteedWeight + Support(bitVotes, Elements(among), i)
  {
    identifier, support := "", guaranteedWeight;
    for n := 0 to |among|
      invariant identifier == ColumnId(bitVotes, among[..n], i)
      invariant support == guaranteedWeight + Support(bitVotes, Elements(among[..n]), i)
    {
      ColumnStep(bitVotes, among, n, i);
      ColumnIdStep(bitVotes, among, n, i);
      if i in bitVotes[among[n]].bitVote.bitVector {
        support := Add16(support, bitVotes[among[n]].weight);
        identifier := identifier + "1";
      } else {
        identifier := identifier + "0";
      }
    }
    assert among[..|among|] == among;
  }

  // ---------------------------------------------------------------- growing the groups

  /** The votes seen so far that have identifier `id`. */
  ghost function VotesWith(votes: seq<WeightedBitVote>, seen: set<nat>, bits: seq<nat>, id: string): set<nat>
  {
    set j | j in seen && j < |votes| && RowId(bits, votes[j].bitVote.bitVector) == id
  }

  /** The bits seen so far that have identifier `id`. */
  ghost function BitsWith(votes: seq<WeightedBitVote>, seen: set<nat>, among: seq<nat>, id: string): set<nat>
  {
    set i | i in seen && ColumnId(votes, among, i) == id
  }

  /** `e` aggregates exactly the votes of `group`, with the vector and fees of its first member. */
  ghost predicate AggregatesVotes(e: AggregatedVote, votes: seq<WeightedBitVote>, fees: seq<nat>, bits: set<nat>,
                                  fee: nat, group: set<nat>)
  {
    && group == Elements(e.indexes) && Increasing(e.indexes) && e.weight == WeightOf(votes, group)
    && e.indexes[0] < |votes| && e.bitVector == votes[e.indexes[0]].bitVote.bitVector
    && e.fees == fee + FeeOf(fees, Row(votes, bits, e.indexes[0]))
  }

  /** `e` aggregates exactly the bits of `group`, with the support of its first member. */
  ghost predicate AggregatesBits(e: AggregatedBit, votes: seq<WeightedBitVote>, fees: seq<nat>, among: set<nat>,
                                 weight: nat, group: set<nat>)
  {
    && group == Elements(e.indexes) && Increasing(e.indexes) && e.fee == FeeOf(fees, group)
    && e.support == weight + Support(votes, among, e.indexes[0])
  }

  /** The entry under `id` aggregates the votes seen with that identifier; without an entry there are none. */
  ghost predicate VoteEntry(m: map<string, AggregatedVote>, votes: seq<WeightedBitVote>, fees: seq<nat>,
                            seen: set<nat>, bits: seq<nat>, fee: nat, id: string)
  {
    var group := VotesWith(votes, seen, bits, id);
    if id in m then AggregatesVotes(m[id], votes, fees, Elements(bits), fee, group) else group == {}
  }

  ghost predicate BitEntry(m: map<string, AggregatedBit>, votes: seq<WeightedBitVote>, fees: seq<nat>,
                           seen: set<nat>, among: seq<nat>, weight: nat, id: string)
  {
    var group := BitsWith(votes, seen, among, id);
    if id in m then AggregatesBits(m[id], votes, fees, Elements(among), weight, group) else group == {}
  }

  ghost predicate HoldsVotes(m: map<string, AggregatedVote>, votes: seq<WeightedBitVote>, fees: seq<nat>,
                             seen: set<nat>, bits: seq<nat>, fee: nat)
  {
    forall id :: VoteEntry(m, votes, fees, seen, bits, fee, id)
  }

  ghost predicate HoldsBits(m: map<string, AggregatedBit>, votes: seq<WeightedBitVote>, fees: seq<nat>,
                            seen: set<nat>, among: seq<nat>, weight: nat)
  {
    forall id :: BitEntry(m, votes, fees, seen, among, weight, id)
  }

  /** An aggregated vote joined by vote number `i`. */
  function Joined(e: AggregatedVote, vote: WeightedBitVote, i: nat): AggregatedVote
  {
    e.(weight := Add16(e.weight, vote.weight), indexes := e.indexes + [i])
  }

  lemma VoteJoins(e: AggregatedVote, votes: seq<WeightedBitVote>, fees: seq<nat>, bits: set<nat>, fee: nat,
                  group: set<nat>, i: nat)
    requires AggregatesVotes(e, votes, fees, bits, fee, group)
    requires i < |votes| && (forall x :: x in group ==> x < i)
    requires WeightOf(votes, group) + votes[i].weight <= MAX_UINT16
    ensures AggregatesVotes(Joined(e, votes[i], i), votes, fees, bits, fee, group + {i})
  {
    var e' := Joined(e, votes[i], i);
    ElementsAppend(e.indexes, i);
    assert forall k :: 0 <= k < |e.indexes| ==> e.indexes[k] in group;
    assert e'.weight == WeightOf(votes, group + {i}) by { WeightOfAdd(votes, group, i); }
    assert e'.indexes[0] == e.indexes[0];
  }

  lemma VoteStarts(votes: seq<WeightedBitVote>, fees: seq<nat>, bits: set<nat>, fee: nat, i: nat)
    requires i < |votes|
    ensures AggregatesVotes(AggregatedVote(votes[i].bitVote.bitVector, votes[i].weight, [i],
                                           fee + FeeOf(fees, Row(votes, bits, i))),
                            votes, fees, bits, fee, {i})
  {
    assert Elements([i]) == {i};
    WeightOfAdd(votes, {}, i);
    assert {} + {i} == {i};
  }

  function JoinedBit(e: AggregatedBit, fee: nat, i: nat): AggregatedBit
  {
    e.(fee := e.fee + fee, indexes := e.indexes + [i])
  }

  lemma BitJoins(e: AggregatedBit, votes: seq<WeightedBitVote>, fees: seq<nat>, among: set<nat>, weight: nat,
                 group: set<nat>, i: nat)
    requires AggregatesBits(e, votes, fees, among, weight, group)
    requires i < |fees| && forall x :: x in group ==> x < i
    ensures AggregatesBits(JoinedBit(e, fees[i], i), votes, fees, among, weight, group + {i})
  {
    var e' := JoinedBit(e, fees[i], i);
    ElementsAppend(e.indexes, i);
    assert forall k :: 0 <= k < |e.indexes| ==> e.indexes[k] in group;
    assert e'.fee == FeeOf(fees, group + {i}) by { FeeOfAdd(fees, group, i); }
    assert e'.indexes[0] == e.indexes[0];
  }

  lemma BitStarts(votes: seq<WeightedBitVote>, fees: seq<nat>, among: set<nat>, weight: nat, i: nat)
    requires i < |fees|
    ensures AggregatesBits(AggregatedBit(fees[i], [i], weight + Support(votes, among, i)),
                           votes, fees, among, weight, {i})
  {
    assert Elements([i]) == {i};
    FeeOfAdd(fees, {}, i);
    assert {} + {i} == {i};
  }

  lemma VotesWithStep(votes: seq<WeightedBitVote>, seen: set<nat>, bits: seq<nat>, i: nat, id: string)
    requires i < |votes|
    ensures VotesWith(votes, seen + {i}, bits, id)
            == if RowId(bits, votes[i].bitVote.bitVector) == id then VotesWith(votes, seen, bits, id) + {i}
               else VotesWith(votes, seen, bits, id)
  {
  }

  lemma BitsWithStep(votes: seq<WeightedBitVote>, seen: set<nat>, among: seq<nat>, i: nat, id: string)
    ensures BitsWith(votes, seen + {i}, among, id)
            == if ColumnId(votes, among, i) == id then BitsWith(votes, seen, among, id) + {i}
               else BitsWith(votes, seen, among, id)
  {
  }

  /** Replacing the entry of vote `i` keeps the map right for one more vote. */
  lemma VotesStep(m: map<string, AggregatedVote>, votes: seq<WeightedBitVote>, fees: seq<nat>, seen: set<nat>,
                  bits: seq<nat>, fee: nat, i: nat, id: string, e: AggregatedVote)
    requires HoldsVotes(m, votes, fees, seen, bits, fee)
    requires i < |votes| && id == RowId(bits, votes[i].bitVote.bitVector)
    requires AggregatesVotes(e, votes, fees, Elements(bits), fee, VotesWith(votes, seen, bits, id) + {i})
    ensures HoldsVotes(m[id := e], votes, fees, seen + {i}, bits, fee)
  {
    var m', seen' := m[id := e], seen + {i};
    forall d ensures VoteEntry(m', votes, fees, seen', bits, fee, d) {
      VotesWithStep(votes, seen, bits, i, d);
      assert VoteEntry(m, votes, fees, seen, bits, fee, d);
    }
  }

  lemma BitsStep(m: map<string, AggregatedBit>, votes: seq<WeightedBitVote>, fees: seq<nat>, seen: set<nat>,
                 among: seq<nat>, weight: nat, i: nat, id: string, e: AggregatedBit)
    requires HoldsBits(m, votes, fees, seen, among, weight)
    requires id == ColumnId(votes, among, i)
    requires AggregatesBits(e, votes, fees, Elements(among), weight, BitsWith(votes, seen, among, id) + {i})
    ensures HoldsBits(m[id := e], votes, fees, seen + {i}, among, weight)
  {
    var m', seen' := m[id := e], seen + {i};
    forall d ensures BitEntry(m', votes, fees, seen', among, weight, d) {
      BitsWithStep(votes, seen, among, i, d);
      assert BitEntry(m, votes, fees, seen, among, weight, d);
    }
  }

  /** An entry of the finished map is the group of each of its members. */
  lemma VoteEntryIsGroup(e: AggregatedVote, votes: seq<WeightedBitVote>, fees: seq<nat>, among: set<nat>,
                         bits: seq<nat>, fee: nat, j: nat)
    requires j in among && among <= Indices(|votes|)
    requires AggregatesVotes(e, votes, fees, Elements(bits), fee,
                             VotesWith(votes, among, bits, RowId(bits, votes[j].bitVote.bitVector)))
    ensures e == VoteGroup(votes, fees, among, Elements(bits), fee, j)
  {
    var group := VotesWith(votes, among, bits, RowId(bits, votes[j].bitVote.bitVector));
    forall k | k in among ensures k in group <==> k in SameRow(votes, among, Elements(bits), j) {
      RowIdInjective(votes, bits, j, k);
    }
    assert group == SameRow(votes, among, Elements(bits), j);
    ListIs(e.indexes);
    assert e.indexes[0] in Elements(e.indexes);
    assert Row(votes, Elements(bits), e.indexes[0]) == Row(votes, Elements(bits), j);
  }

  lemma BitEntryIsGroup(e: AggregatedBit, votes: seq<WeightedBitVote>, fees: seq<nat>, bits: set<nat>,
                        among: seq<nat>, weight: nat, i: nat)
    requires i in bits
    requires AggregatesBits(e, votes, fees, Elements(among), weight,
                            BitsWith(votes, bits, among, ColumnId(votes, among, i)))
    ensures e == BitGroup(votes, fees, bits, Elements(among), weight, i)
  {
    var group := BitsWith(votes, bits, among, ColumnId(votes, among, i));
    forall k | k in bits ensures k in group <==> k in SameColumn(votes, bits, Elements(among), i) {
      ColumnIdInjective(votes, among, i, k);
    }
    assert group == SameColumn(votes, bits, Elements(among), i);
    ListIs(e.indexes);
    assert e.indexes[0] in Elements(e.indexes);
    assert Confirming(votes, Elements(among), e.indexes[0]) == Confirming(votes, Elements(among), i);
  }

  lemma VoteEntryOf(m: map<string, AggregatedVote>, votes: seq<WeightedBitVote>, fees: seq<nat>, among: set<nat>,
                    bits: seq<nat>, fee: nat, id: string) returns (j: nat)
    requires HoldsVotes(m, votes, fees, among, bits, fee) && among <= Indices(|votes|) && id in m
    ensures j in among && m[id] == VoteGroup(votes, fees, among, Elements(bits), fee, j)
  {
    assert VoteEntry(m, votes, fees, among, bits, fee, id);
    j := m[id].indexes[0];
    assert j in Elements(m[id].indexes);
    VoteEntryIsGroup(m[id], votes, fees, among, bits, fee, j);
  }

  lemma EntryOfVote(m: map<string, AggregatedVote>, votes: seq<WeightedBitVote>, fees: seq<nat>, among: set<nat>,
                    bits: seq<nat>, fee: nat, j: nat) returns (id: string)
    requires HoldsVotes(m, votes, fees, among, bits, fee) && among <= Indices(|votes|) && j in among
    ensures id in m && m[id] == VoteGroup(votes, fees, among, Elements(bits), fee, j)
  {
    id := RowId(bits, votes[j].bitVote.bitVector);
    assert VoteEntry(m, votes, fees, among, bits, fee, id) && j in VotesWith(votes, among, bits, id);
    VoteEntryIsGroup(m[id], votes, fees, among, bits, fee, j);
  }

  lemma VoteEntriesDiffer(m: map<string, AggregatedVote>, votes: seq<WeightedBitVote>, fees: seq<nat>, among: set<nat>,
                          bits: seq<nat>, fee: nat, k: string, l: string)
    requires HoldsVotes(m, votes, fees, among, bits, fee) && k in m && l in m && k != l
    ensures m[k] != m[l]
  {
    assert VoteEntry(m, votes, fees, among, bits, fee, k) && VoteEntry(m, votes, fees, among, bits, fee, l);
    var j := m[k].indexes[0];
    assert j in Elements(m[k].indexes) && j in VotesWith(votes, among, bits, k);
    assert j !in VotesWith(votes, among, bits, l);
  }

  lemma BitEntryOf(m: map<string, AggregatedBit>, votes: seq<WeightedBitVote>, fees: seq<nat>, bits: set<nat>,
                   among: seq<nat>, weight: nat, id: string) returns (i: nat)
    requires HoldsBits(m, votes, fees, bits, among, weight) && id in m
    ensures i in bits && m[id] == BitGroup(votes, fees, bits, Elements(among), weight, i)
  {
    assert BitEntry(m, votes, fees, bits, among, weight, id);
    i := m[id].indexes[0];
    assert i in Elements(m[id].indexes);
    BitEntryIsGroup(m[id], votes, fees, bits, among, weight, i);
  }

  lemma EntryOfBit(m: map<string, AggregatedBit>, votes: seq<WeightedBitVote>, fees: seq<nat>, bits: set<nat>,
                   among: seq<nat>, weight: nat, i: nat) returns (id: string)
    requires HoldsBits(m, votes, fees, bits, among, weight) && i in bits
    ensures id in m && m[id] == BitGroup(votes, fees, bits, Elements(among), weight, i)
  {
    id := ColumnId(votes, among, i);
    assert BitEntry(m, votes, fees, bits, among, weight, id) && i in BitsWith(votes, bits, among, id);
    BitEntryIsGroup(m[id], votes, fees, bits, among, weight, i);
  }

  lemma BitEntriesDiffer(m: map<string, AggregatedBit>, votes: seq<WeightedBitVote>, fees: seq<nat>, bits: set<nat>,
                         among: seq<nat>, weight: nat, k: string, l: string)
    requires HoldsBits(m, votes, fees, bits, among, weight) && k in m && l in m && k != l
    ensures m[k] != m[l]
  {
    assert BitEntry(m, votes, fees, bits, among, weight, k) && BitEntry(m, votes, fees, bits, among, weight, l);
    var i := m[k].indexes[0];
    assert i in Elements(m[k].indexes) && i in BitsWith(votes, bits, among, k);
    assert i !in BitsWith(votes, bits, among, l);
  }

  lemma ValuesAre<V(!new)>(m: map<string, V>, groups: set<V>)
    requires forall id :: id in m ==> m[id] in groups
    requires forall v :: v in groups ==> exists id :: id in m && m[id] == v
    ensures (set id | id in m :: m[id]) == groups
  {
  }

  lemma VoteEntryGrouped(m: map<string, AggregatedVote>, votes: seq<WeightedBitVote>, fees: seq<nat>, among: set<nat>,
                         bits: seq<nat>, fee: nat, id: string)
    requires HoldsVotes(m, votes, fees, among, bits, fee) && among <= Indices(|votes|) && id in m
    ensures m[id] in VoteGroups(votes, fees, among, Elements(bits), fee)
  {
    var j := VoteEntryOf(m, votes, fees, among, bits, fee, id);
  }

  lemma VoteGroupEntered(m: map<string, AggregatedVote>, votes: seq<WeightedBitVote>, fees: seq<nat>, among: set<nat>,
                         bits: seq<nat>, fee: nat, v: AggregatedVote)
    requires HoldsVotes(m, votes, fees, among, bits, fee) && among <= Indices(|votes|)
    requires v in VoteGroups(votes, fees, among, Elements(bits), fee)
    ensures exists id :: id in m && m[id] == v
  {
    var j :| j in among && v == VoteGroup(votes, fees, among, Elements(bits), fee, j);
    var id := EntryOfVote(m, votes, fees, among, bits, fee, j);
  }

  /** The finished map holds exactly the groups, each under one key. */
  lemma FinishedVotes(m: map<string, AggregatedVote>, votes: seq<WeightedBitVote>, fees: seq<nat>, among: set<nat>,
                      bits: seq<nat>, fee: nat)
    requires HoldsVotes(m, votes, fees, among, bits, fee) && among <= Indices(|votes|)
    ensures (set id | id in m :: m[id]) == VoteGroups(votes, fees, among, Elements(bits), fee)
    ensures forall k, l :: k in m && l in m && k != l ==> m[k] != m[l]
  {
    var groups := VoteGroups(votes, fees, among, Elements(bits), fee);
    forall id | id in m ensures m[id] in groups {
      VoteEntryGrouped(m, votes, fees, among, bits, fee, id);
    }
    forall v | v in groups ensures exists id :: id in m && m[id] == v {
      VoteGroupEntered(m, votes, fees, among, bits, fee, v);
    }
    ValuesAre(m, groups);
    forall k, l | k in m && l in m && k != l ensures m[k] != m[l] {
      VoteEntriesDiffer(m, votes, fees, among, bits, fee, k, l);
    }
  }

  lemma BitEntryGrouped(m: map<string, AggregatedBit>, votes: seq<WeightedBitVote>, fees: seq<nat>, bits: set<nat>,
                        among: seq<nat>, weight: nat, id: string)
    requires HoldsBits(m, votes, fees, bits, among, weight) && id in m
    ensures m[id] in BitGroups(votes, fees, bits, Elements(among), weight)
  {
    var i := BitEntryOf(m, votes, fees, bits, among, weight, id);
  }

  lemma BitGroupEntered(m: map<string, AggregatedBit>, votes: seq<WeightedBitVote>, fees: seq<nat>, bits: set<nat>,
                        among: seq<nat>, weight: nat, b: AggregatedBit)
    requires HoldsBits(m, votes, fees, bits, among, weight)
    requires b in BitGroups(votes, fees, bits, Elements(among), weight)
    ensures exists id :: id in m && m[id] == b
  {
    var i :| i in bits && b == BitGroup(votes, fees, bits, Elements(among), weight, i);
    var id := EntryOfBit(m, votes, fees, bits, among, weight, i);
  }

  lemma FinishedBits(m: map<string, AggregatedBit>, votes: seq<WeightedBitVote>, fees: seq<nat>, bits: set<nat>,
                     among: seq<nat>, weight: nat)
    requires HoldsBits(m, votes, fees, bits, among, weight)
    ensures (set id | id in m :: m[id]) == BitGroups(votes, fees, bits, Elements(among), weight)
    ensures forall k, l :: k in m && l in m && k != l ==> m[k] != m[l]
  {
    var groups := BitGroups(votes, fees, bits, Elements(among), weight);
    forall id | id in m ensures m[id] in groups {
      BitEntryGrouped(m, votes, fees, bits, among, weight, id);
    }
    forall b | b in groups ensures exists id :: id in m && m[id] == b {
      BitGroupEntered(m, votes, fees, bits, among, weight, b);
    }
    ValuesAre(m, groups);
    forall k, l | k in m && l in m && k != l ensures m[k] != m[l] {
      BitEntriesDiffer(m, votes, fees, bits, among, weight, k, l);
    }
  }

  lemma JoinFits(votes: seq<WeightedBitVote>, group: set<nat>, seen: set<nat>, i: nat)
    requires group <= seen && i !in seen && i < |votes| && WeightOf(votes, seen + {i}) <= MAX_UINT16
    ensures WeightOf(votes, group) + votes[i].weight <= MAX_UINT16
  {
    WeightOfAdd(votes, group, i);
    WeightOfSubset(votes, group + {i}, seen + {i});
  }

  /** Puts vote `i` into its group: it founds one or joins one. */
  method PutVote(aggregator: map<string, AggregatedVote>, bitVotes: seq<WeightedBitVote>, fees: seq<nat>,
                 bits: seq<nat>, guaranteedFees: nat, i: nat, ghost seen: set<nat>)
    returns (r: map<string, AggregatedVote>)
    requires HoldsVotes(aggregator, bitVotes, fees, seen, bits, guaranteedFees)
    requires Increasing(bits) && Elements(bits) <= Indices(|fees|)
    requires i < |bitVotes| && (forall x :: x in seen ==> x < i) && WeightOf(bitVotes, seen + {i}) <= MAX_UINT16
    ensures HoldsVotes(r, bitVotes, fees, seen + {i}, bits, guaranteedFees)
  {
    var identifier, feesVote := ReadRow(bitVotes, fees, bits, guaranteedFees, i);
    ghost var group := VotesWith(bitVotes, seen, bits, identifier);
    assert VoteEntry(aggregator, bitVotes, fees, seen, bits, guaranteedFees, identifier);
    if identifier !in aggregator {
      VoteStarts(bitVotes, fees, Elements(bits), guaranteedFees, i);
      assert group + {i} == {i};
      var e := AggregatedVote(bitVotes[i].bitVote.bitVector, bitVotes[i].weight, [i], feesVote);
      VotesStep(aggregator, bitVotes, fees, seen, bits, guaranteedFees, i, identifier, e);
      r := aggregator[identifier := e];
    } else {
      JoinFits(bitVotes, group, seen, i);
      VoteJoins(aggregator[identifier], bitVotes, fees, Elements(bits), guaranteedFees, group, i);
      var e := Joined(aggregator[identifier], bitVotes[i], i);
      VotesStep(aggregator, bitVotes, fees, seen, bits, guaranteedFees, i, identifier, e);
      r := aggregator[identifier := e];
    }
  }

  method PutBit(aggregator: map<string, AggregatedBit>, bitVotes: seq<WeightedBitVote>, fees: seq<nat>,
                among: seq<nat>, guaranteedWeight: nat, i: nat, ghost seen: set<nat>)
    returns (r: map<string, AggregatedBit>)
    requires HoldsBits(aggregator, bitVotes, fees, seen, among, guaranteedWeight)
    requires Increasing(among) && Elements(among) <= Indices(|bitVotes|)
    requires guaranteedWeight + WeightOf(bitVotes, Elements(among)) <= MAX_UINT16
    requires i < |fees| && (forall x :: x in seen ==> x < i)
    ensures HoldsBits(r, bitVotes, fees, seen + {i}, among, guaranteedWeight)
  {
    var identifier, support := ReadColumn(bitVotes, among, guaranteedWeight, i);
    ghost var group := BitsWith(bitVotes, seen, among, identifier);
    assert BitEntry(aggregator, bitVotes, fees, seen, among, guaranteedWeight, identifier);
    if identifier !in aggregator {
      BitStarts(bitVotes, fees, Elements(among), guaranteedWeight, i);
      assert group + {i} == {i};
      var e := AggregatedBit(fees[i], [i], support);
      BitsStep(aggregator, bitVotes, fees, seen, among, guaranteedWeight, i, identifier, e);
      r := aggregator[identifier := e];
    } else {
      BitJoins(aggregator[identifier], bitVotes, fees, Elements(among), guaranteedWeight, group, i);
      var e := JoinedBit(aggregator[identifier], fees[i], i);
      BitsStep(aggregator, bitVotes, fees, seen, among, guaranteedWeight, i, identifier, e);
      r := aggregator[identifier := e];
    }
  }

  lemma PrefixFits(bitVotes: seq<WeightedBitVote>, votes: seq<nat>, n: nat)
    requires n < |votes| && Increasing(votes) && Elements(votes) <= Indices(|bitVotes|)
    ensures votes[n] < |bitVotes| && Elements(votes[..n + 1]) == Elements(votes[..n]) + {votes[n]}
    ensures forall x :: x in Elements(votes[..n]) ==> x < votes[n]
    ensures WeightOf(bitVotes, Elements(votes[..n]) + {votes[n]}) <= WeightOf(bitVotes, Elements(votes))
  {
    PrefixStep(votes, n);
    assert votes[n] in Elements(votes);
    assert Elements(votes[..n + 1]) <= Elements(votes);
    WeightOfSubset(bitVotes, Elements(votes[..n + 1]), Elements(votes));
  }

  /** The groups of votes, in the arbitrary order of the map that collected them. */
  method AggregateVotes(bitVotes: seq<WeightedBitVote>, fees: seq<nat>, remainingBits: set<nat>,
                        remainingVotes: set<nat>, guaranteedFees: nat) returns (groups: seq<AggregatedVote>)
    requires remainingBits <= Indices(|fees|) && remainingVotes <= Indices(|bitVotes|)
    requires WeightOf(bitVotes, remainingVotes) <= MAX_UINT16
    ensures Distinct(groups)
    ensures Elements(groups) == VoteGroups(bitVotes, fees, remainingVotes, remainingBits, guaranteedFees)
    ensures forall v :: v in groups ==> Increasing(v.indexes)
  {
    var aggregator: map<string, AggregatedVote> := map[];
    var bits := SortedKeys(remainingBits);
    var votes := SortedKeys(remainingVotes);
    for n := 0 to |votes|
      invariant HoldsVotes(aggregator, bitVotes, fees, Elements(votes[..n]), bits, guaranteedFees)
    {
      PrefixFits(bitVotes, votes, n);
      aggregator := PutVote(aggregator, bitVotes, fees, bits, guaranteedFees, votes[n], Elements(votes[..n]));
    }
    assert votes[..|votes|] == votes;
    FinishedVotes(aggregator, bitVotes, fees, remainingVotes, bits, guaranteedFees);
    groups := ValuesOf(aggregator);
    assert forall v :: v in groups ==> v in Elements(groups);
  }

  /** The groups of bits, in the arbitrary order of the map that collected them. */
  method AggregateBits(bitVotes: seq<WeightedBitVote>, fees: seq<nat>, remainingBits: set<nat>,
                       remainingVotes: set<nat>, guaranteedWeight: nat) returns (groups: seq<AggregatedBit>)
    requires remainingBits <= Indices(|fees|) && remainingVotes <= Indices(|bitVotes|)
    requires guaranteedWeight + WeightOf(bitVotes, remainingVotes) <= MAX_UINT16
    ensures Distinct(groups)
    ensures Elements(groups) == BitGroups(bitVotes, fees, remainingBits, remainingVotes, guaranteedWeight)
    ensures forall b :: b in groups ==> Increasing(b.indexes)
  {
    var aggregator: map<string, AggregatedBit> := map[];
    var bits := SortedKeys(remainingBits);
    var votes := SortedKeys(remainingVotes);
    for n := 0 to |bits|
      invariant HoldsBits(aggregator, bitVotes, fees, Elements(bits[..n]), votes, guaranteedWeight)
    {
      PrefixStep(bits, n);
      assert bits[n] in Elements(bits);
      aggregator := PutBit(aggregator, bitVotes, fees, votes, guaranteedWeight, bits[n], Elements(bits[..n]));
    }
    assert bits[..|bits|] == bits;
    FinishedBits(aggregator, bitVotes, fees, remainingBits, votes, guaranteedWeight);
    groups := ValuesOf(aggregator);
    assert forall b :: b in groups ==> b in Elements(groups);
  }
}
