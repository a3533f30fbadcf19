# Verified model of the FDC client's consensus bit vote

The Flare Data Connector client collects attestation requests in voting rounds. In the choose phase every provider submits a
bit vote: one bit per attestation, set if the provider could verify it. From the weighted votes each client computes, on its
own, the *consensus bit vote*: a set of attestations that a strict majority of weight jointly confirms and whose value, the
pair (fees × support capped at four fifths of the total weight, fees × support) compared lexicographically, is as large as
possible. All clients must arrive at the same set.

This project models that computation and what surrounds it in Dafny, and proves it correct.

| file | content |
|---|---|
| `Sums.dfy`, `Sorting.dfy` | finite sums over sets; stable sorting and uniqueness of its result without ties |
| `Values.dfy`, `Instances.dfy`, `Ballots.dfy` | values, the aggregated instance with its two dual views, the original problem |
| `Search.dfy`, `BitsSearch.dfy`, `VotesSearch.dfy` | the two branch and bound recursions: what they return, exactness, work bound, and the recursions as written |
| `Solver.dfy`, `BranchAndBound.dfy` | the four strategies: guarantees, and the loops as written |
| `Descent.dfy` | the first path of each search: exactly when a budget lets it find anything |
| `TieBreaks.dfy` | which of several equally good sets a search returns |
| `DoubleRun.dfy` | the two concurrent workers and their coordinator as an interleaving state machine |
| `Filtering.dfy`, `FilterMethods.dfy` | the three filter passes: what they decide, and the record they update in place |
| `Aggregation.dfy`, `AggregateMethods.dfy` | groups of equal rows and columns, and the maps that collect them |
| `Reduction.dfy`, `Ensemble.dfy` | reduced instance against original problem; the whole pipeline and its theorems |
| `Intake.dfy`, `Collection.dfy`, `Rounds.dfy` | requests, votes and the round object |
| `Agreement.dfy` | what two clients agree on that see the same events in different orders |
| `Codec.dfy`, `Timing.dfy`, `Trigger.dfy` | wire format, phase windows, the trigger of the choose phase |
| `Witnesses.dfy` | inputs on which tempting properties fail, beside the theorems that say when they hold, and small problems solved completely |

## Main results

- `Ensemble.OptimalConsensus`: when the chosen solution is flagged optimal, the assembled bit vote is worth at least as much as
  *every* set of attestations that a strict majority jointly confirms in the original, unfiltered problem.
- `Ensemble.AmpleBudgetIsOptimal`: with a budget above the cost of the whole search trees, the same optimality holds without
  looking at the flag, the fallback included.
- `Ensemble.FourFifthsWin`: what that means in fees and weights. No set confirmed by at least four fifths of the total weight pays
  more than the consensus, and none that pays the same is confirmed by more.
- `Ensemble.BitTies`, `Ensemble.VoteTies`: of all sets of the best value, a complete first search returns the one that its list puts
  first, and `Solver.BitsListed`, `Solver.VotesListed` say what that list is. `Witnesses.TieDecided` is a tie decided this way.
- `Ensemble.ReportedExactly`: the reported value is the true value of the result if and only if no fees are guaranteed or one of
  the four searches can finish its first path; otherwise it is too low (`Witnesses.Understated`). Two operations per attestation
  are enough (`Ensemble.ReportedIsTrue`), so the client always reports the true value (`Rounds.ClientReportsTrueValue`).
- `Ensemble.JointMajority`: however the search ended (complete, cut by its budget, maximised or fallen back), one strict
  majority of weight confirms every bit of the result.
- `Ensemble.FailsExactlyWithoutQuorum`: the only failure is a submitted weight of at most half, although the code looks at the
  weight only after it has dropped all-zero votes.
- `Ensemble.EnsembleConsensusBitVote`: the result is a function of votes, fees, total weight and budget. The methods visit Go
  maps in arbitrary order (`:|`), and still equal order-free specifications.
- `Solver.RunBitsExact`, `Solver.RunVotesExact`, `Solver.SearchesAgree`: exact search under a budget for either exploration
  order and any initial bound, and agreement of the two dual searches.
- `Solver.RunBitsOps`, `Solver.RunVotesOps`: the exponential trees are cut so that the operation counter stays within the budget
  plus a term linear in the depth.
- `DoubleRun.EveryInterleaving`: no deadlock, no read of an unwritten solution, and one answer over all interleavings.
- `Agreement.ClientsAgree`: two clients that receive the same request logs and bit votes in different orders, sorting whenever
  they like, list the same attestations and fees, reach or miss the quorum together, and after complete searches choose sets of
  the same value. They choose the same set if they heard the senders for the first time in the same order; in general the
  order of the vote list breaks ties. It rests on `Intake.IntakeConfluent` and `Collection.CollectionConfluent`.
- `Collection.WeightLimit`: exactly which voter sets keep the stored weights within a limit in every run, such as the total weight
  or 16 bits. The round's invariant hands this to the optimiser (`Rounds.Round.ComputeConsensusBitVote`).
- `Trigger.RunStaysOnTrack`, `Trigger.AnnouncesExactly`, `Trigger.NeverEarly`, `Timing.RequestsPrecedeBitVotes`,
  `Timing.WindowsDisjointIff`: rounds are announced consecutively, exactly when due, and the phases do not overlap.

## Modelling choices

- A bit vector is the set of positions of its ones; `Codec.BitsInjective` and `Codec.BitLenBounds` tie it to the number on the wire.
- Fees are natural numbers. Weights are 16-bit: additions go through `Add16`, which wraps, and the optimiser's methods ask that
  all submitted weights sum to at most 65535. `Collection.WeightLimit` says exactly when every run meets this, and
  `Collection.InjectiveFits` that one submit address per voter is enough.
- `WeightCap` writes the floating-point cap `ceil(total * 0.8)` as the integer `(4 * total + 4) / 5`, its exact value for every
  16-bit total.
- A map `map[int]bool` of list positions is the set of the list's elements: aggregated votes and bits are distinct, so an index
  and the element it selects identify each other. The lists handed to a search are still lists in arbitrary order.
- `slices.SortStableFunc`, `slices.Sort` and `sort.Slice` are insertion sorts; only their contracts matter, since the orders have
  no ties.
- The hash of a request is the request itself, and the round's locks are left out: each method is one atomic step, except in
  `DoubleRun`, where every channel operation and every shared write is a step of its own.
- Where the code and its comments differ, the model follows the code. A complete search that finds nothing above its bound still
  returns the empty fallback, not flagged optimal, where the comment promises no solution at all; it does so if and only if
  nothing beats the bound (`Solver.SolveBitsGuaranteed`, `Solver.SolveVotesGuaranteed`). The fallback reports value zero even
  when fees are guaranteed, but only a budget of less than two operations per attestation lets this reach the caller
  (`Ensemble.ReportedExactly`). The comment of the trigger speaks of clocks only; the code compares an unsigned difference
  that wraps for clocks below twenty seconds (`Trigger.DueExactly`, `Witnesses.EarlyAnnouncement`).

## Model

| member | source | states |
|---|---|---|
| `Values.Cmp` | client/attestation/bitVotes/branchAndBoundBits.go:46-54 | the three-way comparison is exactly the lexicographic order on (capped, uncapped) |
| `Values.WeightCapIsLeast` | client/attestation/bitVotes/branchAndBoundBits.go:57 | the cap is the least weight of at least four fifths of the total |
| `Values.CalcValueProducts` | client/attestation/bitVotes/branchAndBoundBits.go:56-63 | fee times support, counted up to the cap in the first component and in full in the second |
| `Values.CalcValueMono` | client/attestation/bitVotes/branchAndBoundBits.go:56-63 | more fees and more support never lower the value; from four fifths of the total on, support does not raise the first component |
| `Values.CalcValueStrict` | client/attestation/bitVotes/branchAndBoundBits.go:56-63 | with a positive fee, more support is strictly better even beyond the cap; the first component rises if and only if the smaller support is below four fifths |
| `Instances.SupportersOfBits` | client/attestation/bitVotes/branchAndBoundBits.go:271-277 | the supporters of a feasible set of bits form a feasible coalition worth at least as much |
| `Instances.CommonOfVotes` | client/attestation/bitVotes/branchAndBoundVotes.go:249-253 | what a feasible coalition agrees on is a feasible set of bits worth at least as much |
| `Instances.Duality` | client/attestation/bitVotes/ensemble.go:18-21 | a value bounds all feasible bit sets if and only if it bounds all feasible coalitions |
| `Instances.CandidatesAreFeasible` | client/attestation/bitVotes/branchAndBoundBits.go:271-277 | the majority is checked only when a bit is taken or a vote dropped; if all votes hold a majority the candidates are exactly the feasible sets |
| `BitsSearch.PruningBound` | client/attestation/bitVotes/branchAndBoundBits.go:256-259 | the value tested at a node bounds every leaf below it |
| `BitsSearch.LeafWith` | client/attestation/bitVotes/branchAndBoundBits.go:271-277 | leaves that take the next bit are exactly the leaves of the included branch, with the same supporters and value |
| `BitsSearch.JoinReached` | client/attestation/bitVotes/branchAndBoundBits.go:309-324 | the joined result is a real leaf of the node with its supporters and value |
| `BitsSearch.BranchExact` | client/attestation/bitVotes/branchAndBoundBits.go:230-288 | for any order, budget and bound: the result is a feasible leaf above the bound and equals the new bound; if the counter stays below the budget no leaf exceeds the final bound; nothing found leaves the bound unchanged |
| `BitsSearch.BranchLonely` | client/attestation/bitVotes/branchAndBoundBits.go:230-288 | entered without a majority, the search returns the empty selection or nothing, exactly as the bound decides |
| `BitsSearch.BranchOps` | client/attestation/bitVotes/branchAndBoundBits.go:230-307 | operations stay within budget + 1 + depth * (votes/2 + 2), and a node entered at the budget costs one operation |
| `BitsSearch.BranchTree` | client/attestation/bitVotes/branchAndBoundBits.go:230-307 | whatever the budget, no search costs more than visiting its whole tree |
| `BitsSearch.PrepareDataForBranchWithOne` | client/attestation/bitVotes/branchAndBoundBits.go:290-307 | keeps exactly the supporters of the bit, keeps the running weight in step, and charges half the votes, for every iteration order |
| `BitsSearch.BranchBits` | client/attestation/bitVotes/branchAndBoundBits.go:230-288 | the recursion with running sums and a shared status computes the order-free `Branch` |
| `VotesSearch.PruningBound` | client/attestation/bitVotes/branchAndBoundVotes.go:229-232 | the value tested at a node bounds every leaf below it |
| `VotesSearch.LeafWith` | client/attestation/bitVotes/branchAndBoundVotes.go:249-253 | leaves that take the next vote are exactly the leaves of the included branch, with the same bits and value |
| `VotesSearch.JoinReached` | client/attestation/bitVotes/branchAndBoundVotes.go:286-301 | the joined result is a real leaf of the node with its common bits and value |
| `VotesSearch.BranchExact` | client/attestation/bitVotes/branchAndBoundVotes.go:197-267 | the same guarantee as for bits, over coalitions |
| `VotesSearch.BranchLonely` | client/attestation/bitVotes/branchAndBoundVotes.go:197-267 | entered without a majority, the search returns all votes together or nothing, exactly as the bound decides |
| `VotesSearch.BranchOps` | client/attestation/bitVotes/branchAndBoundVotes.go:197-284 | operations stay within budget + 1 + depth * (bits + 1) |
| `VotesSearch.BranchTree` | client/attestation/bitVotes/branchAndBoundVotes.go:197-284 | whatever the budget, no search costs more than visiting its whole tree |
| `VotesSearch.PrepareDataForBranchWithVote` | client/attestation/bitVotes/branchAndBoundVotes.go:269-284 | keeps exactly the confirmed bits, keeps the running fee in step, and charges one per dropped and half per kept bit |
| `VotesSearch.BranchVotes` | client/attestation/bitVotes/branchAndBoundVotes.go:197-267 | the recursion with running sums and a shared status computes the order-free `Branch` |
| `Solver.RunBitsExact` | client/attestation/bitVotes/branchAndBoundBits.go:161-207 | exact search under budget over bits, with or without a majority behind the votes: a candidate above the bound with its true value; below the budget it is the best candidate, and nothing is found if and only if no candidate beats the bound |
| `Solver.RunVotesExact` | client/attestation/bitVotes/branchAndBoundVotes.go:130-174 | the same for the search over coalitions |
| `Solver.RunBitsOps` | client/attestation/bitVotes/branchAndBoundBits.go:196-197 | a whole search over n bits and v votes spends at most budget + 1 + n * (v/2 + 2) operations |
| `Solver.RunVotesOps` | client/attestation/bitVotes/branchAndBoundVotes.go:162-164 | a whole search over v votes and n bits spends at most budget + 1 + v * (n + 1) operations |
| `Solver.MaximizeBitsCloses` | client/attestation/bitVotes/branchAndBoundBits.go:326-344 | maximisation keeps the votes, does not lower the value, reports the true value and yields a closed pair |
| `Solver.MaximizeVotesCloses` | client/attestation/bitVotes/branchAndBoundVotes.go:303-321 | maximisation keeps the bits, does not lower the value, reports the true value and yields a closed pair |
| `Solver.SolveBitsGuaranteed` | client/attestation/bitVotes/branchAndBoundBits.go:161-228 | sound in every case, honest about optimality; every result but the fallback beats the bound and reports its true value; a complete search falls back if and only if nothing beats the bound |
| `Solver.SolveVotesGuaranteed` | client/attestation/bitVotes/branchAndBoundVotes.go:130-195 | the same for the search over votes, measured against all bit sets |
| `Solver.BestCoalition` | client/attestation/bitVotes/branchAndBoundVotes.go:180-194 | the best coalition, with what its members agree on, is the best set of bits, and its reported value is the true one |
| `Solver.BestCoalitionClosed` | client/attestation/bitVotes/branchAndBoundVotes.go:176-194 | an optimal coalition of positive value contains every supporter of its bits, without maximisation |
| `Solver.SearchesAgree` | client/attestation/bitVotes/ensemble.go:18-59 | complete runs of the two searches from one bound agree on value and on the optimal flag |
| `Solver.BitsListed` | client/attestation/bitVotes/branchAndBoundBits.go:65-122 | the first list has the most valuable bits in front, the second the least valuable, equal values by first position, each bit once |
| `Solver.VotesListed` | client/attestation/bitVotes/branchAndBoundVotes.go:12-75 | the same for votes, by fee times weight |
| `Solver.Pick` | client/attestation/bitVotes/branchAndBoundBits.go:140-152 | the first answer if it is optimal; otherwise nothing worse than either, and the second only if it is strictly better |
| `Solver.BitsDoubleGuaranteed` | client/attestation/bitVotes/branchAndBoundBits.go:101-152 | the pick of the two orders is sound and honest, and is the fallback or beats the bound with its true value |
| `Solver.AmpleBitsDouble` | client/attestation/bitVotes/branchAndBoundBits.go:107-152 | with a budget above the whole-tree cost, the answer is flagged optimal or nothing beats the bound |
| `Solver.VotesDoubleGuaranteed` | client/attestation/bitVotes/branchAndBoundVotes.go:47-125 | the pick of the two orders is sound and honest, and is the fallback or beats the bound with its true value |
| `Solver.AmpleVotesDouble` | client/attestation/bitVotes/branchAndBoundVotes.go:53-125 | with a budget above the whole-tree cost, the answer is flagged optimal or nothing beats the bound |
| `Descent.BitsDecided` | client/attestation/bitVotes/branchAndBoundBits.go:230-307 | with guaranteed fees and bound zero, a search over bits finds something if and only if its first path ends within the budget |
| `Descent.VotesDecided` | client/attestation/bitVotes/branchAndBoundVotes.go:197-284 | the same for a search over votes |
| `Descent.DropAll` | client/attestation/bitVotes/branchAndBoundBits.go:261-266 | the path that drops every bit fits if and only if the budget holds two operations a bit |
| `Descent.BudgetThatFits` | client/attestation/bitVotes/branchAndBoundBits.go:252-266 | two operations a group of bits are enough for some search; with one operation only an empty list is finished |
| `TieBreaks.BranchFirstBits` | client/attestation/bitVotes/branchAndBoundBits.go:230-324 | of all leaves of the best value, a complete search over bits returns the one on the side explored first, for either order |
| `TieBreaks.BranchFirstVotes` | client/attestation/bitVotes/branchAndBoundVotes.go:197-301 | the same for a complete search over votes |
| `TieBreaks.SolveBitsFirst` | client/attestation/bitVotes/branchAndBoundBits.go:161-228 | an optimal search over bits returns the best feasible set that its list puts first |
| `TieBreaks.SolveVotesFirst` | client/attestation/bitVotes/branchAndBoundVotes.go:130-195 | an optimal search over votes returns the best coalition that its list puts first |
| `TieBreaks.ComesOnce` | client/attestation/bitVotes/branchAndBoundBits.go:65-99 | only one set comes first, so the answer is determined |
| `Sorting.SortConfluent` | client/attestation/bitVotes/branchAndBoundBits.go:93-99 | sorting by an order without ties gives one list for every order of arrival |
| `BranchAndBound.CalcValueFromFees` | client/attestation/bitVotes/ensemble.go:74-86 | value of the summed fees and weights of a pair, for every iteration order, without 16-bit wrap |
| `BranchAndBound.MaximizeBits` | client/attestation/bitVotes/branchAndBoundBits.go:326-344 | adds exactly the bits that all votes confirm and recomputes the value |
| `BranchAndBound.MaximizeVotes` | client/attestation/bitVotes/branchAndBoundVotes.go:303-321 | adds exactly the votes that confirm all bits and recomputes the value |
| `BranchAndBound.BranchAndBoundBits` | client/attestation/bitVotes/branchAndBoundBits.go:161-228 | returns the order-free solution of the search over bits |
| `BranchAndBound.BranchAndBoundVotes` | client/attestation/bitVotes/branchAndBoundVotes.go:130-195 | returns the order-free solution of the search over votes |
| `BranchAndBound.BranchAndBoundBitsDouble` | client/attestation/bitVotes/branchAndBoundBits.go:107-152 | returns the pick of the two sorted strategies, whatever the order of the given lists |
| `BranchAndBound.BranchAndBoundVotesDouble` | client/attestation/bitVotes/branchAndBoundVotes.go:53-125 | returns the pick of the two sorted strategies, whatever the order of the given lists |
| `DoubleRun.StepKeepsInvariant` | client/attestation/bitVotes/branchAndBoundBits.go:111-152 | every enabled step keeps the invariant on messages, flags and solutions, and reads no unwritten solution |
| `DoubleRun.SomebodyCanMove` | client/attestation/bitVotes/branchAndBoundBits.go:118-139 | until both workers and the coordinator are done, one of them can move |
| `DoubleRun.EveryInterleaving` | client/attestation/bitVotes/branchAndBoundBits.go:107-152 | over every interleaving: bounded length, no blocked process at the end, answer equal to the pick |
| `DoubleRun.ConcurrentAnswer` | client/attestation/bitVotes/branchAndBoundVotes.go:61-125 | from the initial state: at most nine steps, and a returned answer is always the pick |
| `Filtering.UnanimousIsFull` | client/attestation/bitVotes/preprocess.go:36-40 | with positive weights a bit backed by all the weight is confirmed by every vote |
| `Filtering.FilterPartitions` | client/attestation/bitVotes/preprocess.go:115-148 | bits and votes are each split three ways |
| `Filtering.FilterAgrees` | client/attestation/bitVotes/preprocess.go:51-112 | votes that are not out confirm all bits that are in; votes that are in confirm all open bits; votes that are out confirm neither |
| `Filtering.FilterMargins` | client/attestation/bitVotes/preprocess.go:26-49 | bits that are out lack a majority; a vote is out only if some kept bit has a majority |
| `Filtering.FilterVoteExactly` | client/attestation/bitVotes/preprocess.go:70-112 | a vote is in iff it confirms every contested bit, and out iff it confirms none while there are some and no bit is uncontested |
| `Filtering.FilterBitExactly` | client/attestation/bitVotes/preprocess.go:23-68 | a bit is out iff at most half of the weight backs it and some vote does not, and open iff it is contested and some open vote does not confirm it |
| `FilterMethods.FilterResults.FilterBits` | client/attestation/bitVotes/preprocess.go:23-49 | moves exactly the bits backed by all the weight or by at most half, with their fees |
| `FilterMethods.FilterResults.FilterBitsOnes` | client/attestation/bitVotes/preprocess.go:51-68 | moves exactly the bits that all remaining votes confirm, with their fees |
| `FilterMethods.FilterResults.FilterVotes` | client/attestation/bitVotes/preprocess.go:70-112 | moves exactly the all-ones votes, and the all-zeros votes while no bit is in; reports whether anything moved |
| `FilterMethods.Filter` | client/attestation/bitVotes/preprocess.go:114-148 | the three passes leave one result for every iteration order, with the fees and weights of what is in |
| `Aggregation.VoteGroupsDisjoint` | client/attestation/bitVotes/preprocess.go:222-264 | different vote groups share no vote, and each weighs what its members weigh |
| `Aggregation.VoteGroupsCover` | client/attestation/bitVotes/preprocess.go:222-264 | the vote groups cover exactly the remaining votes |
| `Aggregation.BitGroupsDisjoint` | client/attestation/bitVotes/preprocess.go:172-213 | different bit groups share no bit, and each pays the fees of its members |
| `Aggregation.BitGroupsCover` | client/attestation/bitVotes/preprocess.go:172-213 | the bit groups cover exactly the remaining bits |
| `Aggregation.WeightConserved` | client/attestation/bitVotes/preprocess.go:246-260 | every selection of vote groups weighs what its voters weigh |
| `Aggregation.FeesConserved` | client/attestation/bitVotes/preprocess.go:197-209 | every selection of bit groups pays what its positions pay |
| `Aggregation.GroupsSpeak` | client/attestation/bitVotes/preprocess.go:150-155 | testing one representative position against one representative vote decides for all members of both groups |
| `Aggregation.VoteGroupsMaximal` | client/attestation/bitVotes/preprocess.go:222-264 | two open votes share a group if and only if they agree on every open bit |
| `Aggregation.BitGroupsMaximal` | client/attestation/bitVotes/preprocess.go:172-213 | two open bits share a group if and only if every open vote treats them alike |
| `AggregateMethods.Keys` | client/utils/utils.go:21-27 | each key once, in arbitrary order |
| `AggregateMethods.ValuesOf` | client/utils/utils.go:29-35 | each value of an injective map once, in arbitrary order |
| `AggregateMethods.RowIdInjective` | client/attestation/bitVotes/preprocess.go:233-246 | two votes have the same identifier if and only if they agree on every remaining bit |
| `AggregateMethods.ColumnIdInjective` | client/attestation/bitVotes/preprocess.go:183-197 | two bits have the same identifier if and only if every remaining vote agrees on them |
| `AggregateMethods.AggregateVotes` | client/attestation/bitVotes/preprocess.go:222-264 | returns each vote group once, with increasing indexes, the summed weight and the fees of its row |
| `AggregateMethods.AggregateBits` | client/attestation/bitVotes/preprocess.go:172-213 | returns each bit group once, with increasing indexes, the summed fee and its support |
| `Reduction.BackersOfAssembled` | client/attestation/bitVotes/preprocess.go:276-292 | the original voters behind a non-empty assembled set are the votes that are in and the supporting groups |
| `Reduction.ValuePreserved` | client/attestation/bitVotes/preprocess.go:266-292 | every selection of groups is worth exactly what its expansion is worth in the original problem |
| `Reduction.ConfirmableAvoidsOut` | client/attestation/bitVotes/preprocess.go:41-45 | no confirmable set contains a bit that was thrown out |
| `Reduction.RoundUp` | client/attestation/bitVotes/preprocess.go:114-148 | rounding a confirmable set up to whole groups and guaranteed bits loses no backer |
| `Reduction.NothingLost` | client/attestation/bitVotes/preprocess.go:266-274 | every confirmable set is matched by a feasible selection of groups worth at least as much |
| `Reduction.WeightVoted` | client/attestation/bitVotes/ensemble.go:23-31 | the weight left after filtering is a majority if and only if the submitted weight is |
| `Reduction.ReducedIsProper` | client/attestation/bitVotes/preprocess.go:199-209 | no two groups start at the same position |
| `Reduction.FewGroups` | client/attestation/bitVotes/preprocess.go:172-264 | there are at most as many groups of bits as attestations, and of votes as votes |
| `Reduction.GroupSupport` | client/attestation/bitVotes/preprocess.go:172-213 | the support of a group is the weight of all submitted votes that confirm any one of its positions |
| `Reduction.GroupFees` | client/attestation/bitVotes/preprocess.go:222-264 | the fees of a vote group are those of all bits not thrown out that any one of its members confirms |
| `Ensemble.FailsExactlyWithoutQuorum` | client/attestation/bitVotes/ensemble.go:29-31 | there is no consensus if and only if at most half of the total weight submitted a vote |
| `Ensemble.SolveTruthful` | client/attestation/bitVotes/ensemble.go:33-61 | the chosen solution reports its true value if and only if no fees are guaranteed or some first path fits the budget |
| `Ensemble.BitTies` | client/attestation/bitVotes/ensemble.go:33-61 | with no more bit groups than vote groups the search over bits goes first; if it completes its answer is chosen, the first of the best sets |
| `Ensemble.VoteTies` | client/attestation/bitVotes/ensemble.go:33-61 | with fewer vote groups the search over votes goes first; if it completes its answer is what the first best coalition agrees on |
| `Witnesses.TieDecided` | client/attestation/bitVotes/branchAndBoundBits.go:65-83 | two attestations of equal fee and support that exclude each other: the first is confirmed |
| `Ensemble.JointMajority` | client/attestation/bitVotes/ensemble.go:33-72 | the voters that confirm every bit of the result together exceed half of the total weight |
| `Ensemble.OptimalConsensus` | client/attestation/bitVotes/ensemble.go:15-72 | a solution flagged optimal assembles to a set no confirmable set can beat, and its reported value is the true one |
| `Ensemble.FourFifthsWin` | client/attestation/bitVotes/ensemble.go:15-72 | an optimal consensus pays at least as much as every set that four fifths of the weight confirm, and at equal fees is confirmed by as much weight |
| `Witnesses.CapDecides` | client/attestation/bitVotes/branchAndBoundBits.go:57 | 80 of 100 confirm both attestations and all confirm the first: both are confirmed, although the first alone has the higher uncapped value |
| `Ensemble.AmpleBudgetIsOptimal` | client/attestation/bitVotes/ensemble.go:15-72 | with a budget above the whole-tree cost of the reduced instance the consensus exists and no confirmable set is worth more, flagged or not |
| `Ensemble.UniqueBest` | client/attestation/bitVotes/ensemble.go:15-72 | a set worth more than all other confirmable sets is the consensus, given an ample budget |
| `Ensemble.ReportedExactly` | client/attestation/bitVotes/ensemble.go:33-72 | the reported value never exceeds the true value of the assembled set, and equals it if and only if no fees are guaranteed or some first path fits the budget |
| `Ensemble.ReportedIsTrue` | client/attestation/bitVotes/ensemble.go:33-72 | with two operations per attestation the reported value is the true one, flagged optimal or not |
| `Witnesses.Understated` | client/attestation/bitVotes/branchAndBoundBits.go:200-207 | two votes and one operation: a consensus exists and its reported value is below its true value |
| `Ensemble.FilterAndAggregate` | client/attestation/bitVotes/preprocess.go:266-274 | the two lists hold exactly the groups of the reduced instance, each once |
| `Ensemble.RunMethods` | client/attestation/bitVotes/ensemble.go:18-59 | the shorter list is searched first; the other search replaces it only if strictly better |
| `Ensemble.RunEnsemble` | client/attestation/bitVotes/ensemble.go:15-62 | returns the order-free chosen solution or none |
| `Ensemble.AssembleSolution` | client/attestation/bitVotes/preprocess.go:276-292 | sets exactly the positions that are always in and those of the chosen groups |
| `Ensemble.EnsembleConsensusBitVote` | client/attestation/bitVotes/ensemble.go:64-72 | the consensus is a function of votes, fees, total weight and budget; its length is truncated to 16 bits |
| `Agreement.SameQuestion` | client/attestation/bitVotes/ensemble.go:15-72 | every set of attestations has the same value and the same standing for every order of the votes |
| `Agreement.OrderFreeValue` | client/attestation/bitVotes/ensemble.go:15-72 | two orders of one vote list reach or miss the quorum together, and complete searches choose sets of one value |
| `Intake.Prepend` | client/utils/utils.go:7-19 | the element comes first and nothing is lost |
| `Intake.MergeSummarizes` | client/round/round.go:63-72 | merging a log keeps the summed fee, lists each log once and keeps the lowest block and log number first |
| `Intake.ArisesCollects` | client/round/round.go:54-96 | after any arrivals of distinct logs, with sorting in between, there is one attestation per request, with all its logs and fees |
| `Intake.OrderedUnique` | client/round/round.go:81-87 | the list ordered by first block and log number is determined by the set of logs |
| `Intake.IntakeConfluent` | client/round/round.go:54-96 | any two arrival orders of the same distinct logs, with sorting at any time, give the same ordered list |
| `Collection.StoreHoldsLatest` | client/round/round.go:247-271 | storing one more submission keeps a latest submission for every sender |
| `Collection.RunHoldsLatest` | client/round/round.go:215-274 | over whole runs: one stored vote per sender, a latest accepted one, and nobody else |
| `Collection.CollectionConfluent` | client/round/round.go:215-274 | the stored votes are the same for every order of arrival if and only if no sender has two different latest submissions |
| `Collection.SameBallotsPermuted` | client/round/round.go:247-260 | equal stored votes reach the optimiser as permutations of one list |
| `Collection.CheckBacks` | client/round/round.go:219-245 | an accepted vote carries the positive weight of the voter behind its sender, and exactly the bits, length and position of its message |
| `Collection.CheckExactly` | client/round/round.go:219-245 | exactly the messages with the right header, a vector within the round and a voter with weight are accepted; the check for a vector longer than the round never fires |
| `Collection.AcceptsEncoded` | client/round/round.go:247-260 | an encoded bit vote from a known voter is accepted with its bits, its position and the voter's index and weight |
| `Collection.RunStoresPayloads` | client/round/round.go:215-274 | over whole runs each sender is stored with the bits of its acceptable message of the highest block and transaction number |
| `Collection.SendersInOrder` | client/round/round.go:259-260 | votes are listed in the order in which their senders were first heard |
| `Collection.RunWeights` | client/round/round.go:237-260 | over whole runs the stored weights are positive and sum to at most what the submit addresses may submit |
| `Collection.StoredWeights` | client/round/round.go:237-260 | the stored weights sum to exactly the weights behind the stored senders |
| `Collection.WeightLimit` | client/round/round.go:218-260 | no run stores more than a limit if and only if the submit addresses cannot submit more, or the round is too long for any vote |
| `Collection.InjectiveFits` | client/round/round.go:231-238 | with one submit address a voter, no more than the total weight can be submitted |
| `Witnesses.CountedTwice` | client/round/round.go:231-260 | one voter with two submit addresses is counted twice, beyond the total weight and beyond 16 bits |
| `Agreement.ClientsAgree` | client/round/round.go:54-132 | two clients with the same logs and messages in different orders agree on attestations, fees, quorum and the value of the consensus, and on the set if the senders came first in the same order |
| `Rounds.ClientReportsTrueValue` | client/attestation/bitVotes/ensemble.go:15-72 | with the client's budget and at most 65535 attestations the reported value is always the true one |
| `Rounds.Attestation.AddLog` | client/round/round.go:64-69 | adds the fee and places the log, in place |
| `Rounds.Round.AddAttestation` | client/round/round.go:54-79 | merges into the attestation of the request or appends it; map and list keep the same objects |
| `Rounds.Round.SortAttestations` | client/round/round.go:81-87 | a rearrangement ordered by the block and log number of the first log |
| `Rounds.Round.OwnBitVote` | client/attestation/attestation.go:307-330 | the set positions are those of the verified attestations; none beyond 65535 attestations |
| `Rounds.Round.ProcessBitVote` | client/round/round.go:215-274 | rejects exactly the unacceptable messages, with the reason of the first failing check; stores the bits, position, index and weight the message carries if it is the sender's first or latest; list and check list keep sharing one object per sender |
| `Rounds.Round.VotesAreUsable` | client/round/round.go:108-132 | the invariant of the round gives the optimiser positive weights within 16 bits, if the submit addresses fit 16 bits |
| `Rounds.Round.SetConsensusStatus` | client/round/round.go:145-162 | marks each attestation if and only if its bit is set; fails exactly for a vector longer than the list |
| `Rounds.Round.ComputeConsensusBitVote` | client/round/round.go:108-132 | computes the consensus of the sorted round from the invariant alone, fails only without a quorum, marks position i iff bit i is set, never finds the vector too long, and changes no fee, request or vote |
| `Codec.DecodeEncode` | client/attestation/bitVotes/bitvote.go:43-78 | decoding an encoding gives the vote back if and only if the vector fits its length, and the bad-bitvote error otherwise |
| `Codec.EncodeDecode` | client/attestation/bitVotes/bitvote.go:60-78 | re-encoding an accepted message only strips leading zero bytes of the vector |
| `Codec.EncodeLayout` | client/attestation/bitVotes/bitvote.go:43-58 | the two length bytes weigh 256 and 1, and the vector follows without leading zeros |
| `Codec.DecodeLayout` | client/attestation/bitVotes/bitvote.go:60-78 | a message decodes to a length and a vector if and only if its header and its bytes give them and every one lies below the length |
| `Codec.ByteWeighs` | client/attestation/bitVotes/bitvote.go:71-72 | a vector byte with k bytes behind it weighs 256 to the power of k |
| `Codec.BitLenBounds` | client/attestation/bitVotes/bitvote.go:73-75 | a number fits a length if and only if all its ones lie below it |
| `Codec.BitsInjective` | client/attestation/bitVotes/bitvote.go:14-17 | a vector and its set of ones determine each other |
| `Timing.NextChooseEndIsLeast` | client/timing/timing.go:35-47 | the least round whose choose phase ends at the timestamp or later, with its end |
| `Timing.NoWrap` | client/timing/timing.go:20-33 | below the last 32-bit round number the machine arithmetic is exact |
| `Timing.RoundOfTimestamp` | client/timing/timing.go:7-18 | a timestamp belongs to a round if and only if it lies in its collect phase, and to none if and only if it precedes the first |
| `Timing.WindowExactly` | client/manager/manager.go:169-200 | the window of a round opens after its collect phase and lasts exactly the choose duration |
| `Timing.RequestsPrecedeBitVotes` | client/manager/manager.go:169-213 | a request assigned to a round lies in its collect phase, strictly before every bit vote accepted for it |
| `Timing.WindowsDisjointIff` | client/timing/timing.go:25-33 | one timestamp serves at most one round if and only if the choose phase is no longer than the collect phase |
| `Trigger.ChooseTrigger.TryTriggerBitVote` | client/collector/choose.go:149-188 | one attempt announces the next round and advances, or changes nothing |
| `Trigger.RunStaysOnTrack` | client/collector/choose.go:89-188 | over whole runs: consecutive rounds, each once and when due, deadline in step with the round number, both wrapped to their width |
| `Trigger.AnnouncesExactly` | client/collector/choose.go:151-188 | at every attempt of every run the next round is announced if and only if it is due and the send is not cancelled |
| `Trigger.NeverEarly` | client/collector/choose.go:158-169 | until the round numbers are used up, a round is announced early only by a clock below twenty seconds |
| `Trigger.DueExactly` | client/collector/choose.go:158-169 | an attempt is due if and only if either clock is late enough or the local clock is below twenty seconds |
| `Witnesses.EarlyAnnouncement` | client/collector/choose.go:158-169 | a clock of five seconds announces round 0 before its time |

## Left out

- Database listeners, policy polling, voter registry, verifier client, REST server, configuration and start-up: input and output only.
- Keccak hashes, ABI coding, Merkle trees, priority queues and cyclic storage: libraries outside this repository.
- Response slots and verification statuses (client/attestation/verification.go): fixed offsets around library calls, easy next to the optimiser.
- The manager's round store, queues and retries: only its choose window is modelled (`Timing.AcceptsBitVote`); the store adds a map lookup.
- Locks and the Merkle-tree stage of a round: `MerkleTreeCached` returns with the read lock held, and `MerkleTree` may set the final status without a consensus, so neither gives an invariant.
- The cached value of an aggregated bit: it always equals the value for the one total weight of a run.
- Voter sets whose submit addresses could submit more than 65535: additions of stored weights may then wrap, and the client does not check it. `Collection.WeightLimit` says exactly which sets these are.
- Independence of the consensus set from the order of the vote list: ties between groups are broken by positions in that list. Its value is independent (`Agreement.OrderFreeValue`).
- Collection.SameBallots: asks that no sender has two different latest submissions, as is the case if a transaction carries one bit vote; `Collection.CollectionConfluent` shows that nothing less is enough.
- Ensemble.OptimalConsensus: asks for positive weights, which every accepted vote has.
- Rounds.Round.ComputeConsensusBitVote: asks for a voter set whose submit addresses fit 16 bits.
- Trigger.RunStaysOnTrack: asks for a start no later than the last round whose number fits 32 bits.
