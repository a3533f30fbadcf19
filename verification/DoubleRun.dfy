/** Two workers and a coordinator over two channels of capacity one, as an interleaving state machine. */
module DoubleRun {
  import opened Values
  import opened Solver

  /** The worker of the first strategy; it may announce the end of both. */
  datatype First = Searching | Stored | Flagged | Announced | Finished

  /** The worker of the second strategy. */
  datatype Second = Searching2 | Stored2 | Finished2

  datatype Coordinator = AwaitingFirst | AwaitingSecond | Deciding | Returned(answer: Solution)

  datatype State = State(
    first: First, second: Second, coordinator: Coordinator,
    firstDone: nat, secondDone: nat,               // messages waiting in the channels
    solution0: Option<Solution>, solution1: Option<Solution>,
    ignoreSecond: bool)

  const CAPACITY: nat := 1

  const INITIAL := State(Searching, Searching2, AwaitingFirst, 0, 0, None, None, false)

  datatype Process = FirstWorker | SecondWorker | Main

  /** Whether a process can take its next step: sends wait for room, receives wait for a message. */
  predicate Enabled(s0: Solution, st: State, p: Process)
  {
    match p
    case FirstWorker =>
      (match st.first
       case Searching => true
       case Stored => s0.optimal || st.firstDone < CAPACITY
       case Flagged => st.firstDone < CAPACITY
       case Announced => st.secondDone < CAPACITY
       case Finished => false)
    case SecondWorker =>
      (match st.second
       case Searching2 => true
       case Stored2 => st.secondDone < CAPACITY
       case Finished2 => false)
    case Main =>
      (match st.coordinator
       case AwaitingFirst => st.firstDone > 0
       case AwaitingSecond => st.secondDone > 0
       case Deciding => true
       case Returned(_) => false)
  }

  /** The coordinator reads the second solution only if the first was not optimal. */
  predicate ReadsUnwritten(st: State)
  {
    st.coordinator.Deciding? && (st.solution0.None? || (!st.ignoreSecond && st.solution1.None?))
  }

  function Decide(st: State): Solution
    requires !ReadsUnwritten(st) && st.coordinator.Deciding?
  {
    if st.ignoreSecond then st.solution0.value
    else if Less(st.solution0.value.value, st.solution1.value.value) then st.solution1.value
    else st.solution0.value
  }

  /** One step of process `p`. The workers' searches return `s0` and `s1`. */
  function Step(s0: Solution, s1: Solution, st: State, p: Process): State
    requires Enabled(s0, st, p) && !ReadsUnwritten(st)
  {
    match p
    case FirstWorker =>
      (match st.first
       case Searching => st.(first := Stored, solution0 := Some(s0))
       case Stored => if s0.optimal then st.(first := Flagged, ignoreSecond := true)
                      else st.(first := Finished, firstDone := st.firstDone + 1)
       case Flagged => st.(first := Announced, firstDone := st.firstDone + 1)
       case Announced => st.(first := Finished, secondDone := st.secondDone + 1))
    case SecondWorker =>
      (match st.second
       case Searching2 => st.(second := Stored2, solution1 := Some(s1))
       case Stored2 => st.(second := Finished2, secondDone := st.secondDone + 1))
    case Main =>
      (match st.coordinator
       case AwaitingFirst => st.(coordinator := AwaitingSecond, firstDone := st.firstDone - 1)
       case AwaitingSecond => st.(coordinator := Deciding, secondDone := st.secondDone - 1)
       case Deciding => st.(coordinator := Returned(Decide(st))))
  }

  function One(b: bool): nat { if b then 1 else 0 }

  /** What holds in every reachable state. */
  predicate Invariant(s0: Solution, s1: Solution, st: State)
  {
    && st.solution0 == (if st.first.Searching? then None else Some(s0))
    && st.solution1 == (if st.second.Searching2? then None else Some(s1))
    && (st.first.Flagged? || st.first.Announced? ==> s0.optimal)
    && st.ignoreSecond == (s0.optimal && !st.first.Searching? && !st.first.Stored?)
    // every message sent is either waiting or received
    && st.firstDone + One(!st.coordinator.AwaitingFirst?) == One(st.first.Announced? || st.first.Finished?)
    && st.secondDone + One(st.coordinator.Deciding? || st.coordinator.Returned?)
       == One(s0.optimal && st.first.Finished?) + One(st.second.Finished2?)
    && st.firstDone <= CAPACITY && st.secondDone <= CAPACITY
    && (st.coordinator.Returned? ==> st.coordinator.answer == Pick(s0, s1))
  }

  /** Every step of every process keeps the invariant, and no step reads a solution that was not written. */
  lemma StepKeepsInvariant(s0: Solution, s1: Solution, st: State, p: Process)
    requires Invariant(s0, s1, st) && Enabled(s0, st, p)
    ensures !ReadsUnwritten(st) && Invariant(s0, s1, Step(s0, s1, st, p))
  {
  }

  predicate AllDone(st: State)
  {
    st.first.Finished? && st.second.Finished2? && st.coordinator.Returned?
  }

  /** No deadlock: until everybody is done, somebody can move. */
  lemma SomebodyCanMove(s0: Solution, s1: Solution, st: State)
    requires Invariant(s0, s1, st) && !AllDone(st)
    ensures exists p :: Enabled(s0, st, p)
  {
    if !Enabled(s0, st, FirstWorker) && !Enabled(s0, st, SecondWorker) {
      assert Enabled(s0, st, Main);
    }
  }

  /** Steps still to be taken. */
  function Remaining(s0: Solution, st: State): nat
  {
    (match st.first
     case Searching => 4
     case Stored => 3
     case Flagged => 2
     case Announced => 1
     case Finished => 0)
    + (match st.second
       case Searching2 => 2
       case Stored2 => 1
       case Finished2 => 0)
    + (match st.coordinator
       case AwaitingFirst => 3
       case AwaitingSecond => 2
       case Deciding => 1
       case Returned(_) => 0)
  }

  /** `schedule` is a legal interleaving from `st` to `end`. */
  predicate Runs(s0: Solution, s1: Solution, st: State, schedule: seq<Process>, end: State)
    decreases schedule
  {
    if schedule == [] then st == end
    else Enabled(s0, st, schedule[0]) && !ReadsUnwritten(st)
         && Runs(s0, s1, Step(s0, s1, st, schedule[0]), schedule[1..], end)
  }

  /** Over every interleaving: the invariant holds throughout, at most nine steps are ever taken, and a run that cannot
      be extended has every process finished and the coordinator's answer equal to `Pick(s0, s1)`. */
  lemma {:induction false} EveryInterleaving(s0: Solution, s1: Solution, st: State, schedule: seq<Process>, end: State)
    requires Invariant(s0, s1, st) && Runs(s0, s1, st, schedule, end)
    ensures Invariant(s0, s1, end) && !ReadsUnwritten(end)
    ensures |schedule| + Remaining(s0, end) <= Remaining(s0, st)
    ensures (forall p :: !Enabled(s0, end, p)) ==> AllDone(end) && end.coordinator.answer == Pick(s0, s1)
    decreases schedule
  {
    if schedule == [] {
      if forall p :: !Enabled(s0, end, p) {
        if !AllDone(end) {
          SomebodyCanMove(s0, s1, end);
        }
      }
    } else {
      StepKeepsInvariant(s0, s1, st, schedule[0]);
      EveryInterleaving(s0, s1, Step(s0, s1, st, schedule[0]), schedule[1..], end);
    }
  }

  /** The concurrent run started by the two strategies always answers with their pick. */
  lemma ConcurrentAnswer(s0: Solution, s1: Solution, schedule: seq<Process>, end: State)
    requires Runs(s0, s1, INITIAL, schedule, end)
    ensures |schedule| <= 9
    ensures end.coordinator.Returned? ==> end.coordinator.answer == Pick(s0, s1)
    ensures (forall p :: !Enabled(s0, end, p)) ==> AllDone(end)
  {
    EveryInterleaving(s0, s1, INITIAL, schedule, end);
  }
}
