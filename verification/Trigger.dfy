/** The trigger that announces rounds whose choose phase has ended. */
module Trigger {
  import opened Timing

  const OFF_CHAIN_SECONDS: nat := 20

  /** One announced round, with the clocks that were read when it was announced. */
  datatype Event = Event(roundID: nat, blockTime: nat, now: nat)

  datatype State = State(nextRoundID: nat, nextEnd: nat, sent: seq<Event>)

  /** What one attempt reads: block time, local clock, and whether the context was cancelled before the send. */
  datatype Reading = Reading(blockTime: nat, now: nat, cancelled: bool)

  /** The unsigned subtraction wraps for clocks below twenty seconds. */
  predicate Due(nextEnd: nat, blockTime: nat, now: nat)
    requires now < TWO64
  {
    blockTime >= nextEnd || Sub64(now, OFF_CHAIN_SECONDS) > nextEnd
  }

  function Attempt(c: Timing, s: State, r: Reading): State
    requires r.now < TWO64
  {
    if Due(s.nextEnd, r.blockTime, r.now) && !r.cancelled then
      State(U32(s.nextRoundID + 1), U64(s.nextEnd + c.collectDurationSec),
            s.sent + [Event(s.nextRoundID, r.blockTime, r.now)])
    else s
  }

  /** The state the trigger keeps behind pointers, with the channel as a trace. */
  class ChooseTrigger {
    var nextRoundID: nat
    var nextEnd: nat
    var sent: seq<Event>

    constructor (c: Timing, blockTimestamp: nat)
      requires c.collectDurationSec > 0 && blockTimestamp < TWO64
      ensures View() == State(NextChooseEnd(c, blockTimestamp).0, NextChooseEnd(c, blockTimestamp).1, [])
    {
      var next := NextChooseEnd(c, blockTimestamp);
      nextRoundID, nextEnd, sent := next.0, next.1, [];
    }

    ghost function View(): State
      reads this
    {
      State(nextRoundID, nextEnd, sent)
    }

    method TryTriggerBitVote(c: Timing, r: Reading) returns (done: bool)
      requires r.now < TWO64
      modifies this
      ensures View() == Attempt(c, old(View()), r)
      ensures done <==> Due(old(nextEnd), r.blockTime, r.now) && !r.cancelled
    {
      var isTriggered := false;
      if r.blockTime >= nextEnd {
        isTriggered := true;
      } else if Sub64(r.now, OFF_CHAIN_SECONDS) > nextEnd {
        isTriggered := true;
      }
      if isTriggered {
        if r.cancelled {
          return false;
        }
        sent := sent + [Event(nextRoundID, r.blockTime, r.now)];
        nextRoundID := U32(nextRoundID + 1);
        nextEnd := U64(nextEnd + c.collectDurationSec);
        return true;
      }
      return false;
    }
  }

  function Run(c: Timing, s: State, readings: seq<Reading>): State
    requires forall k :: 0 <= k < |readings| ==> readings[k].now < TWO64
  {
    if readings == [] then s
    else Attempt(c, Run(c, s, readings[..|readings| - 1]), readings[|readings| - 1])
  }

  function Start(c: Timing, t: nat): State
    requires c.collectDurationSec > 0 && t < TWO64
  {
    State(NextChooseEnd(c, t).0, NextChooseEnd(c, t).1, [])
  }

  /** Round number `m`, counted without bound, was announced when it was due by the code's own arithmetic. */
  ghost predicate Announced(c: Timing, m: nat, e: Event)
  {
    e.roundID == U32(m) && e.now < TWO64 && Due(U64(EndOf(c, m)), e.blockTime, e.now)
  }

  /** From round `start` on: consecutive rounds, each once and when due, and the deadline kept in step. Numbers and deadlines
      are those of an unbounded count, wrapped to their width. */
  ghost predicate OnTrack(c: Timing, start: nat, s: State)
  {
    && s.nextRoundID == U32(start + |s.sent|)
    && s.nextEnd == U64(EndOf(c, start + |s.sent|))
    && forall k :: 0 <= k < |s.sent| ==> Announced(c, start + k, s.sent[k])
  }

  lemma EndOfNext(c: Timing, n: nat)
    ensures EndOf(c, n + 1) == EndOf(c, n) + c.collectDurationSec
  {
    assert (n + 2) * c.collectDurationSec == (n + 1) * c.collectDurationSec + c.collectDurationSec;
  }

  /** Wrapping early and wrapping late give the same number. */
  lemma WrapAdd(x: nat, d: nat)
    ensures U32(U32(x) + d) == U32(x + d) && U64(U64(x) + d) == U64(x + d)
  {
  }

  lemma AttemptStaysOnTrack(c: Timing, start: nat, s: State, r: Reading)
    requires OnTrack(c, start, s) && r.now < TWO64
    ensures OnTrack(c, start, Attempt(c, s, r))
  {
    EndOfNext(c, start + |s.sent|);
    WrapAdd(start + |s.sent|, 1);
    WrapAdd(EndOf(c, start + |s.sent|), c.collectDurationSec);
  }

  /** Every run of attempts from the next choose end announces consecutive rounds, each exactly once and when due. */
  lemma {:induction false} RunStaysOnTrack(c: Timing, t: nat, readings: seq<Reading>)
    requires Sensible(c) && t < TWO64 && t <= EndOf(c, TWO32 - 2)
    requires forall k :: 0 <= k < |readings| ==> readings[k].now < TWO64
    ensures OnTrack(c, NextChooseEnd(c, t).0, Run(c, Start(c, t), readings))
  {
    if readings == [] {
      NextChooseEndIsLeast(c, t, TWO32 - 2);
    } else {
      var before := readings[..|readings| - 1];
      RunStaysOnTrack(c, t, before);
      AttemptStaysOnTrack(c, NextChooseEnd(c, t).0, Run(c, Start(c, t), before), readings[|readings| - 1]);
    }
  }

  /** Nothing is skipped and nothing repeated: at every attempt of every run, the next round in the count is announced
      exactly if it is due and the send is not cancelled. */
  lemma AnnouncesExactly(c: Timing, t: nat, readings: seq<Reading>, k: nat)
    requires Sensible(c) && t < TWO64 && t <= EndOf(c, TWO32 - 2) && k < |readings|
    requires forall i :: 0 <= i < |readings| ==> readings[i].now < TWO64
    ensures var before := Run(c, Start(c, t), readings[..k]).sent;
            var m := NextChooseEnd(c, t).0 + |before|;
            var r := readings[k];
            Run(c, Start(c, t), readings[..k + 1]).sent
            == if Due(U64(EndOf(c, m)), r.blockTime, r.now) && !r.cancelled
               then before + [Event(U32(m), r.blockTime, r.now)] else before
  {
    RunStaysOnTrack(c, t, readings[..k]);
    assert readings[..k + 1][..k] == readings[..k];
  }

  /** Exactly when an attempt is due: on time by either clock, or with a local clock below twenty seconds, whose
      unsigned difference wraps to a huge value. */
  lemma DueExactly(nextEnd: nat, blockTime: nat, now: nat)
    requires now < TWO64 && nextEnd + 20 < TWO64
    ensures Due(nextEnd, blockTime, now)
            <==> blockTime >= nextEnd || now > nextEnd + 20 || now < 20
  {
  }

  /** The clocks justified announcing the event: block time reached the end of the round's choose phase, or the local
      clock passed it by more than twenty seconds. */
  ghost predicate Justified(c: Timing, e: Event)
  {
    e.blockTime >= EndOf(c, e.roundID) || e.now > EndOf(c, e.roundID) + 20
  }

  /** Until the round numbers are used up, no wrapping is seen, and a round is announced early only by a clock below twenty
      seconds. */
  lemma NeverEarly(c: Timing, t: nat, readings: seq<Reading>, k: nat)
    requires Sensible(c) && t < TWO64 && t <= EndOf(c, TWO32 - 2)
    requires forall i :: 0 <= i < |readings| ==> readings[i].now < TWO64
    ensures var start := NextChooseEnd(c, t).0;
            var s := Run(c, Start(c, t), readings);
            k < |s.sent| && start + k + 1 < TWO32 ==>
              && s.sent[k].roundID == start + k
              && (Justified(c, s.sent[k]) || s.sent[k].now < 20)
  {
    var start := NextChooseEnd(c, t).0;
    var s := Run(c, Start(c, t), readings);
    RunStaysOnTrack(c, t, readings);
    if k < |s.sent| && start + k + 1 < TWO32 {
      assert Announced(c, start + k, s.sent[k]);
      NoWrap(c, start + k);
    }
  }
}
