/** Round timing in the client's machine integers, and the phase windows it defines. */
module Timing {
  import opened Values

  const TWO32: nat := 0x1_0000_0000
  const TWO64: nat := 0x1_0000_0000_0000_0000

  /** Truncation to 32 and to 64 bits. */
  function U32(x: nat): nat { if x < TWO32 then x else x % TWO32 }
  function U64(x: nat): nat { if x < TWO64 then x else x % TWO64 }

  /** Unsigned 64-bit subtraction, which wraps below zero. */
  function Sub64(a: nat, b: nat): nat
    requires a < TWO64 && b < TWO64
  {
    if b <= a then a - b else a + TWO64 - b
  }

  datatype Timing = Timing(t0: nat, collectDurationSec: nat, chooseDurationSec: nat)

  /** A chain configuration: 64-bit fields, non-zero collect duration, and round boundaries that fit 64 bits. */
  ghost predicate Sensible(c: Timing)
  {
    c.collectDurationSec > 0 && c.t0 + TWO32 * c.collectDurationSec + c.chooseDurationSec < TWO64
  }

  /** The round active at `t`, truncated to 32 bits; none before the first round. */
  function RoundIDForTS(c: Timing, t: nat): Option<nat>
    requires c.collectDurationSec > 0
  {
    if t < c.t0 then None else Some(U32((t - c.t0) / c.collectDurationSec))
  }

  function RoundStartTS(c: Timing, n: nat): nat { U64(c.t0 + n * c.collectDurationSec) }

  /** The 32-bit successor wraps around. */
  function ChooseStartTS(c: Timing, n: nat): nat { RoundStartTS(c, U32(n + 1)) }

  function ChooseEndTS(c: Timing, n: nat): nat { U64(ChooseStartTS(c, n) + c.chooseDurationSec) }

  function NextChooseEnd(c: Timing, t: nat): (nat, nat)
    requires c.collectDurationSec > 0 && t < TWO64
  {
    if t < U64(c.t0 + c.chooseDurationSec + 1) then (0, ChooseEndTS(c, 0))
    else
      var roundID := U32(Sub64(t, U64(c.t0 + c.chooseDurationSec + 1)) / c.collectDurationSec);
      (roundID, ChooseEndTS(c, roundID))
  }

  /** The unbounded end of the choose phase of round `n`. */
  ghost function EndOf(c: Timing, n: nat): nat { c.t0 + (n + 1) * c.collectDurationSec + c.chooseDurationSec }

  lemma ProductMono(a: nat, b: nat, c: nat)
    requires a <= b
    ensures a * c <= b * c
  {
  }

  /** Below the last round number nothing wraps. */
  lemma NoWrap(c: Timing, n: nat)
    requires Sensible(c) && n + 1 < TWO32
    ensures ChooseEndTS(c, n) == EndOf(c, n)
    ensures ChooseStartTS(c, n) == c.t0 + (n + 1) * c.collectDurationSec
    ensures RoundStartTS(c, n) == c.t0 + n * c.collectDurationSec
  {
    ProductMono(n, TWO32, c.collectDurationSec);
    ProductMono(n + 1, TWO32, c.collectDurationSec);
  }

  /** Division bounds in product form. */
  lemma Quotient(x: nat, d: nat)
    requires d > 0
    ensures x / d * d <= x < (x / d + 1) * d
  {
  }

  /** The next choose end of `t` is the least round whose choose phase ends at `t` or later. */
  lemma NextChooseEndIsLeast(c: Timing, t: nat, last: nat)
    requires Sensible(c) && last + 1 < TWO32 && t < TWO64 && t <= EndOf(c, last)
    ensures var (n, end) := NextChooseEnd(c, t);
            && n <= last && end == ChooseEndTS(c, n) == EndOf(c, n) && t <= end
            && forall m :: 0 <= m < n ==> EndOf(c, m) < t
  {
    var d := c.collectDurationSec;
    if t < c.t0 + c.chooseDurationSec + 1 {
      NoWrap(c, 0);
    } else {
      var x := t - c.t0 - c.chooseDurationSec - 1;
      var q := x / d;
      Quotient(x, d);
      if q > last {
        ProductMono(last + 1, q, d);
        assert false;
      }
      NoWrap(c, q);
      forall m | 0 <= m < q ensures EndOf(c, m) < t {
        ProductMono(m + 1, q, d);
      }
    }
  }

  // ---------------------------------------------------------------- phase windows

  /** The round of a timestamp: the one whose collect phase contains it, and none before the first round. */
  lemma RoundOfTimestamp(c: Timing, t: nat, n: nat)
    requires Sensible(c) && n + 1 < TWO32 && (t < c.t0 || (t - c.t0) / c.collectDurationSec < TWO32)
    ensures RoundIDForTS(c, t) == Some(n) <==> RoundStartTS(c, n) <= t < RoundStartTS(c, n + 1)
    ensures RoundIDForTS(c, t).None? <==> t < c.t0
  {
    NoWrap(c, n);
    ProductMono(n + 1, TWO32, c.collectDurationSec);
    if t >= c.t0 {
      var q := (t - c.t0) / c.collectDurationSec;
      Quotient(t - c.t0, c.collectDurationSec);
      if q < n {
        ProductMono(q + 1, n, c.collectDurationSec);
      } else if n < q {
        ProductMono(n + 1, q, c.collectDurationSec);
      }
    }
  }

  /** A bit vote for round `n` is accepted in the choose phase of `n`, its end excluded. */
  predicate AcceptsBitVote(c: Timing, timestamp: nat, n: nat)
  {
    ChooseStartTS(c, n) <= timestamp < ChooseEndTS(c, n)
  }

  /** The window in seconds: it opens when the collect phase of the round is over and lasts as long as the choose phase. */
  lemma WindowExactly(c: Timing, timestamp: nat, n: nat)
    requires Sensible(c) && n + 1 < TWO32
    ensures AcceptsBitVote(c, timestamp, n)
            <==> var opens := c.t0 + (n + 1) * c.collectDurationSec; opens <= timestamp < opens + c.chooseDurationSec
  {
    NoWrap(c, n);
  }

  /** Phase separation: what is assigned to a round was requested in its collect phase, before any bit vote for it can be
      accepted. */
  lemma RequestsPrecedeBitVotes(c: Timing, request: nat, vote: nat, n: nat)
    requires Sensible(c) && n + 1 < TWO32 && (request < c.t0 || (request - c.t0) / c.collectDurationSec < TWO32)
    requires RoundIDForTS(c, request) == Some(n) && AcceptsBitVote(c, vote, n)
    ensures RoundStartTS(c, n) <= request < ChooseStartTS(c, n) <= vote
  {
    RoundOfTimestamp(c, request, n);
  }

  /** One timestamp serves at most one round exactly when the choose phase is no longer than the collect phase. */
  lemma WindowsDisjointIff(c: Timing)
    requires Sensible(c)
    ensures (forall t, m, n :: 0 <= m < n && n + 1 < TWO32 && AcceptsBitVote(c, t, m) ==> !AcceptsBitVote(c, t, n))
            <==> c.chooseDurationSec <= c.collectDurationSec
  {
    if c.chooseDurationSec <= c.collectDurationSec {
      forall t, m, n | 0 <= m < n && n + 1 < TWO32 && AcceptsBitVote(c, t, m) ensures !AcceptsBitVote(c, t, n) {
        ShortWindows(c, t, m, n);
      }
    } else {
      LongWindows(c);
      assert 0 <= 0 < 1 && AcceptsBitVote(c, ChooseStartTS(c, 1), 0);
    }
  }

  lemma ShortWindows(c: Timing, t: nat, m: nat, n: nat)
    requires Sensible(c) && c.chooseDurationSec <= c.collectDurationSec && m < n && n + 1 < TWO32
    ensures !(AcceptsBitVote(c, t, m) && AcceptsBitVote(c, t, n))
  {
    NoWrap(c, m);
    NoWrap(c, n);
    ProductMono(m + 2, n + 1, c.collectDurationSec);
  }

  /** With a longer choose phase, the start of one window lies inside the previous one. */
  lemma LongWindows(c: Timing)
    requires Sensible(c) && c.chooseDurationSec > c.collectDurationSec
    ensures AcceptsBitVote(c, ChooseStartTS(c, 1), 0) && AcceptsBitVote(c, ChooseStartTS(c, 1), 1)
  {
    NoWrap(c, 0);
    NoWrap(c, 1);
  }
}
