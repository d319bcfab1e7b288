/**
  Building a signal: durations in units of 10 ps become reload values of the timer, and the
  rounding error goes into the next period or, at the end, into the signal's remainder.
 */
module DigitalSignals {
  import opened MachineTypes
  import opened WaveModel

  /** A duration in whole timer ticks, to the nearest, and what is left over or was added. */
  function Quantised(duration: nat): (q: (nat, int))
    ensures q.0 * T_TIM + q.1 == duration && InBounds(q.1)
  {
    var ticks, rest := duration / T_TIM, duration % T_TIM;
    if rest >= T_TIM_DIV2 then (ticks + 1, rest - T_TIM) else (ticks, rest)
  }

  /** The check on a period: at least two ticks, of the sum as uint32_t has it. */
  predicate LongEnough(sum: int) {
    Quantised(sum % TWO_TO_32).0 > 1
  }

  /** One and a half ticks are enough. */
  lemma LongEnoughIff(sum: int)
    ensures LongEnough(sum) <==> sum % TWO_TO_32 >= 2343
  {
  }

  /** A period and the remainder behind it hold the sum exactly, as uint32_t has it. */
  predicate Stored(sum: int, period: nat, remainder: int) {
    T_TIM * (period + 1) + remainder == sum % TWO_TO_32
  }

  /** There is one such rounding. */
  lemma QuantisedUnique(duration: nat, ticks: nat, rest: int)
    requires ticks * T_TIM + rest == duration && InBounds(rest)
    ensures Quantised(duration) == (ticks, rest)
  {
  }

  /** Every remainder of half a tick to either side occurs. */
  lemma RemaindersReached(rest: int)
    requires InBounds(rest)
    ensures Quantised(2 * T_TIM + rest) == (2, rest)
  {
    QuantisedUnique(2 * T_TIM + rest, 2, rest);
  }

  /**
    For signals that were built here the error of every sequence stays within half a tick exactly
    when no remainder is negative.
   */
  lemma BuiltErrorBoundedIff(bank: set<int>)
    requires forall r :: r in bank ==> InBounds(r)
    ensures (forall remainders :: DrawnFrom(remainders, bank) ==> InBounds(Carried(remainders).0))
      <==> (forall r :: r in bank ==> r >= 0)
  {
    ErrorBoundedIff(bank);
  }

  lemma {:induction false} SumPush(periods: seq<nat>, p: nat)
    ensures Sum(periods + [p]) == Sum(periods) + p
    decreases |periods|
  {
    if periods == [] {
      assert ([] + [p])[1..] == [];
    } else {
      assert (periods + [p])[1..] == periods[1..] + [p];
      SumPush(periods[1..], p);
    }
  }

  class DigitalSignal {
    const maxSize: nat
    var startLevel: bool
    var data: seq<nat>
    var remainder: int
    /** All durations asked for, and how often the 32-bit sum of a duration and the remainder wrapped. */
    ghost var asked: nat
    ghost var wraps: int

    function Value(): Signal
      reads this
    {
      Signal(startLevel, data, remainder)
    }

    /** The timer ticks of the periods, in 10 ps, and the remainder are what was asked for. */
    ghost predicate Valid()
      reads this
    {
      && |data| <= maxSize && Positive(data) && InBounds(remainder)
      && T_TIM * (Sum(data) + |data|) + remainder == asked - TWO_TO_32 * wraps
    }

    constructor (maxSize: nat)
      ensures Valid() && this.maxSize == maxSize && Value() == Signal(false, [], 0) && asked == 0 && wraps == 0
    {
      this.maxSize := maxSize;
      startLevel, data, remainder := false, [], 0;
      asked, wraps := 0, 0;
    }

    /** The rounding that both ways of adding a period share. */
    static method Round(duration: nat) returns (reloadValue: nat, rest: int)
      ensures (reloadValue, rest) == Quantised(duration)
    {
      reloadValue := duration / T_TIM;
      rest := duration - reloadValue * T_TIM;
      if rest >= T_TIM_DIV2 {
        reloadValue := reloadValue + 1;
        rest := rest - T_TIM;
      }
      QuantisedUnique(duration, reloadValue, rest);
    }

    /** digital_signal_add_period; false for a check that stops the device. */
    method AddPeriod(ticks: uint32) returns (ok: bool)
      requires Valid()
      modifies this`data, this`remainder, this`asked, this`wraps
      ensures Valid()
      ensures ok <==> |old(data)| < maxSize && LongEnough(ticks + old(remainder))
      ensures !ok ==> Value() == old(Value()) && asked == old(asked)
      ensures ok ==> |data| == |old(data)| + 1 && old(data) <= data && asked == old(asked) + ticks
      ensures ok ==> Stored(ticks + old(remainder), data[|data| - 1], remainder)
      ensures ok ==> wraps == old(wraps) + (ticks + old(remainder)) / TWO_TO_32
    {
      hide Quantised, Sum;
      if |data| >= maxSize {
        return false;
      }
      var duration := (ticks + remainder) % TWO_TO_32;
      var reloadValue, rest := Round(duration);
      if reloadValue <= 1 {
        return false;
      }
      SumPush(data, reloadValue - 1);
      wraps := wraps + (ticks + remainder) / TWO_TO_32;
      asked := asked + ticks;
      data := data + [reloadValue - 1];
      remainder := rest;
      ok := true;
    }

    /** digital_signal_extend_last_period. */
    method ExtendLastPeriod(ticks: uint32) returns (ok: bool)
      requires Valid() && data != []
      modifies this`data, this`remainder, this`asked, this`wraps
      ensures Valid()
      ensures var sum := ticks + old(remainder) + (old(data)[|old(data)| - 1] + 1) * T_TIM;
        && (ok <==> LongEnough(sum))
        && (ok ==> |data| == |old(data)| && data[..|data| - 1] == old(data)[..|data| - 1])
        && (ok ==> Stored(sum, data[|data| - 1], remainder))
        && (ok ==> asked == old(asked) + ticks && wraps == old(wraps) + sum / TWO_TO_32)
      ensures !ok ==> Value() == old(Value()) && asked == old(asked)
    {
      hide Quantised, Sum;
      var last := |data| - 1;
      ghost var sum := ticks + remainder + (data[last] + 1) * T_TIM;
      var duration := (ticks + remainder + (data[last] + 1) * T_TIM) % TWO_TO_32;
      var reloadValue, rest := Round(duration);
      if reloadValue <= 1 {
        return false;
      }
      SumPush(data[..last], data[last]);
      SumPush(data[..last], reloadValue - 1);
      assert data == data[..last] + [data[last]];
      wraps := wraps + sum / TWO_TO_32;
      asked := asked + ticks;
      data := data[..last] + [reloadValue - 1];
      remainder := rest;
      ok := true;
    }

    /** digital_signal_add_period_with_level. */
    method AddPeriodWithLevel(ticks: uint32, level: bool) returns (ok: bool)
      requires Valid()
      modifies this
      ensures Valid()
      ensures ok ==> Playable(Value()) && EndLevel(Value()) == level && asked == old(asked) + ticks
      ensures old(data) != [] ==> startLevel == old(startLevel)
      ensures old(data) == [] ==> startLevel == level
      // at the end level the last period grows, at the other one a period is added; older periods stay
      ensures var grows := old(data) != [] && level == old(EndLevel(Value()));
        var sum := ticks + old(remainder) + if grows then (old(data)[|old(data)| - 1] + 1) * T_TIM else 0;
        && (ok <==> LongEnough(sum) && (grows || |old(data)| < maxSize))
        && (ok ==> data != [] && data[..|data| - 1] == if grows then old(data)[..|old(data)| - 1] else old(data))
        && (ok ==> Stored(sum, data[|data| - 1], remainder) && wraps == old(wraps) + sum / TWO_TO_32)
      ensures !ok ==> data == old(data) && remainder == old(remainder) && asked == old(asked)
    {
      hide LongEnough, Stored, Sum;
      if data == [] {
        startLevel := level;
        ok := AddPeriod(ticks);
      } else {
        var endLevel := startLevel != (|data| % 2 == 0);
        if level != endLevel {
          ok := AddPeriod(ticks);
        } else {
          ok := ExtendLastPeriod(ticks);
        }
      }
    }

    /** Nothing wraps exactly when the sum is a uint32_t; from half a tick up it is, whatever the remainder. */
    lemma NoWrapIff(ticks: uint32)
      requires InBounds(remainder)
      ensures (ticks + remainder) / TWO_TO_32 == 0 <==> 0 <= ticks + remainder < TWO_TO_32
      ensures T_TIM_DIV2 <= ticks <= TWO_TO_32 - T_TIM_DIV2 ==> (ticks + remainder) / TWO_TO_32 == 0
    {
    }

    /** On the pin the periods and the remainder last as long as was asked for. */
    lemma PinLastsAsAsked()
      requires Valid()
      ensures T_TIM * |Pin(startLevel, data)| + remainder == asked - TWO_TO_32 * wraps
    {
      PinLength(startLevel, data);
      WaveLength(startLevel, data);
    }
  }

  /** Two ticks less 10 ps: the remainder is negative. */
  method NegativeRemainder(maxSize: nat) returns (signal: DigitalSignal)
    requires maxSize > 0
    ensures fresh(signal) && signal.Valid() && signal.maxSize == maxSize && |signal.data| == 1
    ensures signal.remainder == -1 && signal.wraps == 0
  {
    signal := new DigitalSignal(maxSize);
    QuantisedUnique(3123, 2, -1);
    var ok := signal.AddPeriod(3123);
  }

  /** Behind it a duration of 0 is accepted, as a period of nearly 2^32 units. */
  method ShortDurationWraps() returns (ok: bool, period: nat)
    ensures ok && T_TIM * (period + 1) > TWO_TO_32 - T_TIM
  {
    var signal := NegativeRemainder(2);
    QuantisedUnique(TWO_TO_32 - 1, 2_749_659, -63);
    ok := signal.AddPeriod(0);
    period := signal.data[1];
  }
}
