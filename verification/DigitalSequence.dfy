/**
  The digital sequence transmitter.  The writer merges the periods of the queued
  signals and puts them into a ring buffer; the hardware takes them out, one ring
  slot for every timer period.  The hardware is a step that may run any number of
  times whenever the writer looks at it.
 */
module DigitalSequences {
  import opened WaveModel

  const TIMER_MAX: nat := 0xFFFF_FFFF
  const RING_SIZE: nat := 128
  const MIN_FREE: nat := 2

  datatype State = Idle | Active
  datatype Option<T> = None | Some(value: T)

  /** No level is held for 2^32 - 1 ticks or more, so no period overflows or looks like the terminator. */
  ghost predicate ShortRuns(w: seq<bool>) {
    forall a, b {:trigger w[a..b]} ::
      0 <= a <= b <= |w| && (forall i :: a <= i < b ==> w[i] == w[a]) ==> b - a < TIMER_MAX
  }

  lemma RunIsShort(before: seq<bool>, level: bool, n: nat, after: seq<bool>)
    requires ShortRuns(before + Hold(level, n) + after)
    ensures n < TIMER_MAX
  {
    var w := before + Hold(level, n) + after;
    var run := w[|before|..|before| + n];
    assert forall i :: |before| <= i < |before| + n ==> w[i] == level;
  }

  lemma SlotsDiffer(i: nat, j: nat)
    requires i < j < i + RING_SIZE
    ensures i % RING_SIZE != j % RING_SIZE
  {
  }

  lemma NextSlot(n: nat)
    ensures (n % RING_SIZE + 1) % RING_SIZE == (n + 1) % RING_SIZE
  {
  }

  /** Free slots as the writer computes them, for d unread slots. */
  lemma FreeSlots(taken: nat, written: nat)
    requires taken <= written <= taken + 126 || taken == written + 1
    ensures (RING_SIZE + taken % RING_SIZE - written % RING_SIZE) % RING_SIZE > MIN_FREE
      ==> taken < written <= taken + 125
  {
  }

  /** What a wait for room saw last: the free slots, how often it had looked before, and the reload register. */
  datatype Look = Look(free: nat, polls: nat, patience: nat, arr: nat)

  /** A wait gives up only late, or when the hardware has met the terminator. */
  predicate Justified(look: Look) {
    look.free <= MIN_FREE ==> look.polls > look.patience || look.arr == TIMER_MAX
  }

  predicate AllJustified(looks: seq<Look>) {
    forall i :: 0 <= i < |looks| ==> Justified(looks[i])
  }

  /** No wait gave up. */
  predicate AllRoom(looks: seq<Look>) {
    forall i :: 0 <= i < |looks| ==> looks[i].free > MIN_FREE
  }

  lemma LooksGrow(looks: seq<Look>, look: Look)
    ensures AllJustified(looks + [look]) <==> AllJustified(looks) && Justified(look)
    ensures AllRoom(looks + [look]) <==> AllRoom(looks) && look.free > MIN_FREE
  {
    var more := looks + [look];
    assert more[|looks|] == look && forall i :: 0 <= i < |looks| ==> more[i] == looks[i];
  }

  /** The periods whose hardware start came first need no wait. */
  function Waits(n: nat): nat {
    if n <= 126 then 0 else n - 126
  }

  /** The ring holds the last 127 periods written to it. */
  predicate Stored(slots: seq<nat>, enqueued: seq<nat>)
    requires |slots| == RING_SIZE
  {
    forall i :: 0 <= i < |enqueued| < i + RING_SIZE ==> slots[i % RING_SIZE] == enqueued[i]
  }

  /** Writing a period and the terminator behind it overwrites the oldest period alone. */
  lemma SlotsWritten(before: seq<nat>, after: seq<nat>, enqueued: seq<nat>, length: nat)
    requires |before| == |after| == RING_SIZE && Stored(before, enqueued)
    requires after == before[|enqueued| % RING_SIZE := length][(|enqueued| + 1) % RING_SIZE := TIMER_MAX]
    ensures Stored(after, enqueued + [length]) && after[(|enqueued| + 1) % RING_SIZE] == TIMER_MAX
    ensures after[|enqueued| % RING_SIZE] == length
  {
    var n := |enqueued|;
    SlotsDiffer(n, n + 1);
    forall i | 0 <= i < n + 1 < i + RING_SIZE ensures after[i % RING_SIZE] == (enqueued + [length])[i] {
      if i < n {
        SlotsDiffer(i, n);
        SlotsDiffer(i, n + 1);
      }
    }
  }

  function SequenceOf(signals: seq<Signal>, data: seq<nat>): (ss: seq<Signal>)
    requires forall i :: 0 <= i < |data| ==> data[i] < |signals|
    ensures |ss| == |data| && forall i :: 0 <= i < |ss| ==> ss[i] == signals[data[i]]
  {
    seq(|data|, i requires 0 <= i < |data| => signals[data[i]])
  }

  class DigitalSequence {
    var signals: seq<Signal>
    var data: seq<nat>
    /** The two words the GPIO channel alternates between: drive the pin high or low. */
    var gpioBuf: seq<bool>
    const ring: array<nat>
    var writePos: nat
    var readPos: nat
    var state: State

    // the hardware: words taken by the timer channel, and the reload register
    var taken: nat
    var arr: nat
    /** The terminator was loaded; the next update is 2^32 ticks away. */
    var halted: bool

    ghost var enqueued: seq<nat>
    ghost var emitted: seq<nat>
    /** The last look of every wait of the current run. */
    ghost var looks: seq<Look>
    /** How often the writer has looked at the hardware. */
    ghost var looked: nat
    /** The content of slot 0 before the run; it is the terminator only once a run has been completed. */
    ghost var first: nat
    /** The hardware was started on a slot that nobody wrote. */
    ghost var junk: bool

    /** No wait of the current run has timed out or met an underrun. */
    ghost predicate Clean()
      reads this
    {
      AllRoom(looks)
    }

    /** The ring and its writer. */
    ghost predicate WriterInv()
      reads this, ring
    {
      && ring.Length == RING_SIZE && writePos == |enqueued| % RING_SIZE
      && Stored(ring[..], enqueued)
      && (enqueued != [] ==> ring[writePos] == TIMER_MAX)
      && (enqueued == [] ==> ring[0] == first)
      && (forall i :: 0 <= i < |enqueued| ==> enqueued[i] < TIMER_MAX)
    }

    /** The hardware, as long as no wait has given up. */
    ghost predicate ReaderInv()
      reads this
    {
      && emitted <= enqueued
      && |enqueued| <= |emitted| + 126
      && (!halted ==> taken == |emitted|)
      && (halted ==> taken == |enqueued| + 1 && emitted == enqueued)
      && (state.Active? ==> (halted <==> arr == TIMER_MAX))
      && (state.Idle? ==> !halted && emitted == [])
    }

    /** The ring between its reader and its writer. */
    ghost predicate RingInv()
      reads this, ring
    {
      && WriterInv() && |looks| == Waits(|enqueued|) && AllJustified(looks)
      && (Clean() && !junk ==> ReaderInv())
      && (state.Idle? ==> !junk && |enqueued| <= 126)
      && (junk ==> enqueued == [] && emitted != [] && first != TIMER_MAX)
      && (state.Active? && !junk ==> enqueued != [] || first == TIMER_MAX)
    }

    /** Before the end of the data the hardware runs only behind a full ring of this run. */
    ghost predicate Primed()
      reads this
    {
      !junk && (state.Active? ==> |enqueued| >= 126)
    }

    ghost predicate Configured()
      reads this
    {
      && data != []
      && (forall i :: 0 <= i < |data| ==> data[i] < |signals| && Playable(signals[data[i]]))
    }

    ghost function Sequence(): (ss: seq<Signal>)
      reads this
      requires Configured()
      ensures |ss| == |data| && forall i :: 0 <= i < |ss| ==> Playable(ss[i]) && ss[i] == signals[data[i]]
    {
      SequenceOf(signals, data)
    }

    /** Between runs; slot 0 may still hold what allocation left there. */
    ghost predicate Resting()
      reads this
    {
      ring.Length == RING_SIZE && state.Idle? && writePos == 0
    }

    /** A new sequence: all ring slots are zero, none holds the terminator. */
    constructor ()
      ensures Resting() && fresh(ring) && ring[0] == 0 && signals == [] && data == []
    {
      ring := new nat[RING_SIZE](_ => 0);
      signals, data, gpioBuf := [], [], [];
      writePos, readPos, taken, arr := 0, 0, 0, 0;
      state, halted := Idle, false;
      enqueued, emitted, looks, looked, first, junk := [], [], [], 0, 0, false;
    }

    /** One timer update: the next ring slot goes to the reload register. */
    method DmaStep()
      requires RingInv() && state.Active?
      modifies `taken, `arr, `halted, `emitted
      ensures RingInv()
      ensures old(halted) ==> halted && taken == old(taken) && arr == old(arr) && emitted == old(emitted)
      ensures !old(halted) ==> taken == old(taken) + 1 && arr == ring[old(taken) % RING_SIZE]
      ensures !old(halted) && arr == TIMER_MAX ==> halted && emitted == old(emitted)
      ensures !old(halted) && arr != TIMER_MAX ==> !halted && emitted == old(emitted) + [arr]
    {
      if !halted {
        arr := ring[taken % RING_SIZE];
        taken := taken + 1;
        if arr == TIMER_MAX {
          halted := true;
        } else {
          emitted := emitted + [arr];
        }
      }
    }

    /** The writer looks at the hardware; any number of timer updates have passed. */
    method DmaProgress()
      requires RingInv() && state.Active?
      modifies `taken, `arr, `halted, `emitted, `looked
      ensures RingInv() && old(emitted) <= emitted && looked == old(looked) + 1
    {
      looked := looked + 1;
      var n :| n >= 0;
      for _ := 0 to n
        invariant RingInv() && old(emitted) <= emitted && looked == old(looked) + 1
      {
        DmaStep();
      }
    }

    /** Free slots as the writer computes them. */
    function Free(): nat
      requires readPos < RING_SIZE && writePos < RING_SIZE
      reads this
    {
      (RING_SIZE + readPos - writePos) % RING_SIZE
    }

    /**
      Waits until more than MIN_FREE slots are free; `patience` polls fit in the allowed time.  The
      wait ends otherwise only when that time is over or the hardware has met the terminator.
     */
    method WaitForRoom(patience: nat) returns (ghost look: Look)
      requires RingInv() && state.Active? && Primed()
      modifies `taken, `arr, `halted, `emitted, `readPos, `looked
      ensures RingInv() && old(emitted) <= emitted
      ensures readPos == taken % RING_SIZE && looked > old(looked)
      ensures look == Look(Free(), looked - old(looked) - 1, patience, arr)
      ensures Justified(look)
      ensures Clean() && look.free > MIN_FREE ==> |enqueued| <= |emitted| + 125 && !halted
    {
      hide Stored, AllJustified, AllRoom, Waits;
      var polls := 0;
      while true
        invariant RingInv() && old(emitted) <= emitted && looked == old(looked) + polls
        decreases patience + 1 - polls
      {
        DmaProgress();
        readPos := taken % RING_SIZE;
        look := Look(Free(), polls, patience, arr);
        var sizeFree := (RING_SIZE + readPos - writePos) % RING_SIZE;
        if sizeFree > MIN_FREE {
          if Clean() { FreeSlots(taken, |enqueued|); }
          break;
        }
        if polls > patience {
          break;
        }
        if arr == TIMER_MAX {
          break;
        }
        polls := polls + 1;
      }
    }

    /** The two stores of a period: itself and the terminator in the next slot. */
    method StorePeriod(length: nat)
      requires WriterInv() && length < TIMER_MAX
      modifies ring, `writePos, `enqueued
      ensures WriterInv() && enqueued == old(enqueued) + [length]
      ensures writePos == (old(writePos) + 1) % RING_SIZE
      ensures ring[old(writePos)] == length && ring[writePos] == TIMER_MAX
      ensures forall j :: 0 <= j < RING_SIZE && j != old(writePos) && j != writePos ==> ring[j] == old(ring[j])
    {
      hide Stored;
      NextSlot(|enqueued|);
      SlotsDiffer(|enqueued|, |enqueued| + 1);
      ring[writePos] := length;
      writePos := (writePos + 1) % RING_SIZE;
      ring[writePos] := TIMER_MAX;
      SlotsWritten(old(ring[..]), ring[..], enqueued, length);
      enqueued := enqueued + [length];
    }

    /** digital_sequence_enqueue_period. */
    method EnqueuePeriod(length: nat, patience: nat)
      requires RingInv() && length < TIMER_MAX && Primed()
      requires state.Idle? ==> |enqueued| < 126
      modifies this, ring
      ensures RingInv() && Primed() && first == old(first)
      ensures enqueued == old(enqueued) + [length] && writePos == (old(writePos) + 1) % RING_SIZE
      ensures ring[old(writePos)] == length && ring[writePos] == TIMER_MAX
      ensures forall j :: 0 <= j < RING_SIZE && j != old(writePos) && j != writePos ==> ring[j] == old(ring[j])
      ensures state == old(state) && gpioBuf == old(gpioBuf) && signals == old(signals) && data == old(data)
      ensures state.Idle? ==> looks == [] && looked == old(looked)
      ensures state.Active? ==>
        && readPos < RING_SIZE && looked > old(looked)
        && var free := (RING_SIZE + readPos - old(writePos)) % RING_SIZE;
          looks == old(looks) + [Look(free, looked - old(looked) - 1, patience, arr)]
    {
      if state.Active? {
        ghost var look := WaitForRoom(patience);
        LooksGrow(looks, look);
        looks := looks + [look];
      }
      hide WriterInv, AllJustified, AllRoom;
      StorePeriod(length);
    }

    /** digital_sequence_start_dma and _start_timer: the update event loads the first slot. */
    method Start()
      requires RingInv() && state.Idle?
      modifies `taken, `arr, `halted, `emitted, `state, `junk
      ensures RingInv() && state.Active?
      ensures junk <==> enqueued == [] && ring[0] != TIMER_MAX
      ensures taken == 1 && arr == ring[0] && (halted <==> arr == TIMER_MAX)
      ensures emitted == if halted then old(emitted) else old(emitted) + [ring[0]]
    {
      junk := enqueued == [] && ring[0] != TIMER_MAX;
      assert enqueued != [] ==> ring[..][0 % RING_SIZE] == enqueued[0];
      taken := 0;
      halted := false;
      arr := ring[0];
      taken := 1;
      state := Active;
      if arr == TIMER_MAX {
        halted := true;
      } else {
        emitted := emitted + [arr];
      }
    }

    /** digital_sequence_finish: true when the terminator was seen before the timeout. */
    method Finish(patience: nat) returns (done: bool)
      requires RingInv()
      modifies `taken, `arr, `halted, `emitted, `readPos, `looked
      ensures RingInv() && old(emitted) <= emitted
      ensures state.Active? ==> (done <==> arr == TIMER_MAX)
      ensures !done ==> state.Active? && looked - old(looked) > patience + 1 && readPos == taken % RING_SIZE
      ensures done && Clean() && !junk && state.Active? ==> emitted == enqueued
    {
      done := true;
      if state.Active? {
        var polls := 0;
        while true
          invariant RingInv() && old(emitted) <= emitted && looked == old(looked) + polls
          decreases patience + 1 - polls
        {
          DmaProgress();
          if arr == TIMER_MAX {
            return true;
          }
          if polls > patience {
            readPos := taken % RING_SIZE;
            return false;
          }
          polls := polls + 1;
        }
      }
    }

    /** The waveform put into the ring so far. */
    ghost function Sent(): seq<bool>
      reads this
      requires gpioBuf != []
    {
      Wave(gpioBuf[0], enqueued)
    }

    /** The level of the next period. */
    ghost predicate NextLevel()
      reads this
      requires gpioBuf != []
    {
      LevelAfter(gpioBuf[0], |enqueued|)
    }

    /** The part of the period loop that hands a finished period on and starts the hardware. */
    method PutPeriod(reloadValue: nat, carry: nat, isEndOfData: bool, patience: nat)
      requires RingInv() && 0 < reloadValue < TIMER_MAX && Positive(enqueued) && Primed()
      requires state.Idle? ==> |enqueued| < 126
      modifies this, ring
      ensures RingInv() && Positive(enqueued)
      ensures enqueued == if carry == 0 then old(enqueued) + [reloadValue] else old(enqueued)
      ensures state.Idle? ==> |enqueued| < 126
      ensures isEndOfData ==> state.Active?
      ensures !isEndOfData ==> Primed()
      ensures first == old(first) && looked >= old(looked)
      ensures gpioBuf == old(gpioBuf) && signals == old(signals) && data == old(data)
    {
      hide Stored, AllJustified, AllRoom, ReaderInv, Waits;
      if carry == 0 {
        EnqueuePeriod(reloadValue, patience);
      }
      if state.Idle? {
        var isBufferFilled := writePos >= RING_SIZE - MIN_FREE;
        if isBufferFilled || isEndOfData {
          Start();
        }
      }
    }

    /**
      The period loop of digital_sequence_transmit for one signal.  `carry` is the length carried
      into it and `carryOut` the one carried out.  Behind the periods put into the ring, `held`
      ticks of the next level are still to be sent.
     */
    method TransmitSignal(current: Signal, next: Option<Signal>, carry: nat, patience: nat, ghost rest: seq<bool>)
      returns (carryOut: nat, ghost held: nat)
      requires RingInv() && Playable(current) && Positive(enqueued) && Primed()
      requires gpioBuf != [] && current.startLevel == NextLevel()
      requires state.Idle? ==> |enqueued| < 126
      requires ShortRuns(Sent() + Hold(current.startLevel, carry) + Wave(current.startLevel, current.periods) + rest)
      modifies this, ring
      ensures RingInv() && Positive(enqueued)
      ensures first == old(first) && looked >= old(looked) && (next.Some? ==> Primed())
      ensures gpioBuf == old(gpioBuf) && signals == old(signals) && data == old(data)
      ensures state.Idle? ==> |enqueued| < 126
      ensures old(Sent()) + Hold(current.startLevel, carry) + Wave(current.startLevel, current.periods)
        == Sent() + Hold(NextLevel(), held)
      ensures |enqueued| + (if held > 0 then 1 else 0) == |old(enqueued)| + |current.periods|
      ensures next.Some? ==>
        && carryOut == held && NextLevel() == next.value.startLevel
        && (held > 0 <==> EndLevel(current) == next.value.startLevel)
      ensures next.None? ==> held > 0 && NextLevel() == EndLevel(current) && state.Active?
    {
      hide ShortRuns, RingInv, Wave, Hold;
      var size := |current.periods|;
      ghost var w := Sent() + Hold(current.startLevel, carry) + Wave(current.startLevel, current.periods);
      carryOut := carry;
      held := 0;
      assert current.periods[0..] == current.periods;
      for i := 0 to size
        invariant RingInv() && Positive(enqueued)
        invariant first == old(first) && looked >= old(looked) && (i < size || next.Some? ==> Primed())
        invariant gpioBuf == old(gpioBuf) && signals == old(signals) && data == old(data)
        invariant state.Idle? ==> |enqueued| < 126
        invariant i < size ==>
          && NextLevel() == LevelAfter(current.startLevel, i)
          && w == Sent() + Hold(NextLevel(), carryOut) + Wave(NextLevel(), current.periods[i..])
          && |enqueued| == |old(enqueued)| + i
        invariant i == size ==>
          && w == Sent() + Hold(NextLevel(), held)
          && |enqueued| + (if held > 0 then 1 else 0) == |old(enqueued)| + size
          && (next.Some? ==> carryOut == held && NextLevel() == next.value.startLevel)
          && (next.Some? ==> (held > 0 <==> EndLevel(current) == next.value.startLevel))
          && (next.None? ==> held > 0 && NextLevel() == EndLevel(current) && state.Active?)
      {
        var isLastValue := i == size - 1;
        var reloadValue := current.periods[i] + carryOut;
        ghost var level, sent := NextLevel(), Sent();
        ghost var tail := Wave(!level, current.periods[i + 1..]);
        TakePeriod(sent, level, carryOut, current.periods, i);
        RestShort(w, rest, sent, level, reloadValue, tail);
        carryOut := 0;
        if isLastValue {
          LastPeriod(current);
          if next.Some? {
            var endLevel := current.startLevel != (size % 2 == 0);
            if endLevel == next.value.startLevel {
              carryOut := reloadValue;
            }
          } else {
            carryOut := 1;
          }
        }
        PutPeriod(reloadValue, carryOut, next.None? && isLastValue, patience);
        if carryOut == 0 {
          WavePush(gpioBuf[0], enqueued[..|enqueued| - 1], reloadValue);
          PeriodSent(sent, level, reloadValue, tail);
        }
        if isLastValue {
          held := if carryOut == 0 then 0 else reloadValue;
          NothingLeft(!level, current.periods, i + 1);
          LastRun(sent, level, reloadValue, tail);
        }
      }
    }

    /** What holds when the signal with number k is about to be sent. */
    ghost predicate Progress(k: nat, pending: nat, remainder: int, tick: nat)
      reads this, ring
    {
      && Configured() && k <= |data| && gpioBuf != []
      && RingInv() && Positive(enqueued) && (k < |data| ==> Primed())
      && Full(Sequence(), 0, 0) == Sent() + Hold(NextLevel(), pending) + Full(Sequence()[k..], remainder, tick)
      && |enqueued| + PeriodCount(Sequence()[k..]) + Merges(Sequence())
        + (if k == |data| && pending > 0 then 1 else 0) == PeriodCount(Sequence()) + Merges(Sequence()[k..])
    }

    /** One round of the signal loop. */
    method TransmitNext(k: nat, carry: nat, patience: nat, ghost pending: nat, ghost remainder: int, ghost tick: nat)
      returns (carryOut: nat, ghost held: nat)
      requires Progress(k, pending, remainder, tick) && k < |data| && carry == pending + tick
      requires NextLevel() == Sequence()[k].startLevel && ShortRuns(Full(Sequence(), 0, 0))
      requires state.Idle? ==> |enqueued| < 126
      modifies this, ring
      ensures data == old(data) && signals == old(signals) && gpioBuf == old(gpioBuf) && first == old(first)
      ensures looked >= old(looked)
      ensures var (r, c) := Corrected(remainder + Sequence()[k].remainder);
        Progress(k + 1, held, r, c)
      ensures state.Idle? ==> |enqueued| < 126
      ensures k + 1 < |data| ==> carryOut == held && NextLevel() == Sequence()[k + 1].startLevel
      ensures k + 1 == |data| ==> held > 0 && NextLevel() == EndLevel(Sequence()[k]) && state.Active?
    {
      hide ShortRuns, Wave, Hold, Full, Merges, PeriodCount, RingInv;
      ghost var ss := Sequence();
      var current := signals[data[k]];
      var next := if k + 1 < |data| then Some(signals[data[k + 1]]) else None;
      ghost var (r, c) := Corrected(remainder + current.remainder);
      ghost var rest := Full(ss[k + 1..], r, c);
      assert ss[k..][0] == current && ss[k..][1..] == ss[k + 1..];
      NextSignal(Sent(), current.startLevel, pending, ss[k..], remainder, tick);
      CountSignal(ss, k);
      carryOut, held := TransmitSignal(current, next, carry, patience, rest);
      assert Sequence() == ss;
    }

    /** The signal loop: rounding error is carried and spread over the boundaries. */
    method TransmitAll(patience: nat) returns (ghost held: nat)
      requires Progress(0, 0, 0, 0) && NextLevel() == Sequence()[0].startLevel
      requires ShortRuns(Full(Sequence(), 0, 0)) && (state.Idle? ==> |enqueued| < 126)
      modifies this, ring
      ensures data == old(data) && signals == old(signals) && gpioBuf == old(gpioBuf) && gpioBuf != []
      ensures first == old(first) && looked >= old(looked)
      ensures Configured() && RingInv() && state.Active? && Positive(enqueued + [held])
      ensures Wave(gpioBuf[0], enqueued + [held]) == Full(Sequence(), 0, 0)
      ensures |enqueued + [held]| + Merges(Sequence()) == PeriodCount(Sequence())
      ensures NextLevel() == EndLevel(Sequence()[|data| - 1])
    {
      hide ShortRuns, Wave, Hold, Full, Merges, PeriodCount, RingInv;
      ghost var ss := Sequence();
      var remainderTicks: int := 0;
      var carry: nat := 0;
      var k := 0;
      ghost var pending, tick := 0, 0;
      while true
        invariant 0 <= k < |data| && data == old(data) && signals == old(signals) && gpioBuf == old(gpioBuf)
        invariant first == old(first) && looked >= old(looked)
        invariant Progress(k, pending, remainderTicks, tick) && Sequence() == ss
        invariant NextLevel() == ss[k].startLevel && carry == pending + tick
        invariant state.Idle? ==> |enqueued| < 126
        decreases |data| - k
      {
        var remainder := signals[data[k]].remainder;
        ghost var (r, c) := Corrected(remainderTicks + remainder);
        carry, held := TransmitNext(k, carry, patience, pending, remainderTicks, tick);
        if k + 1 == |data| {
          LastSignal(gpioBuf[0], enqueued, held, ss, r, c);
          LastFull(Sent() + Hold(NextLevel(), held), ss, r, c);
          break;
        }
        remainderTicks := remainderTicks + remainder;
        if remainderTicks >= T_TIM_DIV2 {
          remainderTicks := remainderTicks - T_TIM;
          carry := carry + 1;
        }
        pending, tick := held, c;
        k := k + 1;
      }
    }

    /** Nothing is written or read yet; slot 0 is what the last run or allocation left. */
    method Clear()
      requires Resting()
      modifies `enqueued, `emitted, `looks, `first, `junk, `taken, `halted
      ensures RingInv() && first == ring[0] && enqueued == [] && Primed()
    {
      enqueued, emitted, looks, first, junk := [], [], [], ring[0], false;
      taken, halted := 0, false;
    }

    /** The start of a run: digital_sequence_init_gpio_buffer and the local counters. */
    method Begin()
      requires Configured() && Resting()
      modifies this
      ensures data == old(data) && signals == old(signals) && first == ring[0] && looked == old(looked)
      ensures gpioBuf == [Sequence()[0].startLevel, !Sequence()[0].startLevel]
      ensures Progress(0, 0, 0, 0) && NextLevel() == Sequence()[0].startLevel && state.Idle? && enqueued == []
    {
      hide Wave, Hold, Full, Merges, PeriodCount, RingInv;
      gpioBuf := [signals[data[0]].startLevel, !signals[data[0]].startLevel];
      Clear();
      StartOfSequence(Sequence(), gpioBuf[0]);
    }

    /** What RingInv says once the hardware runs. */
    lemma Running()
      requires RingInv() && state.Active?
      ensures !junk <==> first == TIMER_MAX || enqueued != []
      ensures Clean() ==> (emitted <= enqueued <==> !junk)
      ensures |looks| == Waits(|enqueued|) && AllJustified(looks)
      ensures ring.Length == RING_SIZE
      ensures forall i :: 0 <= i < |enqueued| < i + RING_SIZE ==> ring[i % RING_SIZE] == enqueued[i]
      ensures enqueued != [] ==> ring[|enqueued| % RING_SIZE] == TIMER_MAX
    {
    }

    /** Everything but the reset of the ring. */
    method Play(patience: nat) returns (done: bool, ghost held: nat)
      requires Configured() && Resting() && ShortRuns(Full(Sequence(), 0, 0))
      modifies this, ring
      ensures data == old(data) && signals == old(signals) && Configured()
      ensures first == old(ring[0]) && RingInv() && state.Active? && Positive(enqueued + [held])
      ensures gpioBuf == [Sequence()[0].startLevel, !Sequence()[0].startLevel]
      ensures Wave(gpioBuf[0], enqueued + [held]) == Full(Sequence(), 0, 0)
      ensures |enqueued + [held]| + Merges(Sequence()) == PeriodCount(Sequence())
      ensures NextLevel() == EndLevel(Sequence()[|data| - 1])
      ensures done && Clean() && !junk ==> emitted == enqueued
      ensures !done ==> arr != TIMER_MAX && looked - old(looked) > patience + 1
    {
      hide ShortRuns, Wave, Hold, Full, Merges, PeriodCount, Positive, RingInv, LevelAfter, EndLevel;
      Begin();
      held := TransmitAll(patience);
      done := Finish(patience);
    }

    /**
      digital_sequence_transmit.  `held` is the length of the last run of equal levels, which is
      not put into the ring: the pin keeps that level.  `done` says that the terminator was seen
      in time, `started` that the hardware began on a slot this run wrote or the last run reset:
      it fails exactly for a first run whose signals merge into the one period that is held.
     */
    method Transmit(patience: nat) returns (done: bool, ghost held: nat, ghost started: bool)
      requires Configured() && Resting() && ShortRuns(Full(Sequence(), 0, 0))
      modifies this, ring
      ensures data == old(data) && signals == old(signals) && Configured()
      ensures Positive(enqueued + [held])
      ensures Wave(Sequence()[0].startLevel, enqueued + [held]) == Full(Sequence(), 0, 0)
      ensures |enqueued + [held]| + Merges(Sequence()) == PeriodCount(Sequence())
      ensures gpioBuf == [Sequence()[0].startLevel, !Sequence()[0].startLevel]
      ensures LevelAfter(gpioBuf[0], |enqueued|) == EndLevel(Sequence()[|data| - 1])
      // in timer ticks: what the merged boundaries cost
      ensures |Unmerged(Sequence(), 0, 0)|
        == |Pin(Sequence()[0].startLevel, enqueued + [held])| + Merges(Sequence())
      ensures Pin(Sequence()[0].startLevel, enqueued + [held]) == Unmerged(Sequence(), 0, 0)
        <==> Merges(Sequence()) == 0
      // in units of 10 ps: what the signals were built to last, but for the merges and the last rounding
      ensures T_TIM * (|Pin(Sequence()[0].startLevel, enqueued + [held])| + Merges(Sequence()))
          + Carried(Remainders(Sequence()[..|data| - 1])).0 + Sequence()[|data| - 1].remainder
        == AskedAll(Sequence())
      ensures started <==> old(ring[0]) == TIMER_MAX || PeriodCount(Sequence()) > Merges(Sequence()) + 1
      // every period behind the first 126 waited once; no wait gave up without reason
      ensures |looks| == Waits(|enqueued|) && AllJustified(looks)
      ensures AllRoom(looks) ==> (emitted <= enqueued <==> started)
      ensures done && AllRoom(looks) && started ==> emitted == enqueued
      ensures !done ==> arr != TIMER_MAX && looked - old(looked) > patience + 1
      // whatever the hardware did, the ring holds the last periods and the terminator behind them
      ensures Resting() && readPos == 0 && ring[0] == TIMER_MAX
      ensures forall i :: 0 <= i < |enqueued| < i + RING_SIZE && i % RING_SIZE != 0 ==>
        ring[i % RING_SIZE] == enqueued[i]
      ensures enqueued != [] ==> ring[|enqueued| % RING_SIZE] == TIMER_MAX
    {
      hide ShortRuns, Wave, Hold, Full, Merges, PeriodCount, Positive, RingInv, Pin, Unmerged, AllJustified, AllRoom;
      done, held := Play(patience);
      started := !junk;
      Running();
      PinExactIff(Sequence(), enqueued + [held]);
      TransmissionLasts(Sequence(), enqueued + [held]);
      Reset();
    }

    /** digital_sequence_timer_buffer_reset; the hardware is stopped by then. */
    method Reset()
      requires ring.Length == RING_SIZE
      modifies ring, `readPos, `writePos, `state, `halted, `taken
      ensures state.Idle? && writePos == readPos == 0 && ring[0] == TIMER_MAX
      ensures forall j :: 0 < j < RING_SIZE ==> ring[j] == old(ring[j])
    {
      ring[0] := TIMER_MAX;
      readPos, writePos := 0, 0;
      halted, taken := false, 0;
      state := Idle;
    }
  }

  /**
    The first transmission of a new sequence with one signal of one period: the hardware starts on
    the zero that allocation left in slot 0, and emits a period nobody enqueued.
   */
  method FirstSinglePeriod(level: bool, period: nat, patience: nat)
    returns (sequence: DigitalSequence, ghost started: bool)
    requires 0 < period < TIMER_MAX
    ensures !started && sequence.enqueued == [] && !(sequence.emitted <= sequence.enqueued)
  {
    sequence := new DigitalSequence();
    var signal := Signal(level, [period], 0);
    assert Playable(signal);
    sequence.signals, sequence.data := [signal], [0];
    ghost var ss := sequence.Sequence();
    assert ss == [signal] && ss[1..] == [];
    assert Full(ss, 0, 0) == Wave(level, [period]) + [];
    assert Wave(level, [period]) == Hold(level, period) + [];
    var done;
    ghost var held;
    done, held, started := sequence.Transmit(patience);
  }

  lemma StartOfSequence(ss: seq<Signal>, level: bool)
    requires ss != [] && forall i :: 0 <= i < |ss| ==> Playable(ss[i])
    ensures Full(ss, 0, 0) == Wave(level, []) + Hold(level, 0) + Full(ss[0..], 0, 0)
    ensures ss[0..] == ss && Positive([])
  {
  }

  lemma LastFull(sent: seq<bool>, ss: seq<Signal>, remainder: int, tick: nat)
    ensures sent + Full(ss[|ss|..], remainder, tick) == sent
  {
  }

  /** The first signal of the rest takes the carried ticks and the correction tick together. */
  lemma NextSignal(sent: seq<bool>, level: bool, pending: nat, ss: seq<Signal>, remainder: int, tick: nat)
    requires ss != [] && (forall i :: 0 <= i < |ss| ==> Playable(ss[i])) && level == ss[0].startLevel
    ensures var (r, c) := Corrected(remainder + ss[0].remainder);
      sent + Hold(level, pending) + Full(ss, remainder, tick)
      == sent + Hold(level, pending + tick) + Wave(level, ss[0].periods) + Full(ss[1..], r, c)
  {
    hide Hold, Wave;
    var (r, c) := Corrected(remainder + ss[0].remainder);
    var ps := ss[0].periods;
    assert Playable(ss[0]);
    var rest := Full(ss[1..], r, c);
    TickedWave(level, ps, tick);
    HoldConcat(level, pending, tick);
    Regroup(sent, Hold(level, pending), Hold(level, tick), Wave(level, ps), rest);
    assert Full(ss, remainder, tick) == Wave(level, AddFirst(ps, tick)) + rest;
  }

  lemma Regroup(a: seq<bool>, b: seq<bool>, c: seq<bool>, d: seq<bool>, e: seq<bool>)
    ensures a + b + (c + d + e) == a + (b + c) + d + e
  {
  }

  lemma TickedWave(level: bool, ps: seq<nat>, tick: nat)
    requires ps != []
    ensures Wave(level, AddFirst(ps, tick)) == Hold(level, tick) + Wave(level, ps)
  {
    HoldConcat(level, tick, ps[0]);
    assert AddFirst(ps, tick)[1..] == ps[1..];
  }

  /** The counts of periods and merges, one signal on. */
  lemma CountSignal(ss: seq<Signal>, k: nat)
    requires k < |ss|
    ensures PeriodCount(ss[k..]) == |ss[k].periods| + PeriodCount(ss[k + 1..])
    ensures Merges(ss[k..]) ==
      (if k + 1 < |ss| && EndLevel(ss[k]) == ss[k + 1].startLevel then 1 else 0) + Merges(ss[k + 1..])
  {
    assert ss[k..][0] == ss[k] && ss[k..][1..] == ss[k + 1..];
    if k + 1 < |ss| { assert ss[k..][1] == ss[k + 1]; }
  }

  lemma LastSignal(level: bool, enqueued: seq<nat>, held: nat, ss: seq<Signal>, remainder: int, tick: nat)
    requires ss != []
    ensures Full(ss[|ss|..], remainder, tick) == [] && Merges(ss[|ss|..]) == 0 && PeriodCount(ss[|ss|..]) == 0
    ensures Wave(level, enqueued) + Hold(LevelAfter(level, |enqueued|), held) == Wave(level, enqueued + [held])
  {
    assert ss[|ss|..] == [];
    WavePush(level, enqueued, held);
  }

  /** The period at i joins what is carried. */
  lemma TakePeriod(sent: seq<bool>, level: bool, carry: nat, periods: seq<nat>, i: nat)
    requires i < |periods|
    ensures sent + Hold(level, carry) + Wave(level, periods[i..])
      == sent + Hold(level, periods[i] + carry) + Wave(!level, periods[i + 1..])
  {
    assert periods[i..][0] == periods[i] && periods[i..][1..] == periods[i + 1..];
    HoldConcat(level, carry, periods[i]);
    assert Wave(level, periods[i..]) == Hold(level, periods[i]) + Wave(!level, periods[i + 1..]);
  }

  lemma RestShort(w: seq<bool>, rest: seq<bool>, sent: seq<bool>, level: bool, n: nat, tail: seq<bool>)
    requires ShortRuns(w + rest) && w == sent + Hold(level, n) + tail
    ensures n < TIMER_MAX
  {
    hide ShortRuns;
    assert w + rest == sent + Hold(level, n) + (tail + rest);
    RunIsShort(sent, level, n, tail + rest);
  }

  lemma LastPeriod(s: Signal)
    requires s.periods != []
    ensures LevelAfter(s.startLevel, |s.periods| - 1) == EndLevel(s)
  {
  }

  lemma PeriodSent(sent: seq<bool>, level: bool, n: nat, tail: seq<bool>)
    ensures sent + Hold(level, n) + tail == (sent + Hold(level, n)) + Hold(!level, 0) + tail
  {
  }

  lemma NothingLeft(level: bool, periods: seq<nat>, i: nat)
    requires i == |periods|
    ensures Wave(level, periods[i..]) == []
  {
  }

  lemma LastRun(sent: seq<bool>, level: bool, n: nat, tail: seq<bool>)
    ensures tail == [] ==> sent + Hold(level, n) + tail == sent + Hold(level, n)
    ensures tail == [] ==> sent + Hold(level, n) + tail == (sent + Hold(level, n)) + Hold(!level, 0)
  {
  }
}
