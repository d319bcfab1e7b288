/**
  How long a loop with running timers may sleep.  A clock is a timer or the loop's tick
  while it runs: its interval and the ticks that have passed since its start.
 */
module Waiting {
  import opened MachineTypes

  /** FuriWaitForever; the kernel takes it for a wait without limit. */
  const WAIT_FOREVER: uint32 := 0xFFFF_FFFF

  datatype Clock = Clock(interval: uint32, age: nat)

  function RemainingAfter(interval: nat, age: nat): nat {
    if age < interval then interval - age else 0
  }

  function Remaining(c: Clock): (r: uint32)
    ensures r <= c.interval
  {
    RemainingAfter(c.interval, c.age)
  }

  /** The least remaining time, and WAIT_FOREVER when nothing runs. */
  function Sleep(clocks: seq<Clock>): uint32 {
    if clocks == [] then WAIT_FOREVER else
    var rest := Sleep(clocks[1..]);
    if Remaining(clocks[0]) < rest then Remaining(clocks[0]) else rest
  }

  lemma {:induction false} SleepIsLeast(clocks: seq<Clock>)
    ensures forall c :: c in clocks ==> Sleep(clocks) <= Remaining(c)
    ensures Sleep(clocks) != WAIT_FOREVER ==> exists c :: c in clocks && Sleep(clocks) == Remaining(c)
  {
    if clocks != [] {
      SleepIsLeast(clocks[1..]);
      assert forall c :: c in clocks ==> c == clocks[0] || c in clocks[1..];
      if Sleep(clocks) == Remaining(clocks[0]) {
        assert clocks[0] in clocks;
      } else if Sleep(clocks) != WAIT_FOREVER {
        var c :| c in clocks[1..] && Sleep(clocks[1..]) == Remaining(c);
        assert c in clocks;
      }
    }
  }

  /** A bound on all remaining times that one of them attains, or WAIT_FOREVER when none is below it, is the sleep. */
  lemma SleepIs(clocks: seq<Clock>, ticks: uint32)
    requires forall c :: c in clocks ==> ticks <= Remaining(c)
    requires ticks == WAIT_FOREVER || exists c :: c in clocks && ticks == Remaining(c)
    ensures ticks == Sleep(clocks)
  {
    SleepIsLeast(clocks);
  }

  /** The wait has no limit exactly when every clock has the longest interval and started in this very tick. */
  lemma ForeverIff(clocks: seq<Clock>)
    ensures Sleep(clocks) == WAIT_FOREVER <==> forall c :: c in clocks ==> c == Clock(WAIT_FOREVER, 0)
  {
    SleepIsLeast(clocks);
  }

  /** The loop wakes by itself no later than the clock is due. */
  predicate Bounded(ticks: uint32, c: Clock) {
    ticks != WAIT_FOREVER && ticks <= Remaining(c)
  }

  predicate Wakes(clocks: seq<Clock>) {
    forall c :: c in clocks ==> Bounded(Sleep(clocks), c)
  }

  /** For one state: the sleep is bounded for every clock unless all of them are at the full 2^32 - 1 ticks. */
  lemma WakesIff(clocks: seq<Clock>)
    ensures Wakes(clocks) <==> clocks == [] || exists c :: c in clocks && c != Clock(WAIT_FOREVER, 0)
  {
    SleepIsLeast(clocks);
    ForeverIff(clocks);
    if clocks != [] {
      assert clocks[0] in clocks;
    }
  }

  predicate DrawnFrom(clocks: seq<Clock>, intervals: set<uint32>) {
    forall c :: c in clocks ==> c.interval in intervals
  }

  /**
    The sleep is bounded for every running clock in every state with the given intervals exactly
    when all of them are below 2^32 - 1.
   */
  lemma AlwaysWakesIff(intervals: set<uint32>)
    ensures (forall clocks :: DrawnFrom(clocks, intervals) ==> Wakes(clocks)) <==> WAIT_FOREVER !in intervals
  {
    if WAIT_FOREVER !in intervals {
      forall clocks | DrawnFrom(clocks, intervals) ensures Wakes(clocks) {
        WakesIff(clocks);
        if clocks != [] {
          assert clocks[0] in clocks;
        }
      }
    } else {
      LongestSleepsForever();
      assert DrawnFrom([Clock(WAIT_FOREVER, 0)], intervals);
    }
  }

  /** One timer with the longest interval, in the tick it was started: the loop waits without limit. */
  lemma LongestSleepsForever()
    ensures Sleep([Clock(WAIT_FOREVER, 0)]) == WAIT_FOREVER && !Wakes([Clock(WAIT_FOREVER, 0)])
  {
    ForeverIff([Clock(WAIT_FOREVER, 0)]);
    WakesIff([Clock(WAIT_FOREVER, 0)]);
  }
}
