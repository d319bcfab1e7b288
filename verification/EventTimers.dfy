/**
  The timers of an event loop.  Ticks are 32 bits wide and wrap; `now` is the same
  clock without the wrap, and `began` the unwrapped start time of a timer.
 */
module EventTimers {
  import opened MachineTypes
  import opened Waiting

  const TICKS := TWO_TO_32

  datatype Request = NoRequest | Start | Stop | Free

  datatype Flag = Event | StopFlag | TimerFlag | Pending

  /** Difference of two tick counts as C computes it. */
  function Elapsed(tick: uint32, start: uint32): uint32 {
    (tick - start) % TICKS
  }

  /** One or more whole intervals further. */
  predicate WholeSteps(from: nat, to: nat, interval: nat) {
    interval > 0 && from + interval <= to && (to - from) % interval == 0
  }

  /** None or more whole intervals further. */
  predicate InStep(from: nat, to: nat, interval: nat) {
    interval > 0 && from <= to && (to - from) % interval == 0
  }

  lemma OneMore(from: nat, to: nat, interval: nat)
    requires InStep(from, to, interval)
    ensures WholeSteps(from, to + interval, interval)
  {
    ModPlus(to - from, interval, interval);
  }

  lemma OneLess(from: nat, to: nat, interval: nat)
    requires WholeSteps(from, to, interval)
    ensures InStep(from + interval, to, interval)
  {
    ModPlus(to - from - interval, interval, interval);
  }

  lemma FurtherOn(from: nat, at: nat, to: nat, interval: nat)
    requires InStep(from, at, interval) && WholeSteps(at, to, interval)
    ensures InStep(from, to, interval)
  {
    ModPlus(at - from, to - at, interval);
  }

  lemma WholeIsStep(from: nat, to: nat, interval: nat)
    requires WholeSteps(from, to, interval)
    ensures InStep(from, to, interval)
  {
  }

  lemma NoStep(at: nat, interval: nat)
    requires interval > 0
    ensures InStep(at, at, interval)
  {
  }

  /** Multiples add up. */
  lemma ModPlus(a: nat, b: nat, m: nat)
    requires m > 0 && b % m == 0
    ensures (a + b) % m == a % m
  {
    var q, p := a / m, b / m;
    assert a + b == (q + p) * m + a % m;
    Remainder(a + b, m, q + p, a % m);
  }

  lemma Remainder(x: nat, m: nat, q: nat, rest: nat)
    requires rest < m && x == q * m + rest
    ensures x % m == rest
  {
    var d := x / m - q;
    assert d * m == rest - x % m;
  }

  lemma ElapsedIsAge(now: nat, began: nat)
    requires began <= now < began + TICKS
    ensures Elapsed(now % TICKS, began % TICKS) == now - began
  {
  }

  class Timer {
    var interval: uint32
    var startTime: uint32
    var nextInterval: uint32
    var request: Request
    var active: bool
    const periodic: bool
    /** The unwrapped start time; the model keeps it beside the 32-bit one. */
    var began: nat

    constructor (periodic: bool)
      ensures !active && request == NoRequest && this.periodic == periodic && interval == nextInterval == 0
    {
      this.periodic := periodic;
      interval, startTime, nextInterval := 0, 0, 0;
      request, active, began := NoRequest, false, 0;
    }

    /** The age of the timer is known to the 32-bit clock. */
    predicate Timed(now: nat)
      reads `startTime, `began, `interval
    {
      startTime == began % TICKS && began <= now < began + TICKS && (periodic ==> interval > 0)
    }

    function RemainingAt(tick: uint32): uint32
      reads `startTime, `interval
    {
      var elapsed := Elapsed(tick, startTime);
      if elapsed < interval then interval - elapsed else 0
    }

    ghost function Remaining(now: nat): nat
      reads `began, `interval
    {
      if began <= now then RemainingAfter(interval, now - began) else interval
    }

    /** The timer as a running clock. */
    ghost function ClockAt(now: nat): (c: Clock)
      reads `began, `interval
      ensures Waiting.Remaining(c) == this.Remaining(now)
    {
      Clock(interval, if began <= now then now - began else 0)
    }

    lemma RemainingIs(now: nat)
      requires Timed(now)
      ensures RemainingAt(now % TICKS) == Remaining(now)
      ensures Elapsed(now % TICKS, startTime) == now - began
    {
      ElapsedIsAge(now, began);
    }

    lemma RunsOut(start: nat, ticks: nat, now: nat)
      requires began <= start && ticks == Remaining(start) && start + ticks <= now
      ensures Remaining(now) == 0 && began + interval <= now
    {
    }

    /** A timer with the longest interval has, in the tick of its start, the remaining time that means forever. */
    lemma LongestIsForever(now: nat)
      requires Timed(now)
      ensures RemainingAt(now % TICKS) == WAIT_FOREVER <==> interval == WAIT_FOREVER && began == now
    {
      RemainingIs(now);
    }
  }

  class TimerLoop {
    var timerList: seq<Timer>
    var timerQueue: seq<Timer>
    /** The notification word of the loop's thread. */
    var flags: set<Flag>
    var now: nat
    /** Timers allocated and not freed. */
    var timers: set<Timer>

    // the loop's own periodic tick, when a callback is set
    var tickSet: bool
    var tickInterval: uint32
    var tickPrev: uint32
    /** The unwrapped value of tickPrev. */
    var tickBegan: nat
    /** How often the tick was set. */
    ghost var tickSets: nat

    function Tick(): uint32
      reads `now
    {
      now % TICKS
    }

    // ---------------------------------------------------------- invariants

    static ghost predicate Distinct(l: seq<Timer>) {
      forall i, j :: 0 <= i < j < |l| ==> l[i] != l[j]
    }

    /** Nondecreasing remaining time at the given moment. */
    static ghost predicate Sorted(l: seq<Timer>, at: nat)
      reads l`began, l`interval
    {
      forall i, j :: 0 <= i < j < |l| ==> l[i].Remaining(at) <= l[j].Remaining(at)
    }

    static predicate AllTimed(l: seq<Timer>, at: nat)
      reads l`startTime, l`began, l`interval
    {
      forall i :: 0 <= i < |l| ==> l[i].Timed(at)
    }

    predicate TickTimed(at: nat)
      reads `tickSet, `tickInterval, `tickPrev, `tickBegan
    {
      tickSet ==> tickInterval > 0 && tickPrev == tickBegan % TICKS && tickBegan <= at < tickBegan + TICKS
    }

    ghost predicate ListInv()
      reads `timerList, `timers, `now, timerList`startTime, timerList`began, timerList`interval
      reads `tickSet, `tickInterval, `tickPrev, `tickBegan
    {
      && TickTimed(now)
      && Distinct(timerList) && Sorted(timerList, now) && AllTimed(timerList, now)
      && Members(timerList) <= timers
    }

    static function Members(l: seq<Timer>): set<Timer> {
      set t | t in l
    }

    /** `active` is being in the timer list. */
    ghost predicate Activated()
      reads `timerList, `timers, timers`active
    {
      forall t :: t in timers ==> (t.active <==> t in Members(timerList))
    }

    /** A request is being in the queue, once. */
    ghost predicate Queued()
      reads `timerQueue, `timers, timers`request
    {
      && Distinct(timerQueue)
      && Members(timerQueue) <= timers
      && (forall t :: t in timers ==> (t.request != NoRequest <==> t in Members(timerQueue)))
    }

    /** A periodic timer is only ever asked to start with a positive interval. */
    ghost predicate Requests()
      reads `timers, timers`request, timers`nextInterval
    {
      forall t :: t in timers && t.request == Start && t.periodic ==> t.nextInterval > 0
    }

    ghost predicate Inv()
      reads `timerList, `timerQueue, `timers, `now, `tickSet, `tickInterval, `tickPrev, `tickBegan
      reads timerList`startTime, timerList`began, timerList`interval
      reads timers`active, timers`request, timers`nextInterval
    {
      ListInv() && Activated() && Queued() && Requests()
    }

    // ------------------------------------------------------------ scheduling

    /** The walk from the back of the list to the last timer that is due no later. */
    method FindPlace(timer: Timer) returns (p: nat)
      requires AllTimed(timerList, now) && timer.Timed(now)
      ensures p <= |timerList|
      ensures forall i :: p <= i < |timerList| ==> timer.Remaining(now) < timerList[i].Remaining(now)
      ensures p > 0 ==> timerList[p - 1].Remaining(now) <= timer.Remaining(now)
    {
      hide Timer.Remaining, Timer.RemainingAt, Timer.Timed, Elapsed;
      var remaining := timer.RemainingAt(Tick());
      timer.RemainingIs(now);
      p := |timerList|;
      while p > 0
        invariant p <= |timerList|
        invariant forall i :: p <= i < |timerList| ==> timer.Remaining(now) < timerList[i].Remaining(now)
      {
        timerList[p - 1].RemainingIs(now);
        if remaining >= timerList[p - 1].RemainingAt(Tick()) {
          break;
        }
        p := p - 1;
      }
    }

    /** furi_event_loop_schedule_timer. */
    method ScheduleTimer(timer: Timer) returns (p: nat)
      requires ListInv() && timer in timers && timer !in Members(timerList) && timer.Timed(now)
      modifies this`timerList
      ensures ListInv()
      ensures p <= |old(timerList)| && timerList == old(timerList)[..p] + [timer] + old(timerList)[p..]
      ensures p > 0 ==> timerList[p - 1].Remaining(now) <= timer.Remaining(now)
      ensures p < |old(timerList)| ==> timer.Remaining(now) < timerList[p + 1].Remaining(now)
      ensures Members(timerList) == old(Members(timerList)) + {timer}
    {
      hide Timer.Remaining, Timer.RemainingAt, Timer.Timed, Distinct, Sorted, AllTimed;
      p := FindPlace(timer);
      InsertSorted(timerList, p, timer, now);
      timerList := timerList[..p] + [timer] + timerList[p..];
    }

    static lemma InsertSorted(l: seq<Timer>, p: nat, timer: Timer, at: nat)
      requires p <= |l| && Distinct(l) && Sorted(l, at) && AllTimed(l, at) && timer !in l && timer.Timed(at)
      requires forall i :: p <= i < |l| ==> timer.Remaining(at) < l[i].Remaining(at)
      requires p > 0 ==> l[p - 1].Remaining(at) <= timer.Remaining(at)
      ensures var m := l[..p] + [timer] + l[p..];
        Distinct(m) && Sorted(m, at) && AllTimed(m, at) && Members(m) == Members(l) + {timer}
    {
      var m := l[..p] + [timer] + l[p..];
      forall i | 0 <= i < |m| ensures m[i].Timed(at) {
        if i > p { assert m[i] == l[i - 1]; }
      }
      forall i, j | 0 <= i < j < |m| ensures m[i] != m[j] && m[i].Remaining(at) <= m[j].Remaining(at) {
        if i < p && j > p { assert m[j] == l[j - 1]; }
        if i > p { assert m[i] == l[i - 1] && m[j] == l[j - 1]; }
        if i < p && j == p { assert l[i].Remaining(at) <= l[p - 1].Remaining(at); }
        if i == p && j > p { assert m[j] == l[j - 1]; }
      }
    }

    /** TimerList_unlink. */
    method Unlink(timer: Timer)
      requires ListInv() && timer in Members(timerList)
      modifies this`timerList
      ensures ListInv()
      ensures Members(timerList) == old(Members(timerList)) - {timer}
    {
      hide Timer.Remaining, Timer.Timed, Distinct, Sorted, AllTimed;
      var k :| 0 <= k < |timerList| && timerList[k] == timer;
      WithoutAt(timerList, k);
      StillSortedWithout(timerList, k, now);
      timerList := timerList[..k] + timerList[k + 1..];
    }

    static lemma StillSortedWithout(l: seq<Timer>, k: nat, at: nat)
      requires k < |l| && Sorted(l, at) && AllTimed(l, at)
      ensures Sorted(l[..k] + l[k + 1..], at) && AllTimed(l[..k] + l[k + 1..], at)
    {
      hide Timer.Remaining, Timer.Timed;
      var r := l[..k] + l[k + 1..];
      assert forall i :: 0 <= i < |r| ==> r[i] == if i < k then l[i] else l[i + 1];
    }

    /**
      Time moves on, by at least the given number of ticks; the proviso is that no listed timer, nor
      the loop's tick, grows as old as the clock is wide.
     */
    method TimePasses(least: nat, other: set<Timer>)
      requires ListInv() && AllTimed(timerList, now + least) && TickTimed(now + least)
      requires forall t :: t in other ==> t.Timed(now) && t.Timed(now + least)
      modifies this`now
      ensures now >= old(now) + least && ListInv() && (forall t :: t in other ==> t.Timed(now))
    {
      hide Timer.Remaining, Timer.Timed, Distinct, Sorted, Members, TickTimed, AllTimed;
      var d: nat :| d >= least && AllTimed(timerList, now + d) && TickTimed(now + d)
        && forall t :: t in other ==> t.Timed(now + d);
      StillSorted(timerList, now, now + d);
      now := now + d;
    }

    /** Time that user code takes. */
    method TimeGoesOn()
      requires Inv()
      modifies this`now
      ensures Inv() && now >= old(now)
    {
      hide Activated, Queued, Requests, Sorted, Distinct, Members;
      TimePasses(0, {});
    }

    static lemma StillSorted(l: seq<Timer>, at: nat, later: nat)
      requires Sorted(l, at) && AllTimed(l, at) && at <= later
      ensures Sorted(l, later)
    {
      forall i, j | 0 <= i < j < |l| ensures l[i].Remaining(later) <= l[j].Remaining(later) {
        assert l[i].Remaining(at) <= l[j].Remaining(at);
        assert l[i].Timed(at) && l[j].Timed(at);
      }
    }

    // -------------------------------------------------------------- requests

    constructor ()
      ensures Inv() && timers == {} && flags == {} && timerQueue == [] && !tickSet
    {
      timerList, timerQueue, flags, now, timers := [], [], {}, 0, {};
      tickSet, tickInterval, tickPrev, tickBegan := false, 0, 0, 0;
      tickSets := 0;
    }

    /** furi_event_loop_timer_alloc. */
    method Alloc(periodic: bool) returns (timer: Timer)
      requires Inv()
      modifies this`timers
      ensures Inv() && fresh(timer) && timers == old(timers) + {timer}
      ensures !timer.active && timer.request == NoRequest && timer.periodic == periodic
      ensures timer.interval == timer.nextInterval == 0
    {
      timer := new Timer(periodic);
      timers := timers + {timer};
    }

    /** The queue with the timer unlinked. */
    static function Without(q: seq<Timer>, timer: Timer): seq<Timer> {
      if q == [] then [] else if q[0] == timer then q[1..] else [q[0]] + Without(q[1..], timer)
    }

    static lemma {:induction false} WithoutIs(q: seq<Timer>, k: nat)
      requires Distinct(q) && k < |q|
      ensures Without(q, q[k]) == q[..k] + q[k + 1..]
    {
      if k > 0 {
        WithoutIs(q[1..], k - 1);
        assert q[..k] + q[k + 1..] == [q[0]] + (q[1..][..k - 1] + q[1..][k..]);
      }
    }

    static lemma WithoutAt(q: seq<Timer>, k: nat)
      requires Distinct(q) && k < |q|
      ensures Distinct(q[..k] + q[k + 1..])
      ensures Members(q[..k] + q[k + 1..]) == Members(q) - {q[k]}
    {
      var r := q[..k] + q[k + 1..];
      forall t | t in q && t != q[k] ensures t in r {
        var i :| 0 <= i < |q| && q[i] == t;
        if i < k { assert r[i] == t; } else { assert r[i - 1] == t; }
      }
    }

    static lemma WithLast(q: seq<Timer>, timer: Timer)
      requires Distinct(q) && timer !in q
      ensures Distinct(q + [timer])
      ensures Members(q + [timer]) == Members(q) + {timer}
    {
    }

    /** TimerQueue_unlink. */
    method UnlinkRequest(timer: Timer)
      requires Distinct(timerQueue) && timer in Members(timerQueue)
      modifies this`timerQueue
      ensures Distinct(timerQueue) && timerQueue == Without(old(timerQueue), timer)
      ensures Members(timerQueue) == old(Members(timerQueue)) - {timer}
    {
      var k :| 0 <= k < |timerQueue| && timerQueue[k] == timer;
      WithoutAt(timerQueue, k);
      WithoutIs(timerQueue, k);
      timerQueue := timerQueue[..k] + timerQueue[k + 1..];
    }

    /** TimerQueue_push_back. */
    method PushRequest(timer: Timer)
      requires Distinct(timerQueue) && timer !in Members(timerQueue)
      modifies this`timerQueue
      ensures Distinct(timerQueue)
      ensures timerQueue == old(timerQueue) + [timer]
      ensures Members(timerQueue) == old(Members(timerQueue)) + {timer}
    {
      WithLast(timerQueue, timer);
      timerQueue := timerQueue + [timer];
    }

    static lemma {:induction false} NotQueued(q: seq<Timer>, timer: Timer)
      ensures timer !in Members(q) ==> Without(q, timer) == q
    {
      if q != [] && timer !in Members(q) {
        assert q[0] in q && forall t :: t in q[1..] ==> t in q;
        NotQueued(q[1..], timer);
        assert Without(q, timer) == [q[0]] + q[1..];
      }
    }

    /** The timer leaves the queue if it is there and joins it at the back. */
    method MoveToBack(timer: Timer)
      requires Distinct(timerQueue) && (timer.request != NoRequest <==> timer in Members(timerQueue))
      modifies this`timerQueue
      ensures Distinct(timerQueue) && timerQueue == Without(old(timerQueue), timer) + [timer]
      ensures Members(timerQueue) == old(Members(timerQueue)) + {timer}
    {
      hide Distinct, Members, Without;
      NotQueued(timerQueue, timer);
      if timer.request != NoRequest {
        UnlinkRequest(timer);
      }
      PushRequest(timer);
    }

    /** furi_event_loop_timer_enqueue_request: the newest request replaces an older one. */
    method EnqueueRequest(timer: Timer, request: Request)
      requires Inv() && timer in timers && request != NoRequest
      requires timer.request != Free
      requires request == Start && timer.periodic ==> timer.nextInterval > 0
      modifies this`timerQueue, this`flags, timer`request
      ensures Inv() && TimerFlag in flags && flags == old(flags) + {TimerFlag}
      ensures timer.request == request
      ensures timerQueue == Without(old(timerQueue), timer) + [timer]
      ensures Members(timerQueue) == old(Members(timerQueue)) + {timer}
    {
      hide ListInv, Activated, Distinct, Members, Without;
      MoveToBack(timer);
      timer.request := request;
      flags := flags + {TimerFlag};
    }

    method StartTimer(timer: Timer, interval: uint32)
      requires Inv() && timer in timers && timer.request != Free && (timer.periodic ==> interval > 0)
      modifies this`timerQueue, this`flags, timer`request, timer`nextInterval
      ensures Inv() && flags == old(flags) + {TimerFlag}
      ensures timer.request == Start && timer.nextInterval == interval
      ensures timerQueue == Without(old(timerQueue), timer) + [timer]
    {
      timer.nextInterval := interval;
      EnqueueRequest(timer, Start);
    }

    method RestartTimer(timer: Timer)
      requires Inv() && timer in timers && timer.request != Free && (timer.periodic ==> timer.interval > 0)
      modifies this`timerQueue, this`flags, timer`request, timer`nextInterval
      ensures Inv() && flags == old(flags) + {TimerFlag}
      ensures timer.request == Start && timer.nextInterval == timer.interval
      ensures timerQueue == Without(old(timerQueue), timer) + [timer]
    {
      timer.nextInterval := timer.interval;
      EnqueueRequest(timer, Start);
    }

    method StopTimer(timer: Timer)
      requires Inv() && timer in timers && timer.request != Free
      modifies this`timerQueue, this`flags, timer`request
      ensures Inv() && flags == old(flags) + {TimerFlag} && timer.request == Stop
      ensures timerQueue == Without(old(timerQueue), timer) + [timer]
    {
      EnqueueRequest(timer, Stop);
    }

    method FreeTimer(timer: Timer)
      requires Inv() && timer in timers && timer.request != Free
      modifies this`timerQueue, this`flags, timer`request
      ensures Inv() && flags == old(flags) + {TimerFlag} && timer.request == Free
      ensures timerQueue == Without(old(timerQueue), timer) + [timer]
    {
      EnqueueRequest(timer, Free);
    }

    // ------------------------------------------------------------ processing

    /** furi_event_loop_get_timer_wait_time: the least remaining time of the listed timers. */
    method TimerWaitTime() returns (wait: uint32)
      requires Inv()
      ensures forall t :: t in Members(timerList) ==> wait <= t.Remaining(now)
      ensures timerList == [] ==> wait == WAIT_FOREVER
      ensures timerList != [] ==> exists t :: t in Members(timerList) && wait == t.Remaining(now)
    {
      wait := WAIT_FOREVER;
      if timerList != [] {
        timerList[0].RemainingIs(now);
        wait := timerList[0].RemainingAt(Tick());
        FrontFirst();
      }
    }

    /** TimerQueue_pop_front. */
    method PopRequest() returns (timer: Timer)
      requires Distinct(timerQueue) && timerQueue != []
      modifies this`timerQueue
      ensures timer == old(timerQueue)[0] && timerQueue == old(timerQueue)[1..] && Distinct(timerQueue)
      ensures timer in old(Members(timerQueue)) && Members(timerQueue) == old(Members(timerQueue)) - {timer}
    {
      timer := timerQueue[0];
      WithoutAt(timerQueue, 0);
      assert timerQueue[..0] + timerQueue[1..] == timerQueue[1..];
      timerQueue := timerQueue[1..];
    }

    /** The head of a round: the timer leaves the queue, and the list if it is there. */
    method TakeRequest() returns (timer: Timer)
      requires ListInv() && Activated() && Distinct(timerQueue) && timerQueue != []
      requires Members(timerQueue) <= timers
      modifies this`timerQueue, this`timerList
      ensures ListInv() && timer == old(timerQueue)[0]
      ensures timerQueue == old(timerQueue)[1..] && Distinct(timerQueue)
      ensures timer in old(Members(timerQueue)) && Members(timerQueue) == old(Members(timerQueue)) - {timer}
      ensures Members(timerList) == old(Members(timerList)) - {timer}
    {
      hide Distinct, ListInv, Members;
      timer := PopRequest();
      if timer.active {
        Unlink(timer);
      }
    }

    /** The start branch of the queue loop. */
    method Activate(timer: Timer)
      requires ListInv() && timer in timers && timer !in Members(timerList)
      requires timer.periodic ==> timer.nextInterval > 0
      modifies this`timerList, this`now, timer`active, timer`interval, timer`began, timer`startTime, timer`request
      ensures ListInv() && timer.active && timer.request == NoRequest && now >= old(now)
      ensures timer.interval == timer.nextInterval && old(now) <= timer.began <= now
      ensures Members(timerList) == old(Members(timerList)) + {timer}
    {
      hide Distinct, Members;
      timer.active := true;
      timer.interval := timer.nextInterval;
      timer.began := now;
      timer.startTime := Tick();
      timer.request := NoRequest;
      Untouched(timer);
      TimePasses(0, {timer});
      var _ := ScheduleTimer(timer);
    }

    /** A timer outside the list has no part in the list's order. */
    twostate lemma Untouched(timer: Timer)
      requires old(ListInv()) && timer !in Members(timerList) && timerList == old(timerList) && timers == old(timers)
      requires now == old(now)
      requires tickSet == old(tickSet) && tickInterval == old(tickInterval)
      requires tickPrev == old(tickPrev) && tickBegan == old(tickBegan)
      requires forall t :: t in timerList && t != timer ==>
        t.began == old(t.began) && t.interval == old(t.interval) && t.startTime == old(t.startTime)
      ensures ListInv()
    {
    }

    /** One round of the queue: the request of the first timer takes effect. */
    method ProcessRequest()
      requires Inv() && timerQueue != []
      modifies this`timerList, this`timerQueue, this`timers, this`now, timers
      ensures Inv() && timerQueue == old(timerQueue)[1..] && now >= old(now)
      ensures var t, r := old(timerQueue[0]), old(timerQueue[0].request);
        && (r == Free ==> timers == old(timers) - {t})
        && (r != Free ==> timers == old(timers) && t.request == NoRequest)
        && (r == Start ==> t.active && t.interval == old(t.nextInterval) && old(now) <= t.began <= now)
        && (r == Stop ==> !t.active)
      ensures forall t :: t in old(timers) && t != old(timerQueue[0]) ==>
        t.request == old(t.request) && t.active == old(t.active) && t.interval == old(t.interval)
        && t.began == old(t.began) && t.nextInterval == old(t.nextInterval)
    {
      hide Distinct, ListInv, Members;
      var timer := TakeRequest();
      if timer.request == Start {
        Activate(timer);
      } else if timer.request == Stop {
        timer.active := false;
        timer.request := NoRequest;
      } else {
        Drop(timer);
      }
    }

    /** The round for a start, when it takes no time. */
    method ProcessStartAtOnce() returns (timer: Timer)
      requires Inv() && timerQueue != [] && timerQueue[0].request == Start
      modifies this`timerList, this`timerQueue, timers
      ensures Inv() && timer == old(timerQueue[0]) && timer in timers && timer.active
      ensures timer.interval == old(timerQueue[0].nextInterval) && timer.began == now
      ensures Members(timerList) == old(Members(timerList)) + {timer}
    {
      hide Distinct, ListInv, Members;
      timer := TakeRequest();
      ActivateAtOnce(timer);
    }

    method ActivateAtOnce(timer: Timer)
      requires ListInv() && timer in timers && timer !in Members(timerList)
      requires timer.periodic ==> timer.nextInterval > 0
      modifies this`timerList, timer`active, timer`interval, timer`began, timer`startTime, timer`request
      ensures ListInv() && timer.active && timer.request == NoRequest
      ensures timer.interval == timer.nextInterval && timer.began == now
      ensures Members(timerList) == old(Members(timerList)) + {timer}
    {
      hide Distinct, Members;
      timer.active := true;
      timer.interval := timer.nextInterval;
      timer.began := now;
      timer.startTime := Tick();
      timer.request := NoRequest;
      Untouched(timer);
      var _ := ScheduleTimer(timer);
    }

    /** The timer's memory is freed. */
    method Drop(timer: Timer)
      requires ListInv() && timer !in Members(timerList)
      modifies this`timers
      ensures ListInv() && timers == old(timers) - {timer}
    {
      timers := timers - {timer};
    }

    /** The request a timer had has been carried out; a timer without one is as it was. */
    twostate predicate Applied(t: Timer)
      reads this, t
    {
      match old(t.request)
      case NoRequest =>
        t in timers && t.request == NoRequest && t.active == old(t.active)
        && t.interval == old(t.interval) && t.began == old(t.began)
      case Start =>
        t in timers && t.request == NoRequest && t.active && t.interval == old(t.nextInterval)
        && old(now) <= t.began <= now
      case Stop =>
        t in timers && t.request == NoRequest && !t.active
      case Free =>
        t !in timers
    }

    twostate predicate Unprocessed(t: Timer)
      reads this, t
    {
      t in timers && t.request == old(t.request) && t.active == old(t.active) && t.interval == old(t.interval)
      && t.began == old(t.began) && t.nextInterval == old(t.nextInterval)
    }

    /** furi_event_loop_process_timer_queue: afterwards every queued request has been carried out. */
    method ProcessTimerQueue()
      requires Inv()
      modifies this`timerList, this`timerQueue, this`timers, this`now, timers
      ensures Inv() && timerQueue == [] && now >= old(now) && timers <= old(timers)
      ensures forall t :: t in old(timers) ==> Applied(t)
    {
      hide ListInv, Activated, Queued, Requests, Members;
      ghost var k := 0;
      QueueHolds();
      NoMembers();
      while timerQueue != []
        invariant 0 <= k <= |old(timerQueue)| && timerQueue == old(timerQueue)[k..]
        invariant Inv() && now >= old(now) && timers <= old(timers)
        invariant forall t :: t in old(timers) && t in Members(timerQueue) ==> Unprocessed(t)
        invariant forall t :: t in old(timers) && t !in Members(timerQueue) ==> Applied(t)
        decreases |timerQueue|
      {
        ghost var timer := timerQueue[0];
        QueueHead();
        ProcessRequest();
        k := k + 1;
      }
    }

    /** At the start nobody without a request is in the queue. */
    lemma QueueHolds()
      requires Queued()
      ensures forall t :: t in timers && t !in Members(timerQueue) ==> t.request == NoRequest
    {
    }

    static lemma NoMembers()
      ensures Members([]) == {}
    {
    }

    lemma QueueHead()
      requires Queued() && timerQueue != []
      ensures timerQueue[0] in Members(timerQueue) && timerQueue[0].request != NoRequest
      ensures Members(timerQueue) <= timers
      ensures Members(timerQueue[1..]) == Members(timerQueue) - {timerQueue[0]}
    {
      WithoutAt(timerQueue, 0);
      assert timerQueue[..0] + timerQueue[1..] == timerQueue[1..];
    }

    // -------------------------------------------------------------- expiry

    /** Whole intervals moved, and the moment of the division inside the new interval. */
    static lemma WholeIntervals(began: nat, interval: nat, at: nat, start: uint32)
      requires 0 < interval && began + interval <= at < began + TICKS && start == began % TICKS
      ensures var n := (at - began) / interval;
        && n >= 1 && interval * n <= at - began < TICKS
        && began + interval * n <= at < began + interval * n + interval
        && (start + interval * n) % TICKS == (began + interval * n) % TICKS
    {
      var age := at - began;
      var n := age / interval;
      assert age == n * interval + age % interval;
      if n <= 0 { Scaled(n, interval); }
      assert (start + interval * n) % TICKS == (began + interval * n) % TICKS by {
        ModAdd(began, interval * n);
      }
    }

    static lemma Scaled(n: int, m: nat)
      requires n <= 0
      ensures n * m <= 0
    {
    }

    static lemma ModAdd(a: nat, b: nat)
      ensures (a % TICKS + b) % TICKS == (a + b) % TICKS
    {
    }

    /** `start_time += interval * num_events`, by the tick read for the division. */
    method MoveStart(timer: Timer)
      requires timer.Timed(now) && 0 < timer.interval && timer.began + timer.interval <= now
      modifies timer`startTime, timer`began
      ensures timer.Timed(now)
      ensures WholeSteps(old(timer.began), timer.began, timer.interval)
      ensures now < timer.began + timer.interval
    {
      timer.RemainingIs(now);
      var elapsed := Elapsed(Tick(), timer.startTime);
      var numEvents := elapsed / timer.interval;
      WholeIntervals(timer.began, timer.interval, now, timer.startTime);
      Multiple(timer.interval, numEvents);
      Gap(timer.interval, numEvents);
      timer.startTime := (timer.startTime + timer.interval * numEvents) % TICKS;
      timer.began := timer.began + timer.interval * numEvents;
    }

    /** The periodic branch of the expiry: no drift, and one firing for any number of missed intervals. */
    method Reschedule(timer: Timer) returns (ghost at: nat)
      requires ListInv() && timer in timers && timer !in Members(timerList) && timer.Timed(now)
      requires 0 < timer.interval && timer.began + timer.interval <= now
      modifies this`timerList, this`now, timer`startTime, timer`began
      ensures ListInv() && old(now) <= at <= now
      ensures WholeSteps(old(timer.began), timer.began, timer.interval)
      ensures timer.began <= at < timer.began + timer.interval
      ensures Members(timerList) == old(Members(timerList)) + {timer}
    {
      hide Distinct, Members, Timer.Timed, WholeSteps;
      TimePasses(0, {timer});
      at := now;
      label L:
      TimedBegan(timer);
      MoveStart(timer);
      TimedBegan(timer);
      Untouched@L(timer);
      TimePasses(0, {timer});
      var _ := ScheduleTimer(timer);
    }

    lemma TimedBegan(timer: Timer)
      requires timer.Timed(now)
      ensures timer.began <= now
    {
    }

    static lemma Multiple(m: nat, n: nat)
      requires m > 0
      ensures m * n % m == 0
    {
      var q := m * n / m;
      assert m * n == q * m + m * n % m;
      if q < n { Gap(m, n - q); }
      if q > n { Gap(m, q - n); }
    }

    static lemma Gap(m: nat, d: nat)
      requires d >= 1
      ensures m * d >= m
    {
    }

    /** furi_event_loop_timer_is_expired. */
    method IsExpired(timer: Timer) returns (expired: bool)
      requires timer.Timed(now)
      ensures expired <==> timer.began + timer.interval <= now
      ensures expired <==> timer.Remaining(now) == 0
    {
      timer.RemainingIs(now);
      expired := Elapsed(Tick(), timer.startTime) >= timer.interval;
    }

    /** furi_event_loop_process_expired_timers, up to the callback of the timer it returns. */
    method ProcessExpiredTimers() returns (fired: Timer?, ghost at: nat)
      requires Inv()
      modifies this`timerList, this`now, timers`active, timers`startTime, timers`began
      ensures Inv() && old(now) <= at <= now
      ensures fired == null ==>
        && timerList == old(timerList) && now == old(now)
        && (forall t :: t in timers ==> t.active == old(t.active) && t.began == old(t.began))
        && (forall t :: t in timers && t.active ==> t.Remaining(now) > 0)
      ensures fired != null ==>
        && fired in timers && old(fired.active) && old(fired.began) + fired.interval <= old(now)
        && (forall t :: t in old(Members(timerList)) ==> old(fired.Remaining(now)) <= old(t.Remaining(now)))
        && (forall t :: t in timers && t != fired ==> t.active == old(t.active) && t.began == old(t.began))
        && (fired.active <==> fired.periodic)
        && (fired.periodic ==>
              && WholeSteps(old(fired.began), fired.began, fired.interval)
              && fired.began <= at < fired.began + fired.interval)
    {
      hide ListInv, Activated, Queued, Requests, Members, WholeSteps, Timer.Remaining, Timer.Timed;
      fired, at := null, now;
      NoneDue();
      if timerList == [] {
        return;
      }
      var timer := timerList[0];
      FrontFirst();
      var expired := IsExpired(timer);
      if !expired {
        return;
      }
      at := Expire(timer);
      fired := timer;
    }

    /** When the front is not due, nothing is. */
    lemma NoneDue()
      requires ListInv() && Activated()
      ensures timerList == [] || timerList[0].Remaining(now) > 0 ==>
        forall t :: t in timers && t.active ==> t.Remaining(now) > 0
      ensures timerList != [] ==> timerList[0] in timers && timerList[0].active
    {
      if timerList != [] {
        FrontFirst();
      }
    }

    /** Unlinking an expired timer, and what becomes of it. */
    method Expire(timer: Timer) returns (ghost at: nat)
      requires ListInv() && Activated() && timer in timers && timer in Members(timerList)
      requires timer.Timed(now) && timer.began + timer.interval <= now
      modifies this`timerList, this`now, timer`active, timer`startTime, timer`began
      ensures ListInv() && Activated() && old(now) <= at <= now && (timer.active <==> timer.periodic)
      ensures timer.periodic ==>
        && WholeSteps(old(timer.began), timer.began, timer.interval)
        && timer.began <= at < timer.began + timer.interval
    {
      hide ListInv, Members, WholeSteps, Timer.Remaining;
      at := now;
      Unlink(timer);
      if timer.periodic {
        at := Reschedule(timer);
      } else {
        timer.active := false;
      }
    }

    /** The front of the list is due first. */
    lemma FrontFirst()
      requires ListInv() && timerList != []
      ensures timerList[0] in Members(timerList) && timerList[0].Timed(now)
      ensures forall t :: t in Members(timerList) ==> timerList[0].Remaining(now) <= t.Remaining(now)
    {
      assert AllTimed(timerList, now);
      forall t | t in Members(timerList) ensures timerList[0].Remaining(now) <= t.Remaining(now) {
        var i :| 0 <= i < |timerList| && timerList[i] == t;
      }
    }

    // ------------------------------------------------------------------ tick

    /** furi_event_loop_tick_set; a callback needs a positive interval. */
    method SetTick(interval: uint32, callback: bool)
      requires Inv() && (callback ==> interval > 0)
      modifies this`tickSet, this`tickInterval, this`tickPrev, this`tickBegan, this`tickSets
      ensures Inv() && tickSet == callback && tickInterval == interval && tickBegan == now
      ensures tickSets == old(tickSets) + 1
    {
      tickSets := tickSets + 1;
      tickSet, tickInterval, tickPrev, tickBegan := callback, interval, Tick(), now;
    }

    /** furi_event_loop_init_tick. */
    method InitTick()
      requires Inv()
      modifies this`tickPrev, this`tickBegan
      ensures Inv() && tickBegan == if tickSet then now else old(tickBegan)
    {
      if tickSet {
        tickPrev, tickBegan := Tick(), now;
      }
    }

    method TickWaitTime() returns (wait: uint32)
      requires Inv()
      ensures tickSet ==> wait == RemainingAfter(tickInterval, now - tickBegan)
      ensures !tickSet ==> wait == WAIT_FOREVER
    {
      wait := WAIT_FOREVER;
      if tickSet {
        ElapsedIsAge(now, tickBegan);
        var elapsed := Elapsed(Tick(), tickPrev);
        wait := if elapsed < tickInterval then tickInterval - elapsed else 0;
      }
    }

    /** furi_event_loop_process_tick: one interval on, so the phase of the tick never changes. */
    method ProcessTick() returns (fired: bool)
      requires Inv()
      modifies this`tickPrev, this`tickBegan
      ensures Inv()
      ensures fired <==> tickSet && old(tickBegan) + tickInterval <= now
      ensures tickSet ==> tickBegan == old(tickBegan) + if fired then tickInterval else 0
    {
      fired := false;
      if tickSet {
        ElapsedIsAge(now, tickBegan);
        if Elapsed(Tick(), tickPrev) >= tickInterval {
          ModAdd(tickBegan, tickInterval);
          tickPrev := (tickPrev + tickInterval) % TICKS;
          tickBegan := tickBegan + tickInterval;
          fired := true;
        }
      }
    }
  }
}
