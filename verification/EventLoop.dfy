/**
  The loop around the timers: one round of furi_event_loop_run at a time.  User code
  run by the loop is a script of calls to the loop's interface.
 */
module EventLoops {
  import opened MachineTypes
  import opened Waiting
  import opened EventTimers
  import opened UserCode

  /** What the user callbacks of one round would call. */
  datatype Round = Round(onEvent: Script, onTimer: Script, onTick: Script)

  /** Bits given back. */
  function Restored(v: Desk, f: set<Flag>): Desk {
    v.(flags := v.flags + f)
  }

  /**
    The callbacks a round ran and the calls they made: none for a stop or for timer requests, the
    queue's callback for an event, the pended ones, or else that of the timer or of the tick, which
    has moved by then.
   */
  predicate Served(v: Desk, w: Desk, round: Round, taken: set<Flag>, timer: bool, scripts: seq<Script>,
                   logs: seq<Log>)
  {
    if StopFlag in taken then logs == [] && w == v
    else if Flag.Event in taken then
      |logs| == 1 && Follows(v, round.onEvent, logs[0]) && w == Restored(Effects(v, logs[0]), taken - {Flag.Event})
    else if TimerFlag in taken then
      logs == [] && w.(wishes := map[], queue := []) == Restored(v, taken - {TimerFlag}).(wishes := map[], queue := [])
    else if Pending in taken then AllFollow(v, scripts, logs) && w == Effects(v, Flat(logs))
    else
      var u := if timer then v else v.(tickBegan := v.tickBegan + v.tickInterval);
      |logs| == 1 && Follows(u, if timer then round.onTimer else round.onTick, logs[0]) && w == Effects(u, logs[0])
  }

  /**
    What one round did: the bits it took, the timers whose start it carried out, the timer it fired
    with the start and the end of the interval that was over, whether it ran the tick, with the end of
    that interval and its length, whether user code set the tick, the moment it looked at the time, the
    logs of the user callbacks it ran, the pended ones among them, and the desk before and after them.
   */
  datatype Outcome = Outcome(
    taken: set<Flag>, started: set<Timer>,
    fired: Timer?, began: nat, due: nat,
    ticked: bool, tickDue: nat, tickInterval: nat, tickReset: bool,
    checked: nat, logs: seq<Log>, scripts: seq<Script>, before: Desk, after: Desk)

  predicate RoundServed(round: Round, o: Outcome) {
    Served(o.before, o.after, round, o.taken, o.fired != null, o.scripts, o.logs)
  }

  /** What a round pended, and whether its callbacks stopped the loop. */
  lemma ServedPends(round: Round, o: Outcome)
    requires RoundServed(round, o) && StopFlag !in o.before.flags
    ensures o.after.pended == o.before.pended + Pended(Flat(o.logs))
    ensures StopFlag in o.after.flags <==> StopsLoop(Flat(o.logs))
  {
    hide Follows, Effects, AllFollow, StopsLoop, Flat, Pended;
    var v, logs := o.before, o.logs;
    var flags := StopFlag in o.taken || Flag.Event in o.taken || TimerFlag in o.taken || Pending in o.taken;
    var u := if flags || o.fired != null then v else v.(tickBegan := v.tickBegan + v.tickInterval);
    PendsAndStops(u, Flat(logs));
    NoLogs();
    if |logs| == 1 {
      assert logs == [logs[0]];
      FlatOne(logs[0]);
    }
  }

  /** Every round served its callbacks, and each began with the desk the one before left, but for the bits taken. */
  ghost predicate Linked(rounds: seq<Round>, log: seq<Outcome>, start: Desk) {
    && |log| <= |rounds|
    && (forall i :: 0 <= i < |log| ==> RoundServed(rounds[i], log[i]))
    && (log != [] ==> log[0].before == start.(flags := {}))
    && (forall i :: 0 < i < |log| ==> log[i].before == log[i - 1].after.(flags := {}))
  }

  lemma LinkedPush(rounds: seq<Round>, log: seq<Outcome>, start: Desk, o: Outcome)
    requires Linked(rounds, log, start) && |log| < |rounds| && RoundServed(rounds[|log|], o)
    requires o.before == (if log == [] then start else log[|log| - 1].after).(flags := {})
    ensures Linked(rounds, log + [o], start)
  {
    hide RoundServed;
    var l := log + [o];
    forall i | 0 <= i < |l| ensures RoundServed(rounds[i], l[i]) {
      if i < |log| { assert l[i] == log[i]; }
    }
    forall i | 0 < i < |l| ensures l[i].before == l[i - 1].after.(flags := {}) {
      assert l[i - 1] == log[i - 1];
    }
  }

  lemma NoLogs()
    ensures Flat([]) == [] && Pended([]) == [] && !StopsLoop([])
  {
  }

  /** The callbacks pended in all rounds, in order. */
  ghost function PendedAll(log: seq<Outcome>): seq<Script> {
    if log == [] then [] else PendedAll(log[..|log| - 1]) + Pended(Flat(log[|log| - 1].logs))
  }

  lemma PendedPush(log: seq<Outcome>, o: Outcome)
    ensures PendedAll(log + [o]) == PendedAll(log) + Pended(Flat(o.logs))
  {
    assert (log + [o])[..|log|] == log;
  }

  datatype LoopState = Stopped | Idle | Processing

  function ScriptWeight(s: Script): nat
    decreases s
  {
    if s == [] then 1 else CallWeight(s[0]) + ScriptWeight(s[1..])
  }

  function CallWeight(c: Call): nat
    decreases c
  {
    if c.PendCall? then 1 + ScriptWeight(c.callback) else 1
  }

  function QueueWeight(q: seq<Script>): nat {
    if q == [] then 0 else ScriptWeight(q[0]) + QueueWeight(q[1..])
  }

  lemma {:induction false} DropLast(q: seq<Script>, s: Script)
    ensures QueueWeight(q + [s]) == QueueWeight(q) + ScriptWeight(s)
    decreases |q|
  {
    if q == [] {
      assert ([] + [s])[1..] == [];
    } else {
      assert (q + [s])[1..] == q[1..] + [s];
      DropLast(q[1..], s);
    }
  }

  lemma CallsWeigh(c: Call)
    ensures CallWeight(c) > 0
    ensures c.PendCall? ==> CallWeight(c) == 1 + ScriptWeight(c.callback)
  {
  }

  lemma AddFront(q: seq<Script>, s: Script)
    ensures QueueWeight([s] + q) == ScriptWeight(s) + QueueWeight(q)
    ensures EndsWith([s] + q, q)
  {
    assert ([s] + q)[1..] == q;
  }

  function Reverse(q: seq<Script>): seq<Script> {
    if q == [] then [] else Reverse(q[1..]) + [q[0]]
  }

  lemma {:induction false} ReverseLast(q: seq<Script>, s: Script)
    ensures Reverse(q + [s]) == [s] + Reverse(q)
    decreases |q|
  {
    if q == [] {
      assert ([] + [s])[1..] == [];
    } else {
      assert (q + [s])[1..] == q[1..] + [s];
      ReverseLast(q[1..], s);
    }
  }

  predicate EndsWith(q: seq<Script>, r: seq<Script>) {
    |r| <= |q| && q[|q| - |r|..] == r
  }

  lemma EndsWithSelf(q: seq<Script>)
    ensures EndsWith(q, q)
  {
  }

  lemma EndsWithTrans(p: seq<Script>, q: seq<Script>, r: seq<Script>)
    requires EndsWith(p, q) && EndsWith(q, r)
    ensures EndsWith(p, r)
  {
    assert p[|p| - |r|..] == q[|q| - |r|..];
  }

  class EventLoop {
    const tl: TimerLoop
    var state: LoopState
    /** Newest in front, oldest at the back. */
    var pendingQueue: seq<Script>
    ghost var pended: seq<Script>
    ghost var ran: seq<Script>

    ghost predicate Inv()
      reads this`pendingQueue, this`pended, this`ran, tl, tl.timers, tl.timerList
    {
      tl.Inv() && pended == ran + Reverse(pendingQueue)
    }

    /** Queued work is announced, by the notification word or by flags the loop has in hand. */
    ghost predicate Announced(inHand: set<Flag>)
      reads this`pendingQueue, tl`timerQueue, tl`flags
    {
      && (tl.timerQueue != [] ==> TimerFlag in tl.flags + inHand)
      && (pendingQueue != [] ==> Pending in tl.flags + inHand)
    }

    constructor ()
      ensures Inv() && Announced({}) && state == Stopped && fresh(tl)
      ensures tl.timers == {} && tl.timerQueue == [] && !tl.tickSet
    {
      tl := new TimerLoop();
      state, pendingQueue, pended, ran := Stopped, [], [], [];
    }

    /** furi_event_loop_pend_callback. */
    method Pend(callback: Script)
      requires Inv()
      modifies this`pendingQueue, this`pended, tl`flags
      ensures Inv() && tl.flags == old(tl.flags) + {Pending}
      ensures pendingQueue == [callback] + old(pendingQueue) && pended == old(pended) + [callback]
    {
      pendingQueue := [callback] + pendingQueue;
      pended := pended + [callback];
      tl.flags := tl.flags + {Pending};
      assert pendingQueue[1..] == old(pendingQueue);
    }

    function Wishes(): (m: map<Timer, Wish>)
      reads tl`timers, tl.timers`request, tl.timers`interval, tl.timers`nextInterval
      ensures m.Keys == tl.timers
    {
      map t | t in tl.timers :: Wish(t.request, t.interval, t.nextInterval)
    }

    /** All that user code can change, but for the time. */
    ghost function OnDesk(): Desk
      reads this`pended, tl`timers, tl`timerQueue, tl`flags, tl`tickSets, tl`tickSet, tl`tickInterval, tl`tickBegan
      reads tl.timers`request, tl.timers`interval, tl.timers`nextInterval
    {
      Desk(Wishes(), tl.timerQueue, tl.flags, pended, tl.tickSets, tl.tickSet, tl.tickInterval, tl.tickBegan)
    }

    /** What every piece of user code keeps: it only adds, and what it queues is announced. */
    twostate predicate OnlyAdds()
      reads this, tl
    {
      && old(tl.flags) <= tl.flags && ran == old(ran) && old(pended) <= pended
      && (tl.timerQueue != old(tl.timerQueue) ==> TimerFlag in tl.flags)
      && (pendingQueue != old(pendingQueue) ==> Pending in tl.flags)
      && old(tl.timers) <= tl.timers && fresh(tl.timers - old(tl.timers))
      && EndsWith(pendingQueue, old(pendingQueue))
      && old(tl.now) <= tl.now
    }

    /** The tick is as it was unless user code has set it. */
    twostate predicate TickKept()
      reads tl
    {
      && old(tl.tickSets) <= tl.tickSets
      && (tl.tickSets == old(tl.tickSets) ==>
            && tl.tickSet == old(tl.tickSet) && tl.tickInterval == old(tl.tickInterval)
            && tl.tickBegan == old(tl.tickBegan))
    }

    /** A call on a timer. */
    method AskTimer(c: Call, ghost d: Deed)
      requires Inv() && OnTimer(c) && !Refused(Wishes(), c) && c == d.call
      modifies tl`timerQueue, tl`flags, c.timer`request, c.timer`nextInterval
      ensures Inv() && tl.flags == old(tl.flags) + {TimerFlag}
      ensures OnDesk() == Effect(old(OnDesk()), d)
    {
      hide TimerLoop.Inv, TimerLoop.Without;
      match c
      case StartCall(t, interval) =>
        tl.StartTimer(t, interval);
      case RestartCall(t) =>
        tl.RestartTimer(t);
      case StopCall(t) =>
        tl.StopTimer(t);
      case FreeCall(t) =>
        tl.FreeTimer(t);
      assert Wishes() == old(Wishes())[c.timer := Asks(c, old(Wishes())[c.timer])];
    }

    /** An allocation. */
    method AllocTimer(periodic: bool) returns (t: Timer)
      requires Inv()
      modifies tl`timers
      ensures Inv() && fresh(t) && tl.timers == old(tl.timers) + {t} && t.periodic == periodic
      ensures t !in old(Wishes()) && Wishes() == old(Wishes())[t := Wish(NoRequest, 0, 0)]
    {
      hide TimerLoop.Inv;
      t := tl.Alloc(periodic);
    }

    /** Any other call. */
    method AskLoop(c: Call) returns (made: Timer?)
      requires Inv() && !OnTimer(c) && !Refused(Wishes(), c)
      modifies this`pendingQueue, this`pended, tl`flags, tl`timers
      modifies tl`tickSet, tl`tickInterval, tl`tickPrev, tl`tickBegan, tl`tickSets
      ensures Inv() && old(tl.flags) <= tl.flags && old(pended) <= pended
      ensures old(tl.timers) <= tl.timers && fresh(tl.timers - old(tl.timers))
      ensures pendingQueue == if c.PendCall? then [c.callback] + old(pendingQueue) else old(pendingQueue)
      ensures c.PendCall? ==> Pending in tl.flags
      ensures OnDesk() == Effect(old(OnDesk()), Deed(c, made, tl.now))
      ensures Possible(old(OnDesk()), Deed(c, made, tl.now))
    {
      hide TimerLoop.Inv, Reverse, EventLoop.Wishes;
      made := null;
      match c
      case AllocCall(periodic) =>
        made := AllocTimer(periodic);
      case PendCall(callback) =>
        Pend(callback);
      case TickCall(tick, hasCallback) =>
        tl.SetTick(tick, hasCallback);
      case StopLoopCall =>
        tl.flags := tl.flags + {StopFlag};
    }

    /** One call from user code: refused, or with exactly its effect. */
    method Perform(c: Call) returns (ok: bool, ghost d: Deed)
      requires Inv()
      modifies this`pendingQueue, this`pended, tl`timerQueue, tl`flags, tl`timers
      modifies tl`tickSet, tl`tickInterval, tl`tickPrev, tl`tickBegan, tl`tickSets
      modifies tl.timers`request, tl.timers`nextInterval
      ensures Inv() && OnlyAdds()
      ensures ok <==> !Refused(old(OnDesk()).wishes, c)
      ensures c.PendCall? || c.AllocCall? || c.StopLoopCall? ==> ok
      ensures c.TickCall? ==> (ok <==> c.hasCallback ==> c.tick > 0)
      ensures OnTimer(c) && !c.timer.periodic ==>
        (ok <==> c.timer in old(tl.timers) && old(c.timer.request) != Request.Free)
      ensures ok ==> OnDesk() == Effect(old(OnDesk()), d) && Possible(old(OnDesk()), d)
      ensures !ok ==> OnDesk() == old(OnDesk())
      ensures d.call == c && d.at == tl.now
      ensures pendingQueue == if ok && c.PendCall? then [c.callback] + old(pendingQueue) else old(pendingQueue)
    {
      hide TimerLoop.Inv, EndsWith, EventLoop.Wishes, Refused, Effect;
      ok := !Refused(Wishes(), c);
      RefusedIff(Wishes(), c);
      if OnTimer(c) && c.timer in tl.timers { WishOfTimer(c.timer); }
      var made: Timer? := null;
      d := Deed(c, null, tl.now);
      EndsWithSelf(pendingQueue);
      if ok {
        if OnTimer(c) {
          Known(Wishes(), c);
          AskTimer(c, d);
        } else {
          if c.PendCall? { AddFront(pendingQueue, c.callback); }
          made := AskLoop(c);
          d := Deed(c, made, tl.now);
        }
      }
    }

    lemma WishOfTimer(t: Timer)
      requires t in tl.timers
      ensures Wishes()[t] == Wish(t.request, t.interval, t.nextInterval)
    {
    }

    static lemma Known(wishes: map<Timer, Wish>, c: Call)
      requires OnTimer(c) && !Refused(wishes, c)
      ensures c.timer in wishes
    {
    }

    /** A user callback: its calls in order, with time in between. */
    method Execute(script: Script) returns (ghost log: Log)
      requires Inv()
      modifies this`pendingQueue, this`pended, tl`timerQueue, tl`flags, tl`timers, tl`now
      modifies tl`tickSet, tl`tickInterval, tl`tickPrev, tl`tickBegan, tl`tickSets
      modifies tl.timers`request, tl.timers`nextInterval
      ensures Inv() && OnlyAdds() && TickKept()
      ensures Follows(old(OnDesk()), script, log) && OnDesk() == Effects(old(OnDesk()), log)
      ensures Timely(log, old(tl.now), tl.now)
      ensures QueueWeight(pendingQueue) < QueueWeight(old(pendingQueue)) + ScriptWeight(script)
    {
      hide TimerLoop.Inv, QueueWeight, ScriptWeight, CallWeight, EndsWith, Reverse;
      hide OnDesk, Effect, Effects, Underway, Possible, Refused, Timely, EventLoop.Wishes;
      NothingFollowed(OnDesk(), tl.now);
      DeskIs();
      EndsWithSelf(pendingQueue);
      tl.TimeGoesOn();
      log := [];
      var i := 0;
      assert script[0..] == script;
      while i < |script|
        invariant i == |log| <= |script|
        invariant Inv() && ran == old(ran) && EndsWith(pendingQueue, old(pendingQueue))
        invariant old(tl.timers) <= tl.timers && fresh(tl.timers - old(tl.timers))
        invariant pendingQueue != old(pendingQueue) ==> Pending in tl.flags
        invariant Underway(old(OnDesk()), script, log) && OnDesk() == Effects(old(OnDesk()), log)
        invariant Timely(log, old(tl.now), tl.now) && old(tl.now) <= tl.now
        invariant QueueWeight(pendingQueue) + ScriptWeight(script[i..])
          <= QueueWeight(old(pendingQueue)) + ScriptWeight(script)
      {
        ghost var q, now := pendingQueue, tl.now;
        var ok;
        ghost var d;
        ok, d := Perform(script[i]);
        if !ok {
          break;
        }
        StepWeight(script, i, q);
        EndsWithTrans(pendingQueue, q, old(pendingQueue));
        UnderwayPush(old(OnDesk()), script, log, d);
        tl.TimeGoesOn();
        TimelyPush(log, d, old(tl.now), now, tl.now);
        log := log + [d];
        i := i + 1;
      }
      WeightPositive(script[i..]);
      OnlyJoins(old(OnDesk()), log);
      NoTickKeeps(old(OnDesk()), log);
      DeskIs();
    }

    lemma DeskIs()
      ensures var v := OnDesk();
        && v.queue == tl.timerQueue && v.flags == tl.flags && v.pended == pended && v.tickSets == tl.tickSets
        && v.tickSet == tl.tickSet && v.tickInterval == tl.tickInterval && v.tickBegan == tl.tickBegan
    {
    }

    static lemma StepWeight(script: Script, i: nat, q: seq<Script>)
      requires i < |script|
      ensures ScriptWeight(script[i..]) == CallWeight(script[i]) + ScriptWeight(script[i + 1..])
      ensures CallWeight(script[i]) > 0
      ensures script[i].PendCall? ==>
        QueueWeight([script[i].callback] + q) + ScriptWeight(script[i + 1..])
          < QueueWeight(q) + ScriptWeight(script[i..])
    {
      assert script[i..][0] == script[i] && script[i..][1..] == script[i + 1..];
      CallsWeigh(script[i]);
      if script[i].PendCall? { AddFront(q, script[i].callback); }
    }

    static lemma {:induction false} WeightPositive(s: Script)
      ensures ScriptWeight(s) > 0
    {
      if s != [] { WeightPositive(s[1..]); }
    }

    static lemma NothingFollowed(v: Desk, now: nat)
      ensures AllFollow(v, [], []) && Flat([]) == [] && Effects(v, []) == v
      ensures forall script: Script :: Underway(v, script, [])
      ensures forall to: nat :: to >= now ==> Timely([], now, to)
    {
    }

    // ------------------------------------------------------ pended callbacks

    /** Runs the oldest pending callback and takes it off the queue. */
    method RunPending() returns (ghost log: Log)
      requires Inv() && pendingQueue != []
      modifies this`pendingQueue, this`pended, this`ran, tl`timerQueue, tl`flags, tl`timers, tl`now
      modifies tl`tickSet, tl`tickInterval, tl`tickPrev, tl`tickBegan, tl`tickSets
      modifies tl.timers`request, tl.timers`nextInterval
      ensures Inv() && tl.flags >= old(tl.flags) && old(pended) <= pended
      ensures old(tl.timers) <= tl.timers && fresh(tl.timers - old(tl.timers))
      ensures tl.timerQueue != old(tl.timerQueue) ==> TimerFlag in tl.flags
      ensures ran == old(ran) + [old(pendingQueue)[|old(pendingQueue)| - 1]]
      ensures TickKept() && tl.now >= old(tl.now)
      ensures QueueWeight(pendingQueue) < QueueWeight(old(pendingQueue))
      ensures Follows(old(OnDesk()), old(pendingQueue)[|old(pendingQueue)| - 1], log)
      ensures OnDesk() == Effects(old(OnDesk()), log) && Timely(log, old(tl.now), tl.now)
    {
      hide TimerLoop.Inv, QueueWeight, EndsWith, Reverse, OnDesk, Effects, Follows;
      var item := pendingQueue[|pendingQueue| - 1];
      ghost var before := pendingQueue;
      log := Execute(item);
      LastKept(pendingQueue, before);
      var rest := pendingQueue[..|pendingQueue| - 1];
      assert pendingQueue == rest + [item];
      DropLast(rest, item);
      ReverseLast(rest, item);
      assert ran + ([item] + Reverse(rest)) == ran + [item] + Reverse(rest);
      pendingQueue := rest;
      ran := ran + [item];
    }

    /** furi_event_loop_process_pending_callbacks: callbacks run in the order they were pended. */
    method ProcessPending() returns (ghost logs: seq<Log>)
      requires Inv()
      modifies this`pendingQueue, this`pended, this`ran, tl`timerQueue, tl`flags, tl`timers, tl`now
      modifies tl`tickSet, tl`tickInterval, tl`tickPrev, tl`tickBegan, tl`tickSets
      modifies tl.timers`request, tl.timers`nextInterval
      ensures Inv() && tl.flags >= old(tl.flags) && pendingQueue == [] && old(pended) <= pended
      ensures old(tl.timers) <= tl.timers && fresh(tl.timers - old(tl.timers))
      ensures tl.timerQueue != old(tl.timerQueue) ==> TimerFlag in tl.flags
      ensures ran == pended && old(ran) <= ran
      ensures TickKept() && tl.now >= old(tl.now)
      ensures AllFollow(old(OnDesk()), ran[|old(ran)|..], logs) && OnDesk() == Effects(old(OnDesk()), Flat(logs))
      ensures Timely(Flat(logs), old(tl.now), tl.now)
    {
      hide TimerLoop.Inv, QueueWeight, OnDesk, Effects, Follows, AllFollow, Flat, Timely;
      logs := [];
      NothingFollowed(old(OnDesk()), old(tl.now));
      assert ran[|ran|..] == [];
      while pendingQueue != []
        invariant Inv() && tl.flags >= old(tl.flags) && old(pended) <= pended && old(ran) <= ran
        invariant old(tl.timers) <= tl.timers && fresh(tl.timers - old(tl.timers))
        invariant tl.timerQueue != old(tl.timerQueue) ==> TimerFlag in tl.flags
        invariant TickKept() && tl.now >= old(tl.now)
        invariant AllFollow(old(OnDesk()), ran[|old(ran)|..], logs) && OnDesk() == Effects(old(OnDesk()), Flat(logs))
        invariant Timely(Flat(logs), old(tl.now), tl.now)
        decreases QueueWeight(pendingQueue)
      {
        ghost var item, before, now := pendingQueue[|pendingQueue| - 1], ran[|old(ran)|..], tl.now;
        ghost var log := RunPending();
        AllFollowPush(old(OnDesk()), before, logs, item, log);
        assert ran[|old(ran)|..] == before + [item];
        FlatPush(logs, log);
        EffectsConcat(old(OnDesk()), Flat(logs), log);
        TimelyConcat(Flat(logs), log, old(tl.now), now, tl.now);
        logs := logs + [log];
      }
      assert ran + [] == ran;
    }

    // -------------------------------------------------------------- the wait

    /** What runs: the listed timers and the tick. */
    ghost function Clocks(): seq<Clock>
      reads tl, tl.timerList
    {
      seq(|tl.timerList|, i requires 0 <= i < |tl.timerList| reads tl, tl.timerList =>
        tl.timerList[i].ClockAt(tl.now))
      + if tl.tickSet then [TickClock()] else []
    }

    ghost function TickClock(): Clock
      reads tl
    {
      Clock(tl.tickInterval, if tl.tickBegan <= tl.now then tl.now - tl.tickBegan else 0)
    }

    /** Nothing that runs is due before the given number of ticks. */
    ghost predicate NothingBefore(ticks: nat)
      reads tl, tl.timers
    {
      && (forall t :: t in tl.timers && t.active ==> ticks <= t.Remaining(tl.now))
      && (tl.tickSet ==> ticks <= Remaining(TickClock()))
    }

    /** Something that runs is due after exactly that many ticks. */
    ghost predicate SomethingAfter(ticks: nat)
      reads tl, tl.timers
    {
      || (exists t :: t in tl.timers && t.active && ticks == t.Remaining(tl.now))
      || (tl.tickSet && ticks == Remaining(TickClock()))
    }

    lemma ClocksRun(c: Clock)
      requires tl.Inv() && c in Clocks()
      ensures (exists t :: t in tl.timers && t.active && c == t.ClockAt(tl.now)) || (tl.tickSet && c == TickClock())
    {
      var i :| 0 <= i < |Clocks()| && Clocks()[i] == c;
      if i < |tl.timerList| {
        assert tl.timerList[i] in tl.Members(tl.timerList);
      }
    }

    lemma ListedRuns(t: Timer)
      requires tl.Inv() && t in tl.Members(tl.timerList)
      ensures t in tl.timers && t.active
    {
    }

    lemma RunningListed(t: Timer)
      requires tl.Inv() && t in tl.timers && t.active
      ensures t.ClockAt(tl.now) in Clocks() && t.began <= tl.now
    {
      assert t in tl.Members(tl.timerList);
      var i :| 0 <= i < |tl.timerList| && tl.timerList[i] == t;
      assert Clocks()[i] == t.ClockAt(tl.now);
      assert tl.timerList[i].Timed(tl.now);
    }

    lemma TickListed()
      requires tl.Inv() && tl.tickSet
      ensures TickClock() in Clocks() && tl.tickBegan <= tl.now
    {
      assert Clocks()[|tl.timerList|] == TickClock();
    }

    /** Least and attained, so it is the sleep of the clocks that run. */
    lemma SleepOfClocks(ticks: uint32)
      requires tl.Inv() && NothingBefore(ticks) && (ticks == WAIT_FOREVER || SomethingAfter(ticks))
      ensures ticks == Sleep(Clocks())
      ensures ticks == WAIT_FOREVER <==>
        && (forall t :: t in tl.timers && t.active ==> t.interval == WAIT_FOREVER && t.began == tl.now)
        && (tl.tickSet ==> tl.tickInterval == WAIT_FOREVER && tl.tickBegan == tl.now)
    {
      hide TimerLoop.Inv, Sleep, Clocks, Timer.Remaining, Waiting.Remaining;
      forall c | c in Clocks()
        ensures (exists t :: t in tl.timers && t.active && c == t.ClockAt(tl.now)) || (tl.tickSet && c == TickClock())
      {
        ClocksRun(c);
      }
      forall t | t in tl.timers && t.active ensures t.ClockAt(tl.now) in Clocks() && t.began <= tl.now {
        RunningListed(t);
      }
      if tl.tickSet { TickListed(); }
      SleepIs(Clocks(), ticks);
      ForeverIff(Clocks());
    }

    /**
      How long the loop sleeps: exactly until the first timer or the tick is due.  WAIT_FOREVER, which
      the kernel takes for no limit, is computed exactly when everything that runs has the longest
      interval and was started in this tick.
     */
    method TicksToSleep() returns (ticks: uint32)
      requires Inv()
      ensures NothingBefore(ticks) && (ticks != WAIT_FOREVER ==> SomethingAfter(ticks))
      ensures ticks == Sleep(Clocks())
      ensures ticks == WAIT_FOREVER <==>
        && (forall t :: t in tl.timers && t.active ==> t.interval == WAIT_FOREVER && t.began == tl.now)
        && (tl.tickSet ==> tl.tickInterval == WAIT_FOREVER && tl.tickBegan == tl.now)
    {
      hide TimerLoop.ListInv, Timer.Remaining, TimerLoop.Members, Clocks, Sleep;
      if tl.tickSet { TickListed(); }
      var a := tl.TimerWaitTime();
      var b := tl.TickWaitTime();
      ticks := if a < b then a else b;
      forall t | t in tl.Members(tl.timerList) ensures t in tl.timers && t.active {
        ListedRuns(t);
      }
      SleepOfClocks(ticks);
    }

    /** As long as nothing is due, nothing that runs grows as old as the clock is wide. */
    lemma StaysTimed(ticks: nat)
      requires tl.ListInv() && tl.Activated() && NothingBefore(ticks)
      ensures tl.AllTimed(tl.timerList, tl.now + ticks) && tl.TickTimed(tl.now + ticks)
    {
      forall i | 0 <= i < |tl.timerList| ensures tl.timerList[i].Timed(tl.now + ticks) {
        assert tl.timerList[i] in tl.Members(tl.timerList);
        assert tl.timerList[i].Timed(tl.now);
      }
    }

    /**
      The wait on the notification word.  The bits set are taken, with any event and stop bits that
      other threads add before it ends; with none at all the ticks have run out.
     */
    method Wait(ticks: uint32) returns (taken: set<Flag>)
      requires Inv() && NothingBefore(ticks)
      modifies tl`flags, tl`now
      ensures Inv() && tl.flags == {} && tl.now >= old(tl.now)
      ensures old(tl.flags) <= taken <= old(tl.flags) + {Flag.Event, StopFlag}
      ensures taken == {} ==> ticks != WAIT_FOREVER && tl.now >= old(tl.now) + ticks
    {
      hide TimerLoop.ListInv, TimerLoop.AllTimed, TimerLoop.TickTimed, TimerLoop.Activated, Timer.Remaining;
      taken := tl.flags;
      tl.flags := {};
      var event, stop := *, *;
      if taken == {} && ticks == WAIT_FOREVER && !event && !stop {
        event := true;
      }
      taken := taken + (if event then {Flag.Event} else {}) + (if stop then {StopFlag} else {});
      if taken == {} {
        StaysTimed(ticks);
        tl.TimePasses(ticks, {});
      } else {
        StaysTimed(0);
        tl.TimePasses(0, {});
      }
    }

    /** Something that runs is due. */
    ghost predicate SomethingDue()
      reads tl, tl.timers
    {
      || (exists t :: t in tl.timers && t.active && t.began + t.interval <= tl.now)
      || (tl.tickSet && tl.tickBegan + tl.tickInterval <= tl.now)
    }

    /** The sleep and the wait of a round: when no bit comes, they end with something due. */
    method WaitForWork() returns (taken: set<Flag>)
      requires Inv() && Announced({})
      modifies tl`flags, tl`now
      ensures Inv() && Announced(taken) && tl.flags == {} && tl.now >= old(tl.now)
      ensures old(tl.flags) <= taken <= old(tl.flags) + {Flag.Event, StopFlag}
      ensures taken == {} ==> SomethingDue() && forall t :: t in tl.timers ==> t.request == NoRequest
      ensures OnDesk() == old(OnDesk()).(flags := {})
    {
      hide TimerLoop.Inv, Clocks, Sleep, NothingBefore, Timer.Remaining, EventLoop.Wishes;
      Idlers();
      var ticks := TicksToSleep();
      ghost var start := tl.now;
      ghost var first: Timer? := null;
      if t :| t in tl.timers && t.active && ticks == t.Remaining(tl.now) {
        first := t;
        RunningListed(t);
      }
      if tl.tickSet { TickListed(); }
      taken := Wait(ticks);
      if taken == {} && first != null { first.RunsOut(start, ticks, tl.now); }
    }

    // --------------------------------------------------------- one round

    /** furi_event_loop_restore_flags. */
    method RestoreFlags(f: set<Flag>)
      modifies tl`flags
      ensures tl.flags == old(tl.flags) + f
      ensures OnDesk() == Restored(old(OnDesk()), f)
    {
      hide EventLoop.Wishes;
      tl.flags := tl.flags + f;
    }

    /** The timers that run afterwards ran before in the same interval, or their start was carried out. */
    twostate predicate StartsOnly(before: set<Timer>, new fired: Timer?, new started: set<Timer>)
      reads tl, before
    {
      forall t :: t in before && t != fired && t in tl.timers && t.active ==>
        if t in started then old(t.request) == Start && t.began >= old(tl.now)
        else old(t.active) && t.began == old(t.began) && t.interval == old(t.interval)
    }

    /** None of the timers that ran was due by the given moment. */
    twostate predicate NoTimerDue(before: set<Timer>, at: nat) {
      forall t :: t in before && old(t.active) ==> at < old(t.began) + old(t.interval)
    }

    /** What a round does to the timers there were: one may fire, and timers start only by a request. */
    twostate predicate TimersServed(before: set<Timer>, new o: Outcome)
      reads tl, before
    {
      && (o.fired != null ==>
            && o.fired in before && o.started == {} && o.due == o.began + o.fired.interval
            && (o.fired.active <==> o.fired.periodic)
            && (o.fired.periodic ==> WholeSteps(o.began, o.fired.began, o.due - o.began)))
      && (forall t :: t in before && t == o.fired ==>
            old(t.active) && o.began == old(t.began) && t.interval == old(t.interval))
      && StartsOnly(before, o.fired, o.started)
    }

    /** ... and to the tick: unless user code sets it, it moves by its interval when it runs. */
    twostate predicate TickServed(new o: Outcome)
      reads tl
    {
      && (o.tickReset <==> tl.tickSets != old(tl.tickSets))
      && (o.ticked ==> old(tl.tickSet) && o.tickInterval == old(tl.tickInterval) > 0)
      && (o.ticked ==> o.tickDue == old(tl.tickBegan) + o.tickInterval)
      && (!o.tickReset ==> tl.tickSet == old(tl.tickSet) && tl.tickInterval == old(tl.tickInterval))
      && (!o.tickReset && tl.tickSet ==>
            tl.tickBegan == old(tl.tickBegan) + if o.ticked then tl.tickInterval else 0)
    }

    /** The timer branch: every queued request is carried out. */
    method ServeRequests(others: set<Flag>) returns (ghost started: set<Timer>)
      requires Inv()
      modifies tl`timerList, tl`timerQueue, tl`timers, tl`now, tl`flags, tl.timers
      ensures Inv() && tl.now >= old(tl.now) && tl.timers <= old(tl.timers) && tl.flags == old(tl.flags) + others
      ensures tl.timerQueue == [] && forall t :: t in old(tl.timers) ==> tl.Applied(t)
      ensures StartsOnly(old(tl.timers), null, started)
      ensures OnDesk().(wishes := map[], queue := [])
        == Restored(old(OnDesk()), others).(wishes := map[], queue := [])
    {
      hide TimerLoop.Inv, TimerLoop.Members, EventLoop.Wishes;
      started := set t | t in tl.timers && t.request == Start;
      tl.ProcessTimerQueue();
      RestoreFlags(others);
    }

    /** The event branch: the callback of a queue. */
    method ServeEvent(script: Script, others: set<Flag>) returns (ghost log: Log)
      requires Inv()
      modifies this`pendingQueue, this`pended, tl`timerQueue, tl`flags, tl`timers, tl`now
      modifies tl`tickSet, tl`tickInterval, tl`tickPrev, tl`tickBegan, tl`tickSets
      modifies tl.timers`request, tl.timers`nextInterval
      ensures Inv() && OnlyAdds() && TickKept() && others <= tl.flags
      ensures Follows(old(OnDesk()), script, log) && OnDesk() == Restored(Effects(old(OnDesk()), log), others)
      ensures Timely(log, old(tl.now), tl.now)
    {
      hide TimerLoop.Inv, QueueWeight, EndsWith, Effects, Follows, OnDesk;
      log := Execute(script);
      RestoreFlags(others);
    }

    /** The branches of a round that took bits. */
    method ServeFlags(taken: set<Flag>, round: Round) returns (ghost started: set<Timer>, ghost logs: seq<Log>)
      requires Inv() && Announced(taken) && taken != {}
      modifies this, tl, tl.timers
      ensures Inv() && (state != Stopped ==> Announced({}))
      ensures tl.now >= old(tl.now) && fresh(tl.timers - old(tl.timers)) && old(pended) <= pended && old(ran) <= ran
      ensures state == if StopFlag in taken then Stopped else old(state)
      ensures StartsOnly(old(tl.timers), null, started) && TickKept()
      // the timer branch carries out every queued request
      ensures TimerFlag in taken && StopFlag !in taken && Flag.Event !in taken ==>
        tl.timerQueue == [] && forall t :: t in old(tl.timers) ==> tl.Applied(t)
      // the pending branch runs every pended callback; no other branch runs one
      ensures taken == {Pending} ==> pendingQueue == [] && ran == pended
      ensures taken != {Pending} ==> ran == old(ran)
      ensures Served(old(OnDesk()), OnDesk(), round, taken, false, ran[|old(ran)|..], logs)
      ensures Timely(Flat(logs), old(tl.now), tl.now)
    {
      hide TimerLoop.Inv, TimerLoop.Members, QueueWeight, Reverse, EndsWith, ScriptWeight, CallWeight;
      hide Effects, Follows, AllFollow, Flat, OnDesk, Served, TimerLoop.Applied;
      started, logs := {}, [];
      NothingFollowed(OnDesk(), tl.now);
      if StopFlag in taken {
        state := Stopped;
        StopServed(OnDesk(), round, taken, ran[|old(ran)|..]);
      } else if Flag.Event in taken {
        ghost var log := ServeEvent(round.onEvent, taken - {Flag.Event});
        logs := [log];
        FlatOne(log);
        EventServed(old(OnDesk()), round, taken, log, ran[|old(ran)|..]);
      } else if TimerFlag in taken {
        started := ServeRequests(taken - {TimerFlag});
        RequestsServed(old(OnDesk()), OnDesk(), round, taken, ran[|old(ran)|..]);
      } else {
        OnlyPending(taken);
        logs := ProcessPending();
        PendingServed(old(OnDesk()), round, taken, ran[|old(ran)|..], logs);
      }
    }

    static lemma OnlyPending(taken: set<Flag>)
      requires taken != {} && StopFlag !in taken && Flag.Event !in taken && TimerFlag !in taken
      ensures taken == {Pending}
    {
      var f :| f in taken;
      forall g | g in taken ensures g == Pending {
        match g case Event => case StopFlag => case TimerFlag => case Pending =>
      }
    }

    /** The tick may run, and moves. */
    method MoveTick() returns (fired: bool)
      requires Inv()
      modifies tl`tickPrev, tl`tickBegan
      ensures Inv()
      ensures fired <==> tl.tickSet && old(tl.tickBegan) + tl.tickInterval <= tl.now
      ensures tl.tickSet ==> tl.tickBegan == old(tl.tickBegan) + if fired then tl.tickInterval else 0
      ensures fired ==> OnDesk() == old(OnDesk()).(tickBegan := old(OnDesk().tickBegan + OnDesk().tickInterval))
    {
      hide TimerLoop.Inv, EventLoop.Wishes;
      fired := tl.ProcessTick();
    }

    lemma TimeLeft()
      requires forall t :: t in tl.timers && t.active ==> t.Remaining(tl.now) > 0
      ensures forall t :: t in tl.timers && t.active ==> tl.now < t.began + t.interval
    {
    }

    static lemma StopServed(v: Desk, round: Round, taken: set<Flag>, scripts: seq<Script>)
      requires StopFlag in taken
      ensures Served(v, v, round, taken, false, scripts, [])
    {
    }

    static lemma EventServed(v: Desk, round: Round, taken: set<Flag>, log: Log, scripts: seq<Script>)
      requires StopFlag !in taken && Flag.Event in taken && Follows(v, round.onEvent, log)
      ensures Served(v, Restored(Effects(v, log), taken - {Flag.Event}), round, taken, false, scripts, [log])
    {
    }

    static lemma RequestsServed(v: Desk, w: Desk, round: Round, taken: set<Flag>, scripts: seq<Script>)
      requires StopFlag !in taken && Flag.Event !in taken && TimerFlag in taken
      requires w.(wishes := map[], queue := []) == Restored(v, taken - {TimerFlag}).(wishes := map[], queue := [])
      ensures Served(v, w, round, taken, false, scripts, [])
    {
    }

    static lemma PendingServed(v: Desk, round: Round, taken: set<Flag>, scripts: seq<Script>, logs: seq<Log>)
      requires taken == {Pending} && AllFollow(v, scripts, logs)
      ensures Served(v, Effects(v, Flat(logs)), round, taken, false, scripts, logs)
    {
    }

    static lemma OneServed(v: Desk, round: Round, timer: bool, log: Log)
      requires var u := if timer then v else v.(tickBegan := v.tickBegan + v.tickInterval);
        Follows(u, if timer then round.onTimer else round.onTick, log)
      ensures var u := if timer then v else v.(tickBegan := v.tickBegan + v.tickInterval);
        Served(v, Effects(u, log), round, {}, timer, [], [log])
    {
    }

    /** The tick and its callback, when it is due. */
    method ServeTick(round: Round) returns (ticked: bool, ghost logs: seq<Log>)
      requires Inv()
      modifies this`pendingQueue, this`pended, tl`timerQueue, tl`flags, tl`timers, tl`now
      modifies tl`tickSet, tl`tickInterval, tl`tickPrev, tl`tickBegan, tl`tickSets
      modifies tl.timers`request, tl.timers`nextInterval
      ensures Inv() && OnlyAdds()
      ensures ticked <==> old(tl.tickSet) && old(tl.tickBegan) + old(tl.tickInterval) <= old(tl.now)
      ensures old(tl.tickSets) <= tl.tickSets
      ensures tl.tickSets == old(tl.tickSets) ==>
        tl.tickSet == old(tl.tickSet) && tl.tickInterval == old(tl.tickInterval)
      ensures tl.tickSets == old(tl.tickSets) && tl.tickSet ==>
        tl.tickBegan == old(tl.tickBegan) + if ticked then tl.tickInterval else 0
      ensures ticked ==> Served(old(OnDesk()), OnDesk(), round, {}, false, [], logs)
      ensures Timely(Flat(logs), old(tl.now), tl.now)
    {
      hide TimerLoop.Inv, QueueWeight, Reverse, EndsWith, ScriptWeight, CallWeight;
      hide Effects, Follows, Flat, OnDesk, Served, Timely;
      logs := [];
      NothingFollowed(OnDesk(), tl.now);
      EndsWithSelf(pendingQueue);
      ticked := MoveTick();
      if ticked {
        ghost var log := Execute(round.onTick);
        OneServed(old(OnDesk()), round, false, log);
        logs := [log];
        FlatOne(log);
      }
    }

    /** The branch of a round whose wait ran out: one expired timer, or else the tick. */
    method ServeTime(round: Round) returns (fired: Timer?, ticked: bool, ghost logs: seq<Log>)
      requires Inv() && Announced({}) && tl.flags == {}
      modifies this, tl, tl.timers
      ensures Inv() && Announced({}) && state == old(state) && ran == old(ran) && old(pended) <= pended
      ensures tl.now >= old(tl.now) && old(tl.timers) <= tl.timers && fresh(tl.timers - old(tl.timers))
      ensures fired != null ==> !ticked && fired in old(tl.timers) && old(fired.active)
      ensures fired != null ==> (fired.active <==> fired.periodic) && old(fired.began) + fired.interval <= old(tl.now)
      ensures fired != null && fired.periodic ==>
        WholeSteps(old(fired.began), fired.began, fired.interval) && fired.began <= tl.now
      ensures forall t :: t in old(tl.timers) && t != fired ==> t.active == old(t.active) && t.began == old(t.began)
      ensures fired == null ==> NoTimerDue(old(tl.timers), old(tl.now))
      ensures fired == null ==> (ticked <==> old(tl.tickSet) && old(tl.tickBegan) + old(tl.tickInterval) <= old(tl.now))
      ensures forall t :: t in old(tl.timers) ==> t.interval == old(t.interval)
      ensures old(tl.tickSets) <= tl.tickSets
      ensures tl.tickSets == old(tl.tickSets) ==>
        tl.tickSet == old(tl.tickSet) && tl.tickInterval == old(tl.tickInterval)
      ensures tl.tickSets == old(tl.tickSets) && tl.tickSet ==>
        tl.tickBegan == old(tl.tickBegan) + if ticked then tl.tickInterval else 0
      ensures fired != null || ticked ==>
        Served(old(OnDesk()), OnDesk(), round, {}, fired != null, [], logs)
      ensures Timely(Flat(logs), old(tl.now), tl.now)
    {
      hide TimerLoop.Inv, TimerLoop.Members, QueueWeight, Reverse, EndsWith, ScriptWeight, CallWeight;
      hide Timer.Remaining, WholeSteps, TimerLoop.Applied;
      hide Effects, Follows, Flat, OnDesk, Served;
      logs := [];
      NothingFollowed(OnDesk(), tl.now);
      ghost var at;
      ghost var log;
      ticked := false;
      fired, at := tl.ProcessExpiredTimers();
      if fired != null {
        log := Execute(round.onTimer);
        OneServed(old(OnDesk()), round, true, log);
        logs := [log];
        FlatOne(log);
      } else {
        TimeLeft();
        ticked, logs := ServeTick(round);
      }
    }

    /**
      One round of furi_event_loop_run.  The scripts are what the queue callback, the timer
      callback and the tick callback would call if they run in this round.
     */
    method RunOnce(round: Round) returns (ghost o: Outcome)
      requires Inv() && Announced({})
      modifies this, tl, tl.timers
      ensures Inv() && (state != Stopped ==> Announced({})) && fresh(tl.timers - old(tl.timers))
      ensures old(tl.flags) <= o.taken <= old(tl.flags) + {Flag.Event, StopFlag}
      ensures state == Stopped <==> StopFlag in o.taken
      ensures old(tl.now) <= o.checked <= tl.now && old(pended) <= pended && old(ran) <= ran
      ensures TimerFlag in o.taken && StopFlag !in o.taken && Flag.Event !in o.taken ==>
        tl.timerQueue == [] && forall t :: t in old(tl.timers) ==> tl.Applied(t)
      ensures o.taken == {Pending} ==> pendingQueue == [] && ran == pended
      ensures o.taken != {Pending} ==> ran == old(ran)
      // a wait that runs out finds a timer or the tick due; in no other round is one served
      ensures o.taken == {} <==> o.fired != null || o.ticked
      ensures o.taken == {} ==> forall t :: t in old(tl.timers) ==> old(t.request) == NoRequest
      ensures o.fired != null ==> !o.ticked && o.due <= o.checked
      ensures o.ticked ==> o.tickDue <= o.checked && NoTimerDue(old(tl.timers), o.checked)
      ensures TimersServed(old(tl.timers), o) && TickServed(o)
      // the callbacks of the round made the calls of their scripts, with exactly their effects
      ensures RoundServed(round, o) && o.scripts == ran[|old(ran)|..]
      ensures o.before == old(OnDesk()).(flags := {}) && o.after == OnDesk()
      ensures Timely(Flat(o.logs), o.checked, tl.now)
      ensures pended == old(pended) + Pended(Flat(o.logs))
      ensures StopFlag in tl.flags <==> StopsLoop(Flat(o.logs))
    {
      hide TimerLoop.Inv, TimerLoop.Members, QueueWeight, Reverse, EndsWith, ScriptWeight, CallWeight;
      hide Timer.Remaining, WholeSteps, RoundServed, OnDesk, Timely, Flat, SomethingDue, Inv, Announced, StopsLoop;
      DeskIs();
      state := Idle;
      var taken := WaitForWork();
      state := Processing;
      if taken != {} {
        o := FlagRound(round, taken);
      } else {
        o := TimeRound(round);
        assert ran[|old(ran)|..] == [];
      }
      DeskIs();
      ServedPends(round, o);
    }

    /** A round that took bits. */
    method FlagRound(round: Round, taken: set<Flag>) returns (ghost o: Outcome)
      requires Inv() && Announced(taken) && taken != {} && state == Processing
      modifies this, tl, tl.timers
      ensures Inv() && (state != Stopped ==> Announced({})) && fresh(tl.timers - old(tl.timers))
      ensures o.taken == taken && o.fired == null && !o.ticked && o.checked == old(tl.now) <= tl.now
      ensures state == Stopped <==> StopFlag in taken
      ensures old(pended) <= pended && old(ran) <= ran
      ensures TimerFlag in taken && StopFlag !in taken && Flag.Event !in taken ==>
        tl.timerQueue == [] && forall t :: t in old(tl.timers) ==> tl.Applied(t)
      ensures taken == {Pending} ==> pendingQueue == [] && ran == pended
      ensures taken != {Pending} ==> ran == old(ran)
      ensures TimersServed(old(tl.timers), o) && TickServed(o)
      ensures RoundServed(round, o) && o.scripts == ran[|old(ran)|..]
      ensures o.before == old(OnDesk()) && o.after == OnDesk()
      ensures Timely(Flat(o.logs), o.checked, tl.now)
    {
      hide TimerLoop.Inv, TimerLoop.Members, QueueWeight, Reverse, EndsWith, ScriptWeight, CallWeight;
      hide Timer.Remaining, WholeSteps, Served, OnDesk, Timely, Flat, TimerLoop.Applied, StartsOnly;
      ghost var checked := tl.now;
      ghost var started, logs := ServeFlags(taken, round);
      o := Outcome(taken, started, null, 0, 0, false, 0, 0, tl.tickSets != old(tl.tickSets), checked,
                   logs, ran[|old(ran)|..], old(OnDesk()), OnDesk());
    }

    /** A round whose wait ran out. */
    method TimeRound(round: Round) returns (ghost o: Outcome)
      requires Inv() && Announced({}) && tl.flags == {} && SomethingDue()
      modifies this, tl, tl.timers
      ensures Inv() && Announced({}) && state == old(state) && ran == old(ran) && old(pended) <= pended
      ensures fresh(tl.timers - old(tl.timers))
      ensures o.taken == {} && (o.fired != null || o.ticked) && (o.fired != null ==> !o.ticked)
      ensures o.checked == old(tl.now) <= tl.now
      ensures (o.fired != null ==> o.due <= o.checked) && (o.ticked ==> o.tickDue <= o.checked)
      ensures o.ticked ==> NoTimerDue(old(tl.timers), o.checked)
      ensures TimersServed(old(tl.timers), o) && TickServed(o)
      ensures RoundServed(round, o) && o.scripts == []
      ensures o.before == old(OnDesk()) && o.after == OnDesk()
      ensures Timely(Flat(o.logs), o.checked, tl.now)
    {
      hide TimerLoop.Inv, TimerLoop.Members, QueueWeight, Reverse, EndsWith, ScriptWeight, CallWeight;
      hide Timer.Remaining, WholeSteps, Served, OnDesk, Timely, Flat;
      TickPositive();
      o := Outcome({}, {}, null, 0, 0, false, tl.tickBegan + tl.tickInterval, tl.tickInterval, false, tl.now,
                   [], [], OnDesk(), OnDesk());
      ghost var logs;
      var fired, ticked;
      fired, ticked, logs := ServeTime(round);
      o := o.(fired := fired, ticked := ticked, tickReset := tl.tickSets != old(tl.tickSets));
      o := o.(logs := logs, after := OnDesk());
      if fired != null {
        ghost var began := old(fired.began);
        o := o.(began := began, due := began + fired.interval);
      }
    }

    // ------------------------------------------------------------ whole runs

    /** Firings of one timer never overlap: an interval begins no earlier than the last one was over. */
    static ghost predicate Apart(log: seq<Outcome>) {
      forall i, j :: 0 <= i < j < |log| && log[i].fired != null && log[i].fired == log[j].fired ==>
        log[i].due <= log[j].began
    }

    /** No start of the timer was carried out in the rounds after i up to j. */
    static ghost predicate NotStarted(log: seq<Outcome>, i: nat, j: nat, t: Timer?)
      requires j <= |log|
    {
      forall k :: i < k < j ==> t !in log[k].started
    }

    /** User code has not set the tick in the rounds from i up to j. */
    static ghost predicate NotReset(log: seq<Outcome>, i: nat, j: nat)
      requires j <= |log|
    {
      forall k :: i <= k < j ==> !log[k].tickReset
    }

    static predicate SameInterval(a: Outcome, b: Outcome) {
      a.began <= a.due && b.began <= b.due && a.due - a.began == b.due - b.began
    }

    /** Between two firings of a timer that was not started anew lie whole intervals, one at least. */
    static ghost predicate TimersInPhase(log: seq<Outcome>) {
      forall i, j :: 0 <= i < j < |log| && log[i].fired != null && log[i].fired == log[j].fired
        && NotStarted(log, i, j, log[i].fired)
        ==> SameInterval(log[i], log[j]) && WholeSteps(log[i].due, log[j].due, log[j].due - log[j].began)
    }

    /** The same for the tick, unless user code sets it. */
    static ghost predicate TickInPhase(log: seq<Outcome>) {
      forall i, j :: 0 <= i < j < |log| && log[i].ticked && log[j].ticked && NotReset(log, i, j) ==>
        log[i].tickInterval == log[j].tickInterval
        && WholeSteps(log[i].tickDue, log[j].tickDue, log[j].tickInterval)
    }

    /** A timer that fired and still runs has begun a new interval since, in phase if it was not started anew. */
    ghost predicate Renewed(log: seq<Outcome>)
      reads tl, tl.timers
    {
      && (forall i :: 0 <= i < |log| && log[i].fired != null && log[i].fired in tl.timers && log[i].fired.active ==>
            log[i].due <= log[i].fired.began)
      && (forall i :: 0 <= i < |log| && log[i].fired != null && log[i].fired in tl.timers && log[i].fired.active
            && NotStarted(log, i, |log|, log[i].fired)
            ==> RunsOn(log[i], log[i].fired))
    }

    /** The timer's present interval continues those up to the outcome. */
    static ghost predicate RunsOn(o: Outcome, t: Timer)
      reads t`began, t`interval
    {
      o.began <= o.due && t.interval == o.due - o.began && InStep(o.due, t.began, t.interval)
    }

    ghost predicate TickRunsOn(log: seq<Outcome>)
      reads tl
    {
      forall i :: 0 <= i < |log| && log[i].ticked && NotReset(log, i, |log|) ==>
        tl.tickSet && tl.tickInterval == log[i].tickInterval && InStep(log[i].tickDue, tl.tickBegan, tl.tickInterval)
    }

    /** Until user code sets it, the tick stays in phase with the beginning of the run. */
    ghost predicate TickFrom(log: seq<Outcome>, from: nat, interval: nat)
      reads tl
    {
      NotReset(log, 0, |log|) && tl.tickSet ==> tl.tickInterval == interval && InStep(from, tl.tickBegan, interval)
    }

    static ghost predicate FirstTicks(log: seq<Outcome>, from: nat, interval: nat) {
      forall j :: 0 <= j < |log| && log[j].ticked && NotReset(log, 0, j) ==>
        log[j].tickInterval == interval && WholeSteps(from, log[j].tickDue, interval)
    }

    lemma TickFromNext(log: seq<Outcome>, o: Outcome, from: nat, interval: nat, wasSet: bool, began: nat, was: nat)
      requires NotReset(log, 0, |log|) && wasSet ==> was == interval && InStep(from, began, was)
      requires o.ticked ==> wasSet && o.tickInterval == was && o.tickDue == began + was
      requires !o.tickReset ==> tl.tickSet == wasSet && tl.tickInterval == was
      requires !o.tickReset && tl.tickSet ==> tl.tickBegan == began + if o.ticked then was else 0
      requires FirstTicks(log, from, interval)
      ensures TickFrom(log + [o], from, interval) && FirstTicks(log + [o], from, interval)
    {
      hide InStep, WholeSteps;
      var l := log + [o];
      assert forall k :: 0 <= k < |log| ==> l[k] == log[k];
      assert l[|log|] == o;
      if NotReset(log, 0, |log|) && wasSet && o.ticked {
        OneMore(from, began, interval);
        WholeIsStep(from, o.tickDue, interval);
      }
    }

    /** A callback that stops the loop does so by the next round. */
    static ghost predicate StopsSoon(log: seq<Outcome>) {
      forall i :: 0 <= i < |log| - 1 && StopsLoop(Flat(log[i].logs)) ==> StopFlag in log[i + 1].taken
    }

    /** The rounds look at the time in order; a wait that runs out serves something that is due by then. */
    static ghost predicate InOrder(log: seq<Outcome>, from: nat, to: nat) {
      && (forall i :: 0 <= i < |log| ==> from <= log[i].checked <= to)
      && (forall i, j :: 0 <= i < j < |log| ==> log[i].checked <= log[j].checked)
      && (forall i :: 0 <= i < |log| ==> (log[i].taken == {} <==> log[i].fired != null || log[i].ticked))
      && (forall i :: 0 <= i < |log| && log[i].fired != null ==> log[i].due <= log[i].checked)
      && (forall i :: 0 <= i < |log| && log[i].ticked ==> log[i].tickDue <= log[i].checked)
    }

    /** All that a run says of its rounds. */
    static ghost predicate Orderly(log: seq<Outcome>, from: nat, to: nat) {
      InOrder(log, from, to) && Apart(log) && TimersInPhase(log) && TickInPhase(log)
    }

    static lemma InOrderPush(log: seq<Outcome>, o: Outcome, from: nat, now: nat, to: nat)
      requires InOrder(log, from, now) && from <= now <= o.checked <= to
      requires o.taken == {} <==> o.fired != null || o.ticked
      requires (o.fired != null ==> o.due <= o.checked) && (o.ticked ==> o.tickDue <= o.checked)
      ensures InOrder(log + [o], from, to)
    {
    }

    static lemma ApartPush(log: seq<Outcome>, o: Outcome)
      requires Apart(log)
      requires forall i :: 0 <= i < |log| && log[i].fired != null && log[i].fired == o.fired ==> log[i].due <= o.began
      ensures Apart(log + [o])
    {
    }

    /** Quiet rounds of a longer log. */
    static lemma QuietPush(log: seq<Outcome>, o: Outcome, i: nat, j: nat, t: Timer?)
      requires i < |log| && j <= |log|
      ensures NotStarted(log + [o], i, j, t) <==> NotStarted(log, i, j, t)
      ensures NotReset(log + [o], i, j) <==> NotReset(log, i, j)
      ensures NotStarted(log + [o], i, |log| + 1, t) <==> NotStarted(log, i, |log|, t) && t !in o.started
      ensures NotReset(log + [o], i, |log| + 1) <==> NotReset(log, i, |log|) && !o.tickReset
    {
      var l := log + [o];
      assert forall k :: 0 <= k < |log| ==> l[k] == log[k];
      assert l[|log|] == o;
    }

    static lemma TimersInPhasePush(log: seq<Outcome>, o: Outcome)
      requires TimersInPhase(log)
      requires GoesOn(log, o)
      ensures TimersInPhase(log + [o])
    {
      hide NotStarted, WholeSteps;
      var l := log + [o];
      forall i, j | 0 <= i < j < |l| && l[i].fired != null && l[i].fired == l[j].fired
          && NotStarted(l, i, j, l[i].fired)
        ensures SameInterval(l[i], l[j]) && WholeSteps(l[i].due, l[j].due, l[j].due - l[j].began)
      {
        QuietPush(log, o, i, j, l[i].fired);
      }
    }

    static lemma TickInPhasePush(log: seq<Outcome>, o: Outcome)
      requires TickInPhase(log)
      requires forall i :: 0 <= i < |log| && log[i].ticked && o.ticked && NotReset(log, i, |log|) ==>
        log[i].tickInterval == o.tickInterval && WholeSteps(log[i].tickDue, o.tickDue, o.tickInterval)
      ensures TickInPhase(log + [o])
    {
      hide NotReset, WholeSteps;
      var l := log + [o];
      forall i, j | 0 <= i < j < |l| && l[i].ticked && l[j].ticked && NotReset(l, i, j)
        ensures l[i].tickInterval == l[j].tickInterval && WholeSteps(l[i].tickDue, l[j].tickDue, l[j].tickInterval)
      {
        QuietPush(log, o, i, j, null);
      }
    }

    /** The outcome goes on in phase with all those of its timer since the last start. */
    static ghost predicate GoesOn(log: seq<Outcome>, o: Outcome) {
      forall i ::
        0 <= i < |log| && log[i].fired != null && log[i].fired == o.fired && NotStarted(log, i, |log|, o.fired)
        ==> SameInterval(log[i], o) && WholeSteps(log[i].due, o.due, o.due - o.began)
    }

    /** The firing at hand is in phase with those before it. */
    twostate lemma FiresInPhase(log: seq<Outcome>, new o: Outcome)
      requires old(Renewed(log)) && TimersServed(old(tl.timers), o)
      ensures GoesOn(log, o)
    {
      hide NotStarted, InStep, WholeSteps;
      forall i |
        0 <= i < |log| && log[i].fired != null && log[i].fired == o.fired && NotStarted(log, i, |log|, o.fired)
        ensures SameInterval(log[i], o) && WholeSteps(log[i].due, o.due, o.due - o.began)
      {
        var t := log[i].fired;
        assert old(RunsOn(log[i], t));
        OneMore(log[i].due, o.began, t.interval);
      }
    }

    /** A timer that was in phase and has moved by whole intervals, or not at all, is in phase. */
    static lemma StaysInPhase(o: Outcome, began: nat, interval: nat, t: Timer)
      requires o.began <= o.due && interval == o.due - o.began && InStep(o.due, began, interval)
      requires t.interval == interval && (t.began == began || WholeSteps(began, t.began, interval))
      ensures RunsOn(o, t)
    {
      if t.began != began { FurtherOn(o.due, began, t.began, interval); }
    }

    static lemma JustFired(o: Outcome, t: Timer)
      requires t.interval > 0 && o.due == o.began + t.interval && WholeSteps(o.began, t.began, o.due - o.began)
      ensures o.due <= t.began && RunsOn(o, t)
    {
      OneLess(o.began, t.began, t.interval);
    }

    /** A freed timer does not come back. */
    twostate predicate NoneReturns(log: seq<Outcome>)
      reads tl
    {
      forall i :: 0 <= i < |log| && log[i].fired in tl.timers ==> log[i].fired in old(tl.timers)
    }

    static predicate DueBefore(log: seq<Outcome>, to: nat) {
      forall i :: 0 <= i < |log| && log[i].fired != null ==> log[i].due <= to
    }

    twostate lemma RenewedNext(log: seq<Outcome>, new o: Outcome)
      requires old(Renewed(log)) && TimersServed(old(tl.timers), o)
      requires NoneReturns(log) && DueBefore(log, old(tl.now))
      ensures Renewed(log + [o])
    {
      hide NotStarted, InStep;
      var l := log + [o];
      forall i: nat | i < |l| && l[i].fired != null && l[i].fired in tl.timers && l[i].fired.active
        ensures l[i].due <= l[i].fired.began && (NotStarted(l, i, |l|, l[i].fired) ==> RunsOn(l[i], l[i].fired))
      {
        var t := l[i].fired;
        if i < |log| {
          QuietPush(log, o, i, |log|, t);
          if NotStarted(l, i, |l|, t) {
            assert old(RunsOn(log[i], t));
            StaysInPhase(log[i], old(t.began), old(t.interval), t);
          }
        } else {
          JustFired(o, t);
        }
      }
    }

    twostate lemma TickRunsOnNext(log: seq<Outcome>, new o: Outcome)
      requires old(TickRunsOn(log)) && TickServed(o)
      ensures TickRunsOn(log + [o])
      ensures forall i :: 0 <= i < |log| && log[i].ticked && o.ticked && NotReset(log, i, |log|) ==>
        log[i].tickInterval == o.tickInterval && WholeSteps(log[i].tickDue, o.tickDue, o.tickInterval)
    {
      hide NotReset, InStep, WholeSteps;
      var l := log + [o];
      forall i | 0 <= i < |log| && log[i].ticked && NotReset(log, i, |log|)
        ensures o.ticked ==>
          log[i].tickInterval == o.tickInterval && WholeSteps(log[i].tickDue, o.tickDue, o.tickInterval)
        ensures !o.tickReset && o.ticked ==> InStep(log[i].tickDue, tl.tickBegan, tl.tickInterval)
      {
        if o.ticked {
          OneMore(log[i].tickDue, old(tl.tickBegan), o.tickInterval);
          WholeIsStep(log[i].tickDue, o.tickDue, o.tickInterval);
        }
      }
      forall i | 0 <= i < |l| && l[i].ticked && NotReset(l, i, |l|)
        ensures tl.tickSet && tl.tickInterval == l[i].tickInterval
        ensures InStep(l[i].tickDue, tl.tickBegan, tl.tickInterval)
      {
        if i < |log| {
          QuietPush(log, o, i, |log|, null);
        } else {
          LastNotReset(log, o);
          NoStep(o.tickDue, o.tickInterval);
        }
      }
    }

    static lemma LastNotReset(log: seq<Outcome>, o: Outcome)
      requires NotReset(log + [o], |log|, |log| + 1)
      ensures !o.tickReset
    {
      assert (log + [o])[|log|] == o;
    }

    /** Where a run that began on the given desk stands. */
    ghost predicate Going(rounds: seq<Round>, log: seq<Outcome>, start: Desk, from: nat, interval: nat)
      reads this, tl, tl.timers
    {
      && from <= tl.now && Orderly(log, from, tl.now) && Renewed(log) && TickRunsOn(log)
      && TickFrom(log, from, interval) && FirstTicks(log, from, interval)
      && StopsSoon(log) && (log != [] && StopsLoop(Flat(log[|log| - 1].logs)) ==> StopFlag in tl.flags)
      && Linked(rounds, log, start) && OnDesk() == if log == [] then start else log[|log| - 1].after
    }

    /** One more round of a run. */
    method NextRound(rounds: seq<Round>, ghost log: seq<Outcome>, n: nat, ghost start: Desk, ghost from: nat,
                     ghost interval: nat)
      returns (ghost o: Outcome)
      requires Inv() && Announced({}) && Going(rounds, log, start, from, interval) && n == |log| < |rounds|
      modifies this, tl, tl.timers
      ensures Inv() && (state != Stopped ==> Announced({})) && fresh(tl.timers - old(tl.timers))
      ensures Going(rounds, log + [o], start, from, interval)
      ensures state == Stopped <==> StopFlag in o.taken
      ensures old(pended) <= pended && old(ran) <= ran && (o.taken == {Pending} ==> ran == pended)
      ensures pended == old(pended) + Pended(Flat(o.logs))
    {
      hide Inv, Announced, InOrder, Apart, TimersInPhase, TickInPhase, NotStarted, NotReset, InStep, WholeSteps;
      hide FirstTicks, StopsLoop, Flat, RoundServed, OnDesk, Timely, Linked;
      o := RunOnce(rounds[n]);
      LinkedPush(rounds, log, start, o);
      TickFromNext(log, o, from, interval, old(tl.tickSet), old(tl.tickBegan), old(tl.tickInterval));
      InOrderPush(log, o, from, old(tl.now), tl.now);
      ApartPush(log, o);
      DueByNow(log, from, old(tl.now));
      FiresInPhase(log, o);
      TimersInPhasePush(log, o);
      RenewedNext(log, o);
      TickRunsOnNext(log, o);
      TickInPhasePush(log, o);
    }

    /** furi_event_loop_init_tick, and nothing has happened yet. */
    method StartRun(ghost rounds: seq<Round>)
      requires Inv() && Announced({})
      modifies tl`tickPrev, tl`tickBegan
      ensures Inv() && Announced({}) && Going(rounds, [], OnDesk(), tl.now, tl.tickInterval)
      ensures OnDesk() == old(if OnDesk().tickSet then OnDesk().(tickBegan := tl.now) else OnDesk())
    {
      hide TimerLoop.Inv, EventLoop.Wishes;
      hide Orderly, Renewed, TickRunsOn, TickFrom, FirstTicks, StopsSoon, Linked, StopsLoop, Flat;
      TickPositive();
      tl.InitTick();
      NoRounds(rounds, OnDesk(), tl.now, tl.tickInterval);
    }

    lemma NoRounds(rounds: seq<Round>, start: Desk, now: nat, interval: nat)
      requires tl.tickSet ==> tl.tickBegan == now && tl.tickInterval == interval > 0
      ensures Orderly([], now, now) && Renewed([]) && TickRunsOn([])
      ensures TickFrom([], now, interval) && FirstTicks([], now, interval) && StopsSoon([])
      ensures Linked(rounds, [], start)
    {
    }

    lemma GoingMeans(rounds: seq<Round>, log: seq<Outcome>, start: Desk, from: nat, interval: nat)
      requires Going(rounds, log, start, from, interval)
      ensures Orderly(log, from, tl.now) && FirstTicks(log, from, interval) && StopsSoon(log)
      ensures Linked(rounds, log, start) && (log != [] ==> OnDesk() == log[|log| - 1].after)
    {
    }

    static lemma DueByNow(log: seq<Outcome>, from: nat, to: nat)
      requires InOrder(log, from, to)
      ensures DueBefore(log, to)
    {
    }

    /** furi_event_loop_run, for as many rounds as are given or until it is stopped. */
    method Run(rounds: seq<Round>) returns (ghost log: seq<Outcome>)
      requires Inv() && Announced({})
      modifies this, tl, tl.timers
      ensures Inv() && (state != Stopped || rounds == [] ==> Announced({}))
      ensures |log| <= |rounds| && (log == [] <==> rounds == [])
      ensures forall i :: 0 <= i < |log| - 1 ==> StopFlag !in log[i].taken
      ensures log != [] ==> (state == Stopped <==> StopFlag in log[|log| - 1].taken)
      ensures state != Stopped ==> |log| == |rounds|
      ensures Orderly(log, old(tl.now), tl.now)
      // the first tick counts from the beginning of the run
      ensures old(tl.tickSet) ==> FirstTicks(log, old(tl.now), old(tl.tickInterval))
      ensures old(ran) <= ran <= pended && pended == old(pended) + PendedAll(log) && StopsSoon(log)
      // all that user code did: the desk goes from round to round
      ensures var start := old(OnDesk());
        Linked(rounds, log, if start.tickSet then start.(tickBegan := old(tl.now)) else start)
      ensures log != [] ==> OnDesk() == log[|log| - 1].after
      ensures (exists i :: 0 <= i < |log| && log[i].taken == {Pending}) ==> old(pended) <= ran
    {
      hide Inv, Announced, Orderly, FirstTicks, StopsSoon, PendedAll, Flat, Linked, OnDesk, Going;
      StartRun(rounds);
      ghost var start, interval := OnDesk(), tl.tickInterval;
      log := [];
      NonePended();
      var n := 0;
      while n < |rounds|
        invariant Inv() && Announced({}) && fresh(tl.timers - old(tl.timers)) && |log| == n <= |rounds|
        invariant n > 0 ==> state != Stopped
        invariant forall i :: 0 <= i < |log| ==> StopFlag !in log[i].taken
        invariant Going(rounds, log, start, old(tl.now), interval)
        invariant old(ran) <= ran && old(pended) <= pended && pended == old(pended) + PendedAll(log)
        invariant (exists i :: 0 <= i < |log| && log[i].taken == {Pending}) ==> old(pended) <= ran
      {
        ghost var o := NextRound(rounds, log, n, start, old(tl.now), interval);
        PendedPush(log, o);
        log := log + [o];
        n := n + 1;
        if state == Stopped {
          break;
        }
      }
      GoingMeans(rounds, log, start, old(tl.now), interval);
      RanPended();
    }

    static lemma NonePended()
      ensures PendedAll([]) == []
    {
    }

    lemma RanPended()
      requires Inv()
      ensures ran <= pended
    {
    }

    lemma TickPositive()
      requires tl.Inv()
      ensures tl.tickSet ==> tl.tickInterval > 0
    {
    }

    /** Without queued requests nobody has one. */
    lemma Idlers()
      requires tl.Inv()
      ensures tl.timerQueue == [] ==> forall t :: t in tl.timers ==> t.request == NoRequest
    {
    }
  }

  /**
    A single timer started with the longest interval, and its request carried out within one tick: the
    loop waits without limit although a timer runs.
   */
  method LongestTimer() returns (ticks: uint32, runs: bool)
    ensures runs && ticks == WAIT_FOREVER
  {
    hide TimerLoop.Inv, TimerLoop.Members, EventLoop.Clocks, Timer.Remaining;
    var loop := new EventLoop();
    var t := loop.tl.Alloc(false);
    loop.tl.StartTimer(t, WAIT_FOREVER);
    var timer := loop.tl.ProcessStartAtOnce();
    assert forall u :: u in loop.tl.timers ==> u == timer;
    runs := timer.active;
    ticks := loop.TicksToSleep();
  }

  lemma LastKept(q: seq<Script>, before: seq<Script>)
    requires before != [] && EndsWith(q, before)
    ensures q != [] && q[|q| - 1] == before[|before| - 1]
  {
    assert q[|q| - |before|..][|before| - 1] == before[|before| - 1];
  }
}
