/**
  What user code asks of an event loop.  A callback is a script of calls to the loop's
  interface; a log lists the calls it came to make.  This file says, without the loop,
  what a log does to the part of the loop that user code can reach.
 */
module UserCode {
  import opened MachineTypes
  import opened EventTimers

  datatype Call =
    | StartCall(timer: Timer, interval: uint32)
    | RestartCall(timer: Timer)
    | StopCall(timer: Timer)
    | FreeCall(timer: Timer)
    | AllocCall(periodic: bool)
    | PendCall(callback: seq<Call>)
    | TickCall(tick: uint32, hasCallback: bool)
    | StopLoopCall

  type Script = seq<Call>

  /** A call that was made, the timer it allocated if it did, and the moment. */
  datatype Deed = Deed(call: Call, made: Timer?, at: nat)

  type Log = seq<Deed>

  datatype Wish = Wish(request: Request, interval: uint32, next: uint32)

  /** All that user code can change, but for the time. */
  datatype Desk = Desk(
    wishes: map<Timer, Wish>, queue: seq<Timer>, flags: set<Flag>, pended: seq<Script>,
    tickSets: nat, tickSet: bool, tickInterval: uint32, tickBegan: nat)

  /** A call that names a timer. */
  predicate OnTimer(c: Call) {
    c.StartCall? || c.RestartCall? || c.StopCall? || c.FreeCall?
  }

  predicate Names(c: Call, t: Timer) {
    OnTimer(c) && c.timer == t
  }

  /** A call that says how long a timer's next interval is. */
  predicate Starts(c: Call, t: Timer) {
    (c.StartCall? || c.RestartCall?) && c.timer == t
  }

  predicate StopsLoop(log: Log) {
    exists i :: 0 <= i < |log| && log[i].call.StopLoopCall?
  }

  /**
    Calls that user code must not make: on a freed timer or a tick of no length, which stop the
    device, and a start of a periodic timer with interval 0, which is outside this model.
   */
  predicate Refused(wishes: map<Timer, Wish>, c: Call) {
    match c
    case AllocCall(_) => false
    case PendCall(_) => false
    case StopLoopCall => false
    case TickCall(tick, hasCallback) => hasCallback && tick == 0
    case StartCall(t, interval) => t !in wishes || wishes[t].request.Free? || (t.periodic && interval == 0)
    case RestartCall(t) => t !in wishes || wishes[t].request.Free? || (t.periodic && wishes[t].interval == 0)
    case StopCall(t) => t !in wishes || wishes[t].request.Free?
    case FreeCall(t) => t !in wishes || wishes[t].request.Free?
  }

  /** A request is queued at the back, where an older one leaves the queue. */
  function Asked(v: Desk, t: Timer, w: Wish): Desk {
    v.(wishes := v.wishes[t := w], queue := TimerLoop.Without(v.queue, t) + [t], flags := v.flags + {TimerFlag})
  }

  function Requested(c: Call): Request
    requires OnTimer(c)
  {
    match c
    case StartCall(_, _) => Start
    case RestartCall(_) => Start
    case StopCall(_) => Request.Stop
    case FreeCall(_) => Request.Free
  }

  /** A start or a restart sets the next interval. */
  function Asks(c: Call, w: Wish): Wish
    requires OnTimer(c)
  {
    Wish(Requested(c), w.interval,
         if c.StartCall? then c.interval else if c.RestartCall? then w.interval else w.next)
  }

  function WishOf(v: Desk, t: Timer): Wish {
    if t in v.wishes then v.wishes[t] else Wish(NoRequest, 0, 0)
  }

  function Effect(v: Desk, d: Deed): Desk {
    match d.call
    case StartCall(t, _) => Asked(v, t, Asks(d.call, WishOf(v, t)))
    case RestartCall(t) => Asked(v, t, Asks(d.call, WishOf(v, t)))
    case StopCall(t) => Asked(v, t, Asks(d.call, WishOf(v, t)))
    case FreeCall(t) => Asked(v, t, Asks(d.call, WishOf(v, t)))
    case AllocCall(_) =>
      if d.made == null then v else v.(wishes := v.wishes[d.made := Wish(NoRequest, 0, 0)])
    case PendCall(callback) => v.(pended := v.pended + [callback], flags := v.flags + {Pending})
    case TickCall(tick, hasCallback) =>
      v.(tickSets := v.tickSets + 1, tickSet := hasCallback, tickInterval := tick, tickBegan := d.at)
    case StopLoopCall => v.(flags := v.flags + {StopFlag})
  }

  function Effects(v: Desk, log: Log): Desk {
    if log == [] then v else Effect(Effects(v, log[..|log| - 1]), log[|log| - 1])
  }

  /** A call that could be made there; an allocation makes a timer of the right kind that was not there. */
  predicate Possible(v: Desk, d: Deed) {
    && !Refused(v.wishes, d.call)
    && (d.call.AllocCall? ==> d.made != null && d.made !in v.wishes && d.made.periodic == d.call.periodic)
  }

  predicate AllPossible(v: Desk, log: Log) {
    log == [] ||
    (AllPossible(v, log[..|log| - 1]) && Possible(Effects(v, log[..|log| - 1]), log[|log| - 1]))
  }

  /** The log is what the script has come to so far. */
  predicate Underway(v: Desk, script: Script, log: Log) {
    && |log| <= |script|
    && (forall i :: 0 <= i < |log| ==> log[i].call == script[i])
    && AllPossible(v, log)
  }

  /** The log is what the script comes to: all its calls, or those before the first refused one. */
  predicate Follows(v: Desk, script: Script, log: Log) {
    Underway(v, script, log) && (|log| < |script| ==> Refused(Effects(v, log).wishes, script[|log|]))
  }

  function Flat(logs: seq<Log>): Log {
    if logs == [] then [] else Flat(logs[..|logs| - 1]) + logs[|logs| - 1]
  }

  /** One script after the other. */
  predicate AllFollow(v: Desk, scripts: seq<Script>, logs: seq<Log>) {
    |scripts| == |logs| && forall i :: 0 <= i < |logs| ==> Follows(Effects(v, Flat(logs[..i])), scripts[i], logs[i])
  }

  predicate Timely(log: Log, from: nat, to: nat) {
    forall i :: 0 <= i < |log| ==> from <= log[i].at <= to
  }

  lemma TimelyConcat(a: Log, b: Log, from: nat, now: nat, to: nat)
    requires Timely(a, from, now) && Timely(b, now, to) && from <= now <= to
    ensures Timely(a + b, from, to)
  {
  }

  lemma TimelyPush(log: Log, d: Deed, from: nat, now: nat, to: nat)
    requires Timely(log, from, now) && now <= d.at <= to && from <= now
    ensures Timely(log + [d], from, to)
  {
  }

  /** The callbacks the log pended, in order. */
  function Pended(log: Log): seq<Script> {
    if log == [] then [] else
    var before := Pended(log[..|log| - 1]);
    var c := log[|log| - 1].call;
    if c.PendCall? then before + [c.callback] else before
  }

  // ----------------------------------------------------------- composition

  lemma OneMoreDeed(v: Desk, log: Log, d: Deed)
    ensures Effects(v, log + [d]) == Effect(Effects(v, log), d)
    ensures AllPossible(v, log + [d]) <==> AllPossible(v, log) && Possible(Effects(v, log), d)
    ensures Pended(log + [d]) == Pended(log) + if d.call.PendCall? then [d.call.callback] else []
  {
    hide Effect, Possible;
    assert (log + [d])[..|log|] == log;
  }

  lemma UnderwayPush(v: Desk, script: Script, log: Log, d: Deed)
    requires Underway(v, script, log) && |log| < |script| && d.call == script[|log|]
    requires Possible(Effects(v, log), d)
    ensures Underway(v, script, log + [d]) && Effects(v, log + [d]) == Effect(Effects(v, log), d)
  {
    hide Effect, Possible, Effects, AllPossible;
    OneMoreDeed(v, log, d);
  }

  lemma {:induction false} EffectsConcat(v: Desk, a: Log, b: Log)
    ensures Effects(v, a + b) == Effects(Effects(v, a), b)
    decreases |b|
  {
    hide Effect;
    if b == [] {
      assert a + b == a;
    } else {
      var c, d := b[..|b| - 1], b[|b| - 1];
      EffectsConcat(v, a, c);
      assert a + b == a + c + [d];
      OneMoreDeed(v, a + c, d);
    }
  }

  lemma {:induction false} PendedConcat(a: Log, b: Log)
    ensures Pended(a + b) == Pended(a) + Pended(b)
    decreases |b|
  {
    if b == [] {
      assert a + b == a;
    } else {
      assert (a + b)[..|a + b| - 1] == a + b[..|b| - 1];
      PendedConcat(a, b[..|b| - 1]);
    }
  }

  lemma FlatPush(logs: seq<Log>, log: Log)
    ensures Flat(logs + [log]) == Flat(logs) + log
  {
    assert (logs + [log])[..|logs|] == logs;
  }

  lemma FlatOne(log: Log)
    ensures Flat([log]) == log
  {
    FlatPush([], log);
  }

  lemma AllFollowPush(v: Desk, scripts: seq<Script>, logs: seq<Log>, script: Script, log: Log)
    requires AllFollow(v, scripts, logs) && Follows(Effects(v, Flat(logs)), script, log)
    ensures AllFollow(v, scripts + [script], logs + [log])
  {
    hide Follows, Effects, Flat;
    var ls, ss := logs + [log], scripts + [script];
    forall i | 0 <= i < |ls| ensures Follows(Effects(v, Flat(ls[..i])), ss[i], ls[i]) {
      if i < |logs| {
        assert ls[..i] == logs[..i];
      } else {
        assert ls[..i] == logs;
      }
    }
  }

  /**
    A call is refused only for a timer that is not there or on its way out, a start that gives a periodic
    timer no interval, or a tick callback without one.  Other calls are made.
   */
  lemma RefusedIff(wishes: map<Timer, Wish>, c: Call)
    ensures OnTimer(c) && c.timer !in wishes ==> Refused(wishes, c)
    ensures OnTimer(c) && c.timer in wishes ==> (Refused(wishes, c) <==>
      || wishes[c.timer].request == Request.Free
      || (c.timer.periodic && Requested(c) == Start && Asks(c, wishes[c.timer]).next == 0))
    ensures c.TickCall? ==> (Refused(wishes, c) <==> c.hasCallback && c.tick == 0)
    ensures Refused(wishes, c) ==> OnTimer(c) || c.TickCall?
  {
  }

  /** A script whose calls neither name a timer nor set the tick is carried out to its end. */
  lemma FollowedToTheEnd(v: Desk, script: Script, log: Log)
    requires Follows(v, script, log)
    requires forall i :: 0 <= i < |script| ==> !OnTimer(script[i]) && !script[i].TickCall?
    ensures |log| == |script|
  {
    hide Refused, Effects;
    if |log| < |script| { RefusedIff(Effects(v, log).wishes, script[|log|]); }
  }

  // ---------------------------------------------------------- what a log does

  /** The pended callbacks join the queue in the order of the calls; a stop call sets the stop bit. */
  lemma {:induction false} PendsAndStops(v: Desk, log: Log)
    ensures Effects(v, log).pended == v.pended + Pended(log)
    ensures StopFlag in Effects(v, log).flags <==> StopFlag in v.flags || StopsLoop(log)
    decreases |log|
  {
    if log != [] {
      var n := |log| - 1;
      var before := log[..n];
      PendsAndStops(v, before);
      if StopsLoop(log) && log[n].call != StopLoopCall {
        var i :| 0 <= i < |log| && log[i].call.StopLoopCall?;
        assert before[i].call.StopLoopCall?;
      }
    }
  }

  /** Flags and pended callbacks only join, and what is queued is announced. */
  lemma {:induction false} OnlyJoins(v: Desk, log: Log)
    ensures var w := Effects(v, log);
      && v.flags <= w.flags && v.pended <= w.pended
      && (w.queue != v.queue ==> TimerFlag in w.flags) && (w.pended != v.pended ==> Pending in w.flags)
    decreases |log|
  {
    hide Effect;
    if log != [] {
      OnlyJoins(v, log[..|log| - 1]);
      EffectJoins(Effects(v, log[..|log| - 1]), log[|log| - 1]);
    }
  }

  lemma EffectJoins(v: Desk, d: Deed)
    ensures var w := Effect(v, d);
      && v.flags <= w.flags && v.pended <= w.pended
      && (w.queue != v.queue ==> TimerFlag in w.flags) && (w.pended != v.pended ==> Pending in w.flags)
  {
  }

  /** No timer leaves, and its interval stays. */
  lemma {:induction false} TimersStay(v: Desk, log: Log, t: Timer)
    requires AllPossible(v, log) && t in v.wishes
    ensures t in Effects(v, log).wishes && Effects(v, log).wishes[t].interval == v.wishes[t].interval
    decreases |log|
  {
    hide Refused;
    if log != [] { TimersStay(v, log[..|log| - 1], t); }
  }

  lemma EffectKeeps(v: Desk, d: Deed, t: Timer)
    requires Possible(v, d) && t in v.wishes && !Names(d.call, t)
    ensures t in Effect(v, d).wishes && Effect(v, d).wishes[t] == v.wishes[t]
  {
    hide Refused;
  }

  lemma EffectTicks(v: Desk, d: Deed)
    ensures var w, c := Effect(v, d), d.call;
      if c.TickCall? then
        w.tickSet == c.hasCallback && w.tickInterval == c.tick && w.tickBegan == d.at && w.tickSets == v.tickSets + 1
      else
        w.tickSet == v.tickSet && w.tickInterval == v.tickInterval && w.tickBegan == v.tickBegan
        && w.tickSets == v.tickSets
  {
  }

  /** The last call on a timer decides its request. */
  lemma {:induction false} LastCallDecides(v: Desk, log: Log, t: Timer, i: nat)
    requires AllPossible(v, log) && t in v.wishes
    requires i < |log| && Names(log[i].call, t) && forall j :: i < j < |log| ==> !Names(log[j].call, t)
    ensures t in Effects(v, log).wishes && Effects(v, log).wishes[t].request == Requested(log[i].call)
    decreases |log|
  {
    hide Refused, Possible;
    var n := |log| - 1;
    if i < n {
      hide Effect;
      assert forall j :: 0 <= j < n ==> log[..n][j] == log[j];
      LastCallDecides(v, log[..n], t, i);
      EffectKeeps(Effects(v, log[..n]), log[n], t);
    } else {
      TimersStay(v, log[..n], t);
    }
  }

  /** A timer no call names keeps its request and its next interval. */
  lemma {:induction false} NoCallKeeps(v: Desk, log: Log, t: Timer)
    requires AllPossible(v, log) && t in v.wishes && forall j :: 0 <= j < |log| ==> !Names(log[j].call, t)
    ensures t in Effects(v, log).wishes && Effects(v, log).wishes[t] == v.wishes[t]
    decreases |log|
  {
    hide Possible, Effect;
    if log != [] {
      var n := |log| - 1;
      NoCallKeeps(v, log[..n], t);
      EffectKeeps(Effects(v, log[..n]), log[n], t);
    }
  }

  /** The last start or restart decides the next interval, also through later stops. */
  lemma {:induction false} LastStartDecides(v: Desk, log: Log, t: Timer, i: nat)
    requires AllPossible(v, log) && t in v.wishes
    requires i < |log| && Starts(log[i].call, t) && forall j :: i < j < |log| ==> !Starts(log[j].call, t)
    ensures t in Effects(v, log).wishes
    ensures Effects(v, log).wishes[t].next
      == if log[i].call.StartCall? then log[i].call.interval else v.wishes[t].interval
    decreases |log|
  {
    hide Refused;
    var n := |log| - 1;
    TimersStay(v, log[..n], t);
    if i < n {
      assert forall j :: 0 <= j < n ==> log[..n][j] == log[j];
      LastStartDecides(v, log[..n], t, i);
    }
  }

  /** The last setting of the tick decides it, and it begins at the moment of that call. */
  lemma {:induction false} LastTickDecides(v: Desk, log: Log, i: nat)
    requires i < |log| && log[i].call.TickCall? && forall j :: i < j < |log| ==> !log[j].call.TickCall?
    ensures var w, c := Effects(v, log), log[i].call;
      w.tickSet == c.hasCallback && w.tickInterval == c.tick && w.tickBegan == log[i].at && w.tickSets > v.tickSets
    decreases |log|
  {
    hide Effect;
    var n := |log| - 1;
    var before := log[..n];
    EffectTicks(Effects(v, before), log[n]);
    if i < n {
      assert forall j :: 0 <= j < n ==> before[j] == log[j];
      LastTickDecides(v, before, i);
    } else {
      NoTickKeeps(v, before);
    }
  }

  /** Without one it is as it was. */
  lemma {:induction false} NoTickKeeps(v: Desk, log: Log)
    ensures var w := Effects(v, log);
      w.tickSets >= v.tickSets && (w.tickSets == v.tickSets <==> forall i :: 0 <= i < |log| ==> !log[i].call.TickCall?)
    ensures var w := Effects(v, log);
      w.tickSets == v.tickSets ==>
        w.tickSet == v.tickSet && w.tickInterval == v.tickInterval && w.tickBegan == v.tickBegan
    decreases |log|
  {
    hide Effect;
    if log != [] {
      var n := |log| - 1;
      NoTickKeeps(v, log[..n]);
      EffectTicks(Effects(v, log[..n]), log[n]);
      assert log == log[..n] + [log[n]];
    }
  }

  /** A timer allocated by the log is new, of the kind asked for, and stays. */
  lemma {:induction false} AllocatedStays(v: Desk, log: Log, i: nat)
    requires AllPossible(v, log) && i < |log| && log[i].call.AllocCall?
    ensures var t := log[i].made;
      t != null && t !in v.wishes && t in Effects(v, log).wishes && t.periodic == log[i].call.periodic
    decreases |log|
  {
    hide Refused;
    var n := |log| - 1;
    if i < n {
      AllocatedStays(v, log[..n], i);
    } else {
      var t: Timer := log[i].made;
      if t in v.wishes { TimersStay(v, log[..n], t); }
    }
  }
}
