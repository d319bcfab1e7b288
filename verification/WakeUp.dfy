/**
  One message queue subscribed to by one event loop, with any number of threads
  putting, getting and resetting.  Steps are the critical sections and the single
  atomic operations of the code; a run is any interleaving of them.  Changing the
  queue and notifying the loop are two steps, so a thread in between owes a notice.
 */
module WakeUp {
  import opened EventTimers

  datatype Direction = In | Out

  /** Where the loop's thread is. */
  datatype Pc =
    | AtWait          // about to wait on the notification word
    | Popping         // took the event bit, has not looked at the waiting list
    | Polling         // holds the item, about to read the level
    | InCallback      // the user callback runs
    | Pushing         // the callback asked to be called again later
    | Signalling      // put the item back, has not set the event bit
    | Restoring       // about to give back the other bits it took
    | Elsewhere       // took only timer or pending bits
    | Ended           // took the stop bit

  datatype State = State(
    capacity: nat, count: nat,
    direction: Direction,
    oweIn: nat, oweOut: nat,
    listed: nat,                  // occurrences of the item in the waiting list
    flags: set<Flag>,             // notification word
    inHand: set<Flag>,            // bits taken by the last wait
    pc: Pc)

  datatype Action =
    | Put | Get | Reset           // the queue changes, the notice is owed
    | NotifyIn | NotifyOut        // furi_event_loop_link_notify
    | SetBit(flag: Flag)          // stop, timer request or pended callback
    | Take | Pop | Poll | Return(more: bool) | Push | Signal | Restore

  /** furi_message_queue_event_loop_get_level. */
  function Level(s: State): nat
    requires s.count <= s.capacity
  {
    if s.direction.In? then s.count else s.capacity - s.count
  }

  /** Notices of the subscribed kind still to come. */
  function Owed(s: State): nat {
    if s.direction.In? then s.oweIn else s.oweOut
  }

  /** furi_event_loop_item_notify inside the critical section of link_notify. */
  function Notified(s: State): State {
    s.(listed := if s.listed == 0 then s.listed + 1 else s.listed, flags := s.flags + {Flag.Event})
  }

  predicate Enabled(s: State, a: Action) {
    match a
    case Put => s.count < s.capacity
    case Get => 0 < s.count <= s.capacity
    case Reset => true
    case NotifyIn => s.oweIn > 0
    case NotifyOut => s.oweOut > 0
    case SetBit(flag) => flag != Flag.Event
    case Take => s.pc == AtWait && s.flags != {}
    case Pop => s.pc == Popping
    case Poll => s.pc == Polling
    case Return(_) => s.pc == InCallback
    case Push => s.pc == Pushing
    case Signal => s.pc == Signalling
    case Restore => s.pc == Restoring || s.pc == Elsewhere
  }

  function Step(s: State, a: Action): State
    requires s.count <= s.capacity && Enabled(s, a)
  {
    match a
    case Put => s.(count := s.count + 1, oweIn := s.oweIn + 1)
    case Get => s.(count := s.count - 1, oweOut := s.oweOut + 1)
    case Reset => s.(count := 0, oweOut := s.oweOut + 1)
    case NotifyIn =>
      var t := s.(oweIn := s.oweIn - 1);
      if s.direction.In? then Notified(t) else t
    case NotifyOut =>
      var t := s.(oweOut := s.oweOut - 1);
      if s.direction.Out? then Notified(t) else t
    case SetBit(flag) => s.(flags := s.flags + {flag})
    case Take =>
      s.(flags := {}, inHand := s.flags,
         pc := if StopFlag in s.flags then Ended else if Flag.Event in s.flags then Popping else Elsewhere)
    case Pop =>
      if s.listed > 0 then s.(listed := s.listed - 1, pc := Polling) else s.(pc := Restoring)
    case Poll => s.(pc := if Level(s) == 0 then Restoring else InCallback)
    case Return(more) => s.(pc := if more then Polling else Pushing)
    case Push => s.(listed := if s.listed == 0 then s.listed + 1 else s.listed, pc := Signalling)
    case Signal => s.(flags := s.flags + {Flag.Event}, pc := Restoring)
    case Restore =>
      // the pending branch gives nothing back: it is reached only with no other bit in hand
      var back := if s.pc == Restoring then s.inHand - {Flag.Event}
                  else if TimerFlag in s.inHand then s.inHand - {TimerFlag} else {};
      s.(flags := s.flags + back, inHand := {}, pc := AtWait)
  }

  /** Right after subscribing: the item is announced at once when the level is already nonzero. */
  function Subscribed(capacity: nat, count: nat, direction: Direction, oweIn: nat, oweOut: nat): State
    requires count <= capacity
  {
    var s := State(capacity, count, direction, oweIn, oweOut, 0, {}, {}, AtWait);
    if Level(s) > 0 then Notified(s) else s
  }

  // ----------------------------------------------------------- the invariant

  predicate Processed(s: State) {
    s.pc == Polling || s.pc == InCallback || s.pc == Pushing
  }

  /** The event bit is set, or the loop is on its way to the list or to setting it. */
  predicate Signalled(s: State) {
    Flag.Event in s.flags || s.pc == Popping || s.pc == Signalling
  }

  predicate Inv(s: State) {
    && s.count <= s.capacity
    && s.listed <= 1
    && (s.pc == Signalling ==> s.listed == 1)
    && (s.pc != Ended && s.listed == 1 ==> Signalled(s))
    && (s.pc != Ended && Level(s) > 0 ==> Processed(s) || s.listed == 1 || Owed(s) > 0)
  }

  lemma StepInv(s: State, a: Action)
    requires Inv(s) && Enabled(s, a)
    ensures Inv(Step(s, a))
  {
  }

  predicate LegalRun(s: State, run: seq<Action>)
    decreases |run|
  {
    s.count <= s.capacity &&
    (run == [] || (Enabled(s, run[0]) && LegalRun(Step(s, run[0]), run[1..])))
  }

  function Run(s: State, run: seq<Action>): State
    requires LegalRun(s, run)
    decreases |run|
  {
    if run == [] then s else Run(Step(s, run[0]), run[1..])
  }

  /** A run may be continued where it ends. */
  lemma {:induction false} RunConcat(s: State, a: seq<Action>, b: seq<Action>)
    requires LegalRun(s, a) && LegalRun(Run(s, a), b)
    ensures LegalRun(s, a + b) && Run(s, a + b) == Run(Run(s, a), b)
    decreases |a|
  {
    hide Step;
    if a == [] {
      assert a + b == b;
    } else {
      RunConcat(Step(s, a[0]), a[1..], b);
      assert (a + b)[1..] == a[1..] + b;
    }
  }

  lemma RunOne(s: State, a: Action)
    requires s.count <= s.capacity && Enabled(s, a) && Step(s, a).count <= s.capacity == Step(s, a).capacity
    ensures LegalRun(s, [a]) && Run(s, [a]) == Step(s, a)
  {
    assert [a][1..] == [];
    assert LegalRun(Step(s, a), []) && Run(Step(s, a), []) == Step(s, a);
  }

  lemma {:induction false} RunInv(s: State, run: seq<Action>)
    requires Inv(s) && LegalRun(s, run)
    ensures Inv(Run(s, run))
    decreases |run|
  {
    hide Inv, Step;
    if run != [] {
      StepInv(s, run[0]);
      RunInv(Step(s, run[0]), run[1..]);
    }
  }

  /**
    No wake-up is lost: in every state of every run up to the stop, a nonzero level means the item
    is being processed, or is listed and signalled, or some thread still owes its notice; and the
    item is never listed twice.
   */
  lemma NoLostWakeUp(capacity: nat, count: nat, direction: Direction, oweIn: nat, oweOut: nat, run: seq<Action>)
    requires count <= capacity && LegalRun(Subscribed(capacity, count, direction, oweIn, oweOut), run)
    ensures var s := Run(Subscribed(capacity, count, direction, oweIn, oweOut), run);
      && s.listed <= 1 && s.count <= s.capacity
      && (s.pc != Ended && Level(s) > 0 ==> Processed(s) || (s.listed == 1 && Signalled(s)) || Owed(s) > 0)
  {
    RunInv(Subscribed(capacity, count, direction, oweIn, oweOut), run);
  }

  /** A loop that goes to sleep with an empty notification word leaves nothing behind that nobody will announce. */
  lemma SleepsOnlyWhenIdle(s: State)
    requires Inv(s) && s.pc == AtWait && s.flags == {}
    ensures Level(s) > 0 ==> Owed(s) > 0
  {
  }

  /** A step of the loop's own thread. */
  predicate LoopStep(a: Action) {
    a.Take? || a.Pop? || a.Poll? || a.Return? || a.Push? || a.Signal? || a.Restore?
  }

  function LoopSteps(run: seq<Action>): nat {
    if run == [] then 0 else (if LoopStep(run[0]) then 1 else 0) + LoopSteps(run[1..])
  }

  /** The loop's own steps of a run. */
  function LoopPart(run: seq<Action>): seq<Action> {
    if run == [] then [] else
    LoopPart(run[..|run| - 1]) + if LoopStep(run[|run| - 1]) then [run[|run| - 1]] else []
  }

  lemma LoopPartPush(run: seq<Action>, a: Action)
    ensures LoopPart(run + [a]) == LoopPart(run) + if LoopStep(a) then [a] else []
  {
    assert (run + [a])[..|run|] == run;
  }

  /** The callback asked k times to go on at once. */
  function Again(k: nat): seq<Action> {
    if k == 0 then [] else Again(k - 1) + [Poll, Return(true)]
  }

  /** The loop over one item ends with a level of zero, or with the callback asking for a later call. */
  ghost predicate IsItemLoop(steps: seq<Action>) {
    exists k :: steps == Again(k) + [Poll] || steps == Again(k) + [Poll, Return(false), Push, Signal]
  }

  /** The loop's steps from the event bit to the next wait. */
  ghost predicate IsEventBranch(steps: seq<Action>) {
    steps == [Pop, Restore] || exists item :: IsItemLoop(item) && steps == [Pop] + item + [Restore]
  }

  /** The level never falls to zero, and nobody stops the loop. */
  predicate LevelStays(s: State, run: seq<Action>)
    requires LegalRun(s, run)
    decreases |run|
  {
    Level(s) > 0 &&
    (run == [] || (run[0] != SetBit(StopFlag) && LevelStays(Step(s, run[0]), run[1..])))
  }

  /** The loop has taken n steps towards the callback. */
  predicate Underway(s: State, n: nat) {
    match n
    case 0 => s.pc == AtWait && s.listed > 0 && Flag.Event in s.flags && StopFlag !in s.flags
    case 1 => s.pc == Popping && s.listed > 0
    case 2 => s.pc == Polling
    case 3 => s.pc == InCallback
    case _ => false
  }

  /** Where the loop always can go on. */
  lemma LoopCanStep(s: State, n: nat)
    requires Underway(s, n) && s.count <= s.capacity
    ensures exists a :: LoopStep(a) && Enabled(s, a)
  {
    match n
    case 0 => assert Enabled(s, Take);
    case 1 => assert Enabled(s, Pop);
    case 2 => assert Enabled(s, Poll);
    case 3 => assert Enabled(s, Return(true));
  }

  lemma {:induction false} StaysUnderway(s: State, run: seq<Action>, n: nat)
    requires LegalRun(s, run) && LevelStays(s, run) && Underway(s, n) && n + LoopSteps(run) <= 3
    ensures Underway(Run(s, run), n + LoopSteps(run))
    decreases |run|
  {
    if run != [] {
      StaysUnderway(Step(s, run[0]), run[1..], if LoopStep(run[0]) then n + 1 else n);
    }
  }

  /**
    With nothing owed a nonzero level reaches the callback: in every run that interleaves any steps of
    other threads while the level stays nonzero, the loop can always go on until it has taken three
    steps, and then it is in the callback.
   */
  lemma LevelIsServed(s: State, run: seq<Action>)
    requires Inv(s) && s.pc == AtWait && Owed(s) == 0 && StopFlag !in s.flags
    requires LegalRun(s, run) && LevelStays(s, run) && LoopSteps(run) <= 3
    ensures LoopSteps(run) == 3 ==> Run(s, run).pc == InCallback
    ensures exists a :: LoopStep(a) && Enabled(Run(s, run), a)
  {
    hide Run, LevelStays, LoopSteps;
    assert Level(s) > 0 by { LevelAtStart(s, run); }
    StaysUnderway(s, run, 0);
    RunInv(s, run);
    LoopCanStep(Run(s, run), LoopSteps(run));
  }

  lemma LevelAtStart(s: State, run: seq<Action>)
    requires LegalRun(s, run) && LevelStays(s, run)
    ensures Level(s) > 0
  {
  }

  /** The branch a wake-up takes serves at most one of the other sources. */
  predicate Serves(s: State, a: Action, f: Flag) {
    a == Restore && s.pc == Elsewhere && (f == TimerFlag || TimerFlag !in s.inHand)
  }

  /**
    A timer or pending bit is cleared only by the branch that serves it: until then it stays in the
    word or in hand, however many rounds are spent on the queue in between.
   */
  lemma {:induction false} OtherBitsSurvive(s: State, run: seq<Action>, f: Flag)
    requires LegalRun(s, run) && (f == TimerFlag || f == Pending)
    requires f in s.flags || (f in s.inHand && s.pc != AtWait)
    requires forall i :: 0 <= i < |run| ==> LegalRun(s, run[..i]) && !Serves(Run(s, run[..i]), run[i], f)
    ensures var t := Run(s, run); f in t.flags || (f in t.inHand && t.pc != AtWait)
    decreases |run|
  {
    if run != [] {
      var t := Step(s, run[0]);
      assert run[..0] == [] && !Serves(Run(s, run[..0]), run[0], f);
      assert f in t.flags || (f in t.inHand && t.pc != AtWait);
      forall i | 0 <= i < |run[1..]|
        ensures LegalRun(t, run[1..][..i]) && !Serves(Run(t, run[1..][..i]), run[1..][i], f)
      {
        assert run[..i + 1][0] == run[0] && run[..i + 1][1..] == run[1..][..i];
        assert LegalRun(s, run[..i + 1]) && !Serves(Run(s, run[..i + 1]), run[i + 1], f);
      }
      OtherBitsSurvive(t, run[1..], f);
    }
  }
}
