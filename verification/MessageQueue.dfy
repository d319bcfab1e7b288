/**
  The code behind the steps of `WakeUp`: a message queue, its link to the loop's item,
  and the loop's side of the waiting list.
 */
module MessageQueues {
  import opened EventTimers
  import opened WakeUp

  datatype Status = Ok | ErrorTimeout | ErrorResource | ErrorParameter | ErrorISR

  type Message = int

  /** Steps that other threads try to take at one point of the loop's code, with the messages they put. */
  type Interference = seq<(Action, Message)>

  /** The subscribed item; it is told apart only by its identity. */
  class Item {
    constructor () {}
  }

  class Subscription {
    const capacity: nat
    const direction: Direction
    const item: Item
    var messages: seq<Message>
    var waitingList: seq<Item>
    var flags: set<Flag>
    // what the interleaving adds
    var oweIn: nat
    var oweOut: nat
    var inHand: set<Flag>
    var pc: Pc

    /** Only this item uses the list. */
    ghost predicate Valid()
      reads this
    {
      |messages| <= capacity && forall i :: 0 <= i < |waitingList| ==> waitingList[i] == item
    }

    function Current(): State
      reads this
    {
      State(capacity, |messages|, direction, oweIn, oweOut, |waitingList|, flags, inHand, pc)
    }

    /** furi_event_loop_message_queue_subscribe on a queue that may hold messages already. */
    constructor (capacity: nat, messages: seq<Message>, direction: Direction)
      requires |messages| <= capacity
      ensures Valid() && Current() == Subscribed(capacity, |messages|, direction, 0, 0)
    {
      this.capacity, this.direction, this.messages := capacity, direction, messages;
      var i := new Item();
      item := i;
      waitingList, flags := [], {};
      oweIn, oweOut, inHand, pc := 0, 0, {}, AtWait;
      new;
      var level := GetLevel();
      if level > 0 {
        ItemNotify();
      }
    }

    method GetLevel() returns (level: nat)
      requires Valid()
      ensures level == Level(Current())
      ensures if direction.In? then level == |messages| else level + |messages| == capacity
    {
      level := if direction.In? then |messages| else capacity - |messages|;
    }

    /** furi_event_loop_item_notify under the critical section of its caller. */
    method ItemNotify()
      requires Valid()
      modifies this`waitingList, this`flags
      ensures Valid() && Current() == Notified(old(Current()))
    {
      if item !in waitingList {
        waitingList := waitingList + [item];
      }
      flags := flags + {Flag.Event};
      assert old(|waitingList|) > 0 ==> old(waitingList)[0] == item;
    }

    /** furi_event_loop_link_notify for a notice of the given kind. */
    method LinkNotify(event: Direction)
      requires Valid() && (if event.In? then oweIn > 0 else oweOut > 0)
      modifies this`waitingList, this`flags, this`oweIn, this`oweOut
      ensures Valid() && Current() == Step(old(Current()), if event.In? then NotifyIn else NotifyOut)
    {
      if event.In? { oweIn := oweIn - 1; } else { oweOut := oweOut - 1; }
      if event == direction {
        ItemNotify();
      }
    }

    /** furi_message_queue_put; `message` is absent for a NULL pointer. */
    method Put(message: seq<Message>, timeout: nat, inIrq: bool) returns (status: Status)
      requires Valid() && |message| <= 1
      modifies this`messages, this`waitingList, this`flags, this`oweIn, this`oweOut
      ensures Valid()
      ensures status == Ok <==> message != [] && (inIrq ==> timeout == 0) && |old(messages)| < capacity
      ensures status == Ok ==> messages == old(messages) + message
      ensures status == Ok ==> Current() == Step(Step(old(Current()), Action.Put), NotifyIn)
      ensures status != Ok ==> Current() == old(Current()) && messages == old(messages)
      ensures status == ErrorParameter <==> message == [] || (inIrq && timeout != 0)
      // a full queue: after waiting in vain, or at once
      ensures status == ErrorTimeout <==>
        message != [] && !inIrq && |old(messages)| == capacity && timeout != 0
      ensures status == ErrorResource <==> message != [] && |old(messages)| == capacity && timeout == 0
    {
      status := Ok;
      if message == [] || (inIrq && timeout != 0) {
        status := ErrorParameter;
      } else if |messages| == capacity {
        status := if timeout != 0 then ErrorTimeout else ErrorResource;
      } else {
        messages := messages + message;
        oweIn := oweIn + 1;
      }
      if status == Ok {
        LinkNotify(Direction.In);
      }
    }

    /** furi_message_queue_get; `wanted` is false for a NULL pointer. */
    method Get(wanted: bool, timeout: nat, inIrq: bool) returns (status: Status, message: Message)
      requires Valid()
      modifies this`messages, this`waitingList, this`flags, this`oweIn, this`oweOut
      ensures Valid()
      ensures status == Ok <==> wanted && (inIrq ==> timeout == 0) && old(messages) != []
      ensures status == Ok ==> old(messages) == [message] + messages
      ensures status == Ok ==> Current() == Step(Step(old(Current()), Action.Get), NotifyOut)
      ensures status != Ok ==> Current() == old(Current()) && messages == old(messages)
      ensures status == ErrorParameter <==> !wanted || (inIrq && timeout != 0)
      // an empty queue: after waiting in vain, or at once
      ensures status == ErrorTimeout <==> wanted && !inIrq && old(messages) == [] && timeout != 0
      ensures status == ErrorResource <==> wanted && old(messages) == [] && timeout == 0
    {
      status, message := Ok, 0;
      if !wanted || (inIrq && timeout != 0) {
        status := ErrorParameter;
      } else if messages == [] {
        status := if timeout != 0 then ErrorTimeout else ErrorResource;
      } else {
        message := messages[0];
        messages := messages[1..];
        oweOut := oweOut + 1;
      }
      if status == Ok {
        LinkNotify(Direction.Out);
      }
    }

    /** furi_message_queue_reset. */
    method Reset(inIrq: bool) returns (status: Status)
      requires Valid()
      modifies this`messages, this`waitingList, this`flags, this`oweIn, this`oweOut
      ensures Valid()
      ensures inIrq ==> status == ErrorISR && Current() == old(Current())
      ensures !inIrq ==> status == Ok && messages == []
      ensures !inIrq ==> Current() == Step(Step(old(Current()), Action.Reset), NotifyOut)
    {
      if inIrq {
        return ErrorISR;
      }
      messages := [];
      oweOut := oweOut + 1;
      LinkNotify(Direction.Out);
      return Ok;
    }

    // ------------------------------------------------- the loop's own steps

    /** The wait that finds bits set. */
    method TakeFlags() returns (taken: set<Flag>)
      requires Valid() && pc == AtWait && flags != {}
      modifies this`flags, this`inHand, this`pc
      ensures Valid() && Current() == Step(old(Current()), Take) && taken == inHand == old(flags)
      ensures pc == if StopFlag in taken then Ended else if Flag.Event in taken then Popping else Elsewhere
    {
      taken := flags;
      flags := {};
      inHand := taken;
      pc := if StopFlag in taken then Ended else if Flag.Event in taken then Popping else Elsewhere;
    }

    /** WaitingList_pop_front in its critical section; false when the list was empty. */
    method PopItem() returns (found: bool)
      requires Valid() && pc == Popping
      modifies this`waitingList, this`pc
      ensures Valid() && Current() == Step(old(Current()), Pop) && found == old(waitingList != [])
      ensures pc == if found then Polling else Restoring
    {
      found := waitingList != [];
      if found {
        waitingList := waitingList[1..];
        pc := Polling;
      } else {
        pc := Restoring;
      }
    }

    /** The level check of furi_event_loop_poll_process_event; false means complete. */
    method PollItem() returns (more: bool)
      requires Valid() && pc == Polling
      modifies this`pc
      ensures Valid() && Current() == Step(old(Current()), Poll) && pc == if more then InCallback else Restoring
    {
      var level := GetLevel();
      more := level > 0;
      pc := if more then InCallback else Restoring;
    }

    /** The two halves of furi_event_loop_item_notify when the loop calls it itself. */
    method PushItem()
      requires Valid() && pc == Pushing
      modifies this`waitingList, this`pc
      ensures Valid() && Current() == Step(old(Current()), Push) && pc == Signalling
    {
      if item !in waitingList {
        waitingList := waitingList + [item];
      }
      pc := Signalling;
      assert old(|waitingList|) > 0 ==> old(waitingList)[0] == item;
    }

    method SignalItem()
      requires Valid() && pc == Signalling
      modifies this`flags, this`pc
      ensures Valid() && Current() == Step(old(Current()), Signal) && pc == Restoring
    {
      flags := flags + {Flag.Event};
      pc := Restoring;
    }

    /** The callback answered whether it wants to be called again at once. */
    method CallbackReturns(more: bool)
      requires Valid() && pc == InCallback
      modifies this`pc
      ensures Valid() && Current() == Step(old(Current()), Return(more)) && pc == if more then Polling else Pushing
    {
      pc := if more then Polling else Pushing;
    }

    /** The other bits are given back; the pending branch was reached with no other bit in hand. */
    method RestoreBits()
      requires Valid() && (pc == Restoring || pc == Elsewhere)
      modifies this`flags, this`inHand, this`pc
      ensures Valid() && Current() == Step(old(Current()), Restore) && pc == AtWait
    {
      if pc == Restoring {
        flags := flags + (inHand - {Flag.Event});
      } else if TimerFlag in inHand {
        flags := flags + (inHand - {TimerFlag});
      }
      inHand, pc := {}, AtWait;
    }

    // ------------------------------------------------- rounds of the loop

    /** One step of another thread. */
    method OtherStep(a: Action, message: Message)
      requires Valid() && Enabled(Current(), a) && !LoopStep(a)
      modifies this`messages, this`waitingList, this`flags, this`oweIn, this`oweOut
      ensures Valid() && Current() == Step(old(Current()), a)
    {
      match a
      case Put =>
        messages, oweIn := messages + [message], oweIn + 1;
      case Get =>
        messages, oweOut := messages[1..], oweOut + 1;
      case Reset =>
        messages, oweOut := [], oweOut + 1;
      case NotifyIn =>
        LinkNotify(Direction.In);
      case NotifyOut =>
        LinkNotify(Direction.Out);
      case SetBit(flag) =>
        flags := flags + {flag};
    }

    /** The state was reached from `start` by `run`. */
    ghost predicate Reached(start: State, run: seq<Action>)
      reads this
    {
      Valid() && LegalRun(start, run) && Current() == Run(start, run)
    }

    lemma Extended(start: State, run: seq<Action>, a: Action, before: State)
      requires LegalRun(start, run) && before == Run(start, run) && before.count <= before.capacity
      requires Valid() && Enabled(before, a) && Current() == Step(before, a)
      ensures Reached(start, run + [a])
      ensures LoopPart(run + [a]) == LoopPart(run) + if LoopStep(a) then [a] else []
    {
      RunOne(before, a);
      RunConcat(start, run, [a]);
      LoopPartPush(run, a);
    }

    /** Other threads run: each of the given steps that is possible at its turn. */
    method Others(steps: Interference, ghost start: State, ghost run: seq<Action>) returns (ghost more: seq<Action>)
      requires Reached(start, run)
      modifies this`messages, this`waitingList, this`flags, this`oweIn, this`oweOut
      ensures Reached(start, more) && pc == old(pc) && inHand == old(inHand)
      ensures LoopPart(more) == LoopPart(run)
    {
      hide Step, Enabled, Run, LegalRun;
      more := run;
      for i := 0 to |steps|
        invariant Reached(start, more) && LoopPart(more) == LoopPart(run)
      {
        if Enabled(Current(), steps[i].0) && !LoopStep(steps[i].0) {
          ghost var before := Current();
          OtherStep(steps[i].0, steps[i].1);
          Extended(start, more, steps[i].0, before);
          more := more + [steps[i].0];
        }
      }
    }

    /**
      The inner loop of the event branch, with other threads at every point of it: the level is polled
      and the callback called until one of them ends it.  `answers` are those of the user callback;
      after them it asks to be called again later.  `mine` are the loop's steps.
     */
    method ProcessItem(answers: seq<bool>, others: nat -> Interference, ghost start: State, ghost run: seq<Action>)
      returns (ghost all: seq<Action>, ghost mine: seq<Action>)
      requires Reached(start, run) && pc == Polling
      modifies this
      ensures Reached(start, all) && LoopPart(all) == LoopPart(run) + mine
      ensures pc == Restoring && IsItemLoop(mine)
    {
      hide Step, Run, LegalRun, LoopPart, Reached, Current, Valid;
      all, mine := run, [];
      ghost var k := 0;
      var i := 0;
      while true
        invariant i <= |answers| && Reached(start, all) && pc == Polling
        invariant LoopPart(all) == LoopPart(run) + mine && mine == Again(k)
        decreases |answers| - i
      {
        var more;
        more, all := PollThen(others(4 * i), start, all);
        mine := mine + [Poll];
        if !more {
          return;
        }
        var answer := i < |answers| && answers[i];
        all := CallThen(answer, others(4 * i + 1), start, all);
        mine := mine + [Return(answer)];
        if !answer {
          all := NotifyThen(others(4 * i + 2), others(4 * i + 3), start, all);
          mine := mine + [Push, Signal];
          assert mine == Again(k) + [Poll, Return(false), Push, Signal];
          return;
        }
        assert mine == Again(k) + [Poll, Return(true)];
        i, k := i + 1, k + 1;
      }
    }

    method PollThen(steps: Interference, ghost start: State, ghost run: seq<Action>)
      returns (more: bool, ghost all: seq<Action>)
      requires Reached(start, run) && pc == Polling
      modifies this
      ensures Reached(start, all) && LoopPart(all) == LoopPart(run) + [Poll]
      ensures pc == if more then InCallback else Restoring
    {
      hide Step, Run, LegalRun, LoopPart;
      ghost var s := Current();
      more := PollItem();
      Extended(start, run, Poll, s);
      all := Others(steps, start, run + [Poll]);
    }

    method CallThen(answer: bool, steps: Interference, ghost start: State, ghost run: seq<Action>)
      returns (ghost all: seq<Action>)
      requires Reached(start, run) && pc == InCallback
      modifies this
      ensures Reached(start, all) && LoopPart(all) == LoopPart(run) + [Return(answer)]
      ensures pc == if answer then Polling else Pushing
    {
      hide Step, Run, LegalRun, LoopPart;
      ghost var s := Current();
      CallbackReturns(answer);
      Extended(start, run, Return(answer), s);
      all := Others(steps, start, run + [Return(answer)]);
    }

    /** furi_event_loop_item_notify, called by the loop. */
    method NotifyThen(between: Interference, after: Interference, ghost start: State, ghost run: seq<Action>)
      returns (ghost all: seq<Action>)
      requires Reached(start, run) && pc == Pushing
      modifies this
      ensures Reached(start, all) && LoopPart(all) == LoopPart(run) + [Push, Signal] && pc == Restoring
    {
      hide Step, Run, LegalRun, LoopPart;
      ghost var s := Current();
      PushItem();
      Extended(start, run, Push, s);
      all := Others(between, start, run + [Push]);
      s := Current();
      SignalItem();
      Extended(start, all, Signal, s);
      all := Others(after, start, all + [Signal]);
    }

    /** The event branch of furi_event_loop_run. */
    method EventBranch(answers: seq<bool>, others: nat -> Interference, ghost start: State, ghost run: seq<Action>)
      returns (ghost all: seq<Action>, ghost mine: seq<Action>)
      requires Reached(start, run) && pc == Popping
      modifies this
      ensures Reached(start, all) && LoopPart(all) == LoopPart(run) + mine
      ensures pc == AtWait && IsEventBranch(mine)
    {
      hide Step, Run, LegalRun, LoopPart, IsItemLoop;
      ghost var s := Current();
      var found := PopItem();
      Extended(start, run, Pop, s);
      all, mine := run + [Pop], [Pop];
      all := Others(others(0), start, all);
      if found {
        ghost var item;
        all, item := ProcessItem(answers, (n: nat) => others(n + 1), start, all);
        mine := mine + item;
      }
      s := Current();
      RestoreBits();
      Extended(start, all, Restore, s);
      all, mine := all + [Restore], mine + [Restore];
    }

    /**
      One wake-up of the loop with other threads in between: what the code does is a run of the
      state machine, in which the loop's own steps are those of one branch in their order.
     */
    method Round(answers: seq<bool>, others: nat -> Interference)
      returns (ghost run: seq<Action>, ghost mine: seq<Action>)
      requires Valid() && pc == AtWait && flags != {}
      modifies this
      ensures Reached(old(Current()), run) && LoopPart(run) == [Take] + mine
      ensures StopFlag in old(flags) ==> mine == [] && pc == Ended
      ensures StopFlag !in old(flags) ==> pc == AtWait
      ensures StopFlag !in old(flags) && Flag.Event in old(flags) ==> IsEventBranch(mine)
      ensures StopFlag !in old(flags) && Flag.Event !in old(flags) ==> mine == [Restore]
      ensures WakeUp.Inv(old(Current())) ==> WakeUp.Inv(Current())
    {
      hide Step, Run, LegalRun, LoopPart, IsEventBranch, WakeUp.Inv;
      ghost var start := Current();
      NotStarted(start);
      var taken := TakeFlags();
      Extended(start, [], Take, start);
      run, mine := [] + [Take], [];
      run := Others(others(0), start, run);
      if StopFlag !in taken {
        if Flag.Event in taken {
          run, mine := EventBranch(answers, (n: nat) => others(n + 1), start, run);
        } else {
          ghost var s := Current();
          RestoreBits();
          Extended(start, run, Restore, s);
          run, mine := run + [Restore], [Restore];
        }
      }
      if WakeUp.Inv(start) { RunInv(start, run); }
    }

    lemma NotStarted(s: State)
      requires s.count <= s.capacity
      ensures LegalRun(s, []) && Run(s, []) == s && LoopPart([]) == []
    {
    }
  }
}
