/**
 Which callbacks the transaction layer calls. A memory block keeps the callback of its last user, so a transaction that
 registers none of its own can have a foreign one called.
*/
module CoapCallbacks {
  import opened CoapTransactions
  import opened CoapRetransmission
  import opened CoapBackoff

  // ---------------------------------------------------------------- what a block remembers

  /** The callback that the last Register step for block i gave it; `before` is what it had. */
  function LastRegistered(steps: seq<Step>, i: nat, before: Callback): Callback
    decreases steps
  {
    if steps == [] then before
    else
      LastRegistered(steps[1..], i, match steps[0]
                                    case Register(k, callback) => if k == i then callback else before
                                    case _ => before)
  }

  /** The transaction in block i has registered a callback since the block was allocated for it. */
  ghost predicate OwnsCallback(p: Pool, steps: seq<Step>, i: nat, before: bool)
    requires CanRun(p, steps)
    decreases steps
  {
    if steps == [] then before
    else
      OwnsCallback(Next(p, steps[0]), steps[1..], i,
                   match steps[0]
                   case Register(k, _) => k == i || before
                   case Create(_) => FirstFree(p.slots) != i && before
                   case _ => before)
  }

  lemma SendCallbacks(p: Pool, i: nat, random: nat)
    requires i < |p.slots|
    ensures |Send(p, i, random).slots| == |p.slots|
    ensures forall j | 0 <= j < |p.slots| :: Send(p, i, random).slots[j].callback == p.slots[j].callback
  {
  }

  lemma {:induction false} CheckCallbacks(p: Pool, todo: seq<nat>)
    requires forall k | 0 <= k < |todo| :: todo[k] < |p.slots|
    ensures |CheckFrom(p, todo).slots| == |p.slots|
    ensures forall j | 0 <= j < |p.slots| :: CheckFrom(p, todo).slots[j].callback == p.slots[j].callback
    decreases |todo|
  {
    hide Send;
    if todo != [] {
      var i := todo[0];
      var t := p.slots[i];
      if t.stopped {
        var due := p.(slots := p.slots[i := t.(counter := t.counter + 1)]);
        SendCallbacks(due, i, 0);
        CheckCallbacks(Send(due, i, 0), todo[1..]);
      } else {
        CheckCallbacks(p, todo[1..]);
      }
    }
  }

  /** Only Register changes the callback of a block: neither freeing nor allocating it does. */
  lemma StepCallbacks(p: Pool, step: Step, i: nat)
    requires Enabled(p, step) && i < |p.slots|
    ensures |Next(p, step).slots| == |p.slots|
    ensures Next(p, step).slots[i].callback
         == if step.Register? && step.slot == i then step.callback else p.slots[i].callback
  {
    hide Send, CheckFrom;
    match step
    case Dispatch(k, confirmable, random) =>
      SendCallbacks(p.(slots := p.slots[k := p.slots[k].(confirmable := confirmable, begun := true)]), k, random);
    case Check => CheckCallbacks(p, p.order);
    case _ =>
  }

  lemma {:induction false} BlockCallback(p: Pool, steps: seq<Step>, i: nat)
    requires CanRun(p, steps) && i < |p.slots|
    ensures |Run(p, steps).slots| == |p.slots|
    ensures Run(p, steps).slots[i].callback == LastRegistered(steps, i, p.slots[i].callback)
    decreases steps
  {
    hide Next, Enabled;
    if steps != [] {
      StepCallbacks(p, steps[0], i);
      BlockCallback(Next(p, steps[0]), steps[1..], i);
    }
  }

  // ---------------------------------------------------------------- which calls a step makes

  /** The first block of the list at which the timer loop ends, |slots| if there is none. */
  function FirstEnding(slots: seq<Transaction>, todo: seq<nat>): nat
    requires forall k | 0 <= k < |todo| :: todo[k] < |slots|
    decreases |todo|
  {
    if todo == [] then |slots| else if GivesUp(slots[todo[0]]) then todo[0] else FirstEnding(slots, todo[1..])
  }

  /** The step ends the transaction in block i by an answer, or by giving it up after its last transmission. */
  predicate Ends(p: Pool, step: Step, i: nat)
    requires Enabled(p, step)
  {
    match step
    case Receive(mid) => i < |p.slots| && FindMid(p, mid, p.order) == i
    case Check => i < |p.slots| && FirstEnding(p.slots, p.order) == i && p.slots[i].confirmable
    case _ => false
  }

  /** What the step adds to the log. */
  function Added(p: Pool, q: Pool): seq<Event>
    requires |p.log| <= |q.log|
  {
    q.log[|p.log|..]
  }

  /** The calls among the events are the one of the block's callback. */
  ghost predicate CallsOf(events: seq<Event>, t: Transaction) {
    forall s: nat, h: nat :: Called(s, h) in events <==> t.serial == s && t.callback == Handler(h)
  }

  ghost predicate NoCalls(events: seq<Event>) {
    forall s: nat, h: nat :: Called(s, h) !in events
  }

  lemma EventCalls(t: Transaction)
    ensures CallsOf(CallbackEvent(t), t)
  {
  }

  /** Sending calls a callback only when a confirmable message was sent for the last time. */
  lemma SendCalls(p: Pool, i: nat, random: nat)
    requires i < |p.slots|
    ensures |p.log| <= |Send(p, i, random).log|
    ensures var t, events := p.slots[i], Added(p, Send(p, i, random));
            if t.confirmable && t.counter >= COAP_MAX_RETRANSMIT then CallsOf(events, t) else NoCalls(events)
  {
    var t := p.slots[i];
    var first := [Sent(t.serial)];
    var q := Send(p, i, random);
    if !t.confirmable {
      assert q.log == p.log + first;
    } else if t.counter < COAP_MAX_RETRANSMIT {
      var second := [Waits(t.serial, NextInterval(t, random))];
      assert q.log == p.log + (first + second);
    } else {
      EventCalls(t);
      assert q.log == p.log + (first + CallbackEvent(t));
    }
  }

  lemma AddedTwice(p: Pool, q: Pool, r: Pool)
    requires p.log <= q.log && q.log <= r.log
    ensures Added(p, r) == Added(p, q) + Added(q, r)
  {
  }

  lemma FirstEndingIn(slots: seq<Transaction>, todo: seq<nat>)
    requires forall k | 0 <= k < |todo| :: todo[k] < |slots|
    ensures FirstEnding(slots, todo) < |slots| ==> exists k :: 0 <= k < |todo| && todo[k] == FirstEnding(slots, todo)
    ensures FirstEnding(slots, todo) <= |slots|
    decreases |todo|
  {
    if todo != [] && !GivesUp(slots[todo[0]]) {
      FirstEndingIn(slots, todo[1..]);
      if FirstEnding(slots, todo[1..]) < |slots| {
        var k :| 0 <= k < |todo[1..]| && todo[1..][k] == FirstEnding(slots, todo[1..]);
        assert todo[k + 1] == FirstEnding(slots, todo);
      }
    }
  }

  lemma FirstEndingSame(a: seq<Transaction>, b: seq<Transaction>, todo: seq<nat>)
    requires |a| == |b| && forall k | 0 <= k < |todo| :: todo[k] < |a| && a[todo[k]] == b[todo[k]]
    ensures FirstEnding(a, todo) == FirstEnding(b, todo)
    decreases |todo|
  {
    if todo != [] {
      FirstEndingSame(a, b, todo[1..]);
    }
  }

  /** The timer loop calls at most one callback: that of the block at which it ends. */
  lemma {:induction false} CheckCalls(p: Pool, todo: seq<nat>)
    requires Distinct(todo) && forall k | 0 <= k < |todo| :: todo[k] < |p.slots| && p.slots[todo[k]].used
    ensures p.log <= CheckFrom(p, todo).log
    ensures var i, events := FirstEnding(p.slots, todo), Added(p, CheckFrom(p, todo));
            if i < |p.slots| && p.slots[i].confirmable then CallsOf(events, p.slots[i]) else NoCalls(events)
    decreases |todo|
  {
    hide Send, GivesUp, Distinct;
    CheckGrows(p, todo);
    if todo != [] {
      var i := todo[0];
      var t := p.slots[i];
      DistinctRest(todo);
      if !t.stopped {
        NotStopped(t);
        CheckCalls(p, todo[1..]);
      } else {
        var due := p.(slots := p.slots[i := t.(counter := t.counter + 1)]);
        var sent := Send(due, i, 0);
        SendCalls(due, i, 0);
        SendGrows(due, i, 0);
        SendOthers(due, i, 0);
        StaysUnless(due, i, t);
        GivesUpWhen(t);
        if !GivesUp(t) {
          FirstEndingSame(p.slots, sent.slots, todo[1..]);
          FirstEndingIn(p.slots, todo[1..]);
          CheckCalls(sent, todo[1..]);
          AddedTwice(p, sent, CheckFrom(sent, todo[1..]));
        }
      }
    }
  }

  lemma GivesUpWhen(t: Transaction)
    requires t.stopped
    ensures GivesUp(t) <==> !t.confirmable || t.counter + 1 >= COAP_MAX_RETRANSMIT
  {
  }

  lemma AnswerCalls(p: Pool, mid: nat)
    requires forall k | 0 <= k < |p.order| :: p.order[k] < |p.slots|
    ensures p.log <= Answer(p, mid).log
    ensures var i, events := FindMid(p, mid, p.order), Added(p, Answer(p, mid));
            if i < |p.slots| then CallsOf(events, p.slots[i]) else NoCalls(events)
  {
    var i := FindMid(p, mid, p.order);
    if i < |p.slots| {
      EventCalls(p.slots[i]);
      assert Added(p, Answer(p, mid)) == CallbackEvent(p.slots[i]);
    }
  }

  lemma DispatchCalls(p: Pool, i: nat, t: Transaction, random: nat)
    requires PoolOk(p) && Live(p, i) && t.counter == p.slots[i].counter
    ensures p.log <= Send(p.(slots := p.slots[i := t]), i, random).log
    ensures NoCalls(Added(p, Send(p.(slots := p.slots[i := t]), i, random)))
  {
    hide CountsOk, Send, LiveExactly, DistinctSerials;
    assert TransactionOk(p.slots[i], p.log, p.next);
    SendGrows(p.(slots := p.slots[i := t]), i, random);
    SendCalls(p.(slots := p.slots[i := t]), i, random);
  }

  /** The step ends the transaction in block i, which has callback h. */
  predicate Calls(p: Pool, step: Step, i: nat, h: nat)
    requires Enabled(p, step)
  {
    i < |p.slots| && p.slots[i].callback == Handler(h) && Ends(p, step, i)
  }

  /** A step calls handler h for transaction s exactly if it ends a live transaction s whose block has that callback. */
  lemma StepCalls(p: Pool, step: Step, s: nat, h: nat)
    requires PoolOk(p) && Enabled(p, step)
    ensures p.log <= Next(p, step).log
    ensures Called(s, h) in Added(p, Next(p, step))
       <==> exists i: nat :: Live(p, i) && p.slots[i].serial == s && Calls(p, step, i, h)
  {
    hide PoolOk, Send, CheckFrom, Answer, FirstEnding;
    match step
    case Dispatch(i, confirmable, random) =>
      DispatchCalls(p, i, p.slots[i].(confirmable := confirmable, begun := true), random);
    case Check =>
      OrderLive(p);
      FirstEndingIn(p.slots, p.order);
      CheckCalls(p, p.order);
    case Receive(mid) =>
      OrderLive(p);
      AnswerCalls(p, mid);
    case _ =>
  }

  /** The step after the run ends the transaction in block i, for which handler h was registered last. */
  ghost predicate CallsLast(p: Pool, steps: seq<Step>, step: Step, i: nat, h: nat)
    requires CanRun(p, steps) && Enabled(Run(p, steps), step)
  {
    LastRegistered(steps, i, NoCallback) == Handler(h) && Ends(Run(p, steps), step, i)
  }

  /**
   After a run, the next step calls handler h for transaction s, which has not registered a callback of its own, if and
   only if it ends s on a block whose last registered callback, whoever registered it, is h.
  */
  lemma ForeignCalls(p: Pool, steps: seq<Step>, step: Step, s: nat, h: nat)
    requires Initial(p) && CanRun(p, steps) && Enabled(Run(p, steps), step)
    ensures var q := Run(p, steps);
            q.log <= Next(q, step).log
            && ((Called(s, h) in Added(q, Next(q, step)) && exists i: nat :: Foreign(p, steps, i, s))
                <==> exists i: nat :: Foreign(p, steps, i, s) && CallsLast(p, steps, step, i, h))
  {
    hide PoolOk, Run, CanRun, Next, Ends, LastRegistered, OwnsCallback, Enabled;
    var q := Run(p, steps);
    InitialOk(p);
    RunKeeps(p, steps);
    StepCalls(q, step, s, h);
    forall i: nat | Live(q, i)
      ensures q.slots[i].callback == LastRegistered(steps, i, NoCallback)
    {
      SameSize(p, steps);
      BlockCallback(p, steps, i);
    }
    OneBlock(q);
  }

  /** Transaction s is in block i and has not registered a callback. */
  ghost predicate Foreign(p: Pool, steps: seq<Step>, i: nat, s: nat)
    requires CanRun(p, steps)
  {
    Live(Run(p, steps), i) && Run(p, steps).slots[i].serial == s && !OwnsCallback(p, steps, i, false)
  }

  lemma {:induction false} SameSize(p: Pool, steps: seq<Step>)
    requires CanRun(p, steps)
    ensures |Run(p, steps).slots| == |p.slots|
    decreases steps
  {
    hide Next, Enabled;
    if steps != [] {
      SlotCount(p, steps[0]);
      SameSize(Next(p, steps[0]), steps[1..]);
    }
  }

  lemma SlotCount(p: Pool, step: Step)
    requires Enabled(p, step)
    ensures |Next(p, step).slots| == |p.slots|
  {
    hide Send, CheckFrom;
    match step
    case Dispatch(k, confirmable, random) =>
      SendCallbacks(p.(slots := p.slots[k := p.slots[k].(confirmable := confirmable, begun := true)]), k, random);
    case Check => CheckCallbacks(p, p.order);
    case _ =>
  }

  lemma OneBlock(p: Pool)
    requires PoolOk(p)
    ensures forall i: nat, j: nat | Live(p, i) && Live(p, j) && p.slots[i].serial == p.slots[j].serial :: i == j
  {
  }
}
