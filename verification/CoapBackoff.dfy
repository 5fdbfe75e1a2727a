/**
 The waiting times of the transaction layer: exactly the runs in which every wait doubles the one before it, and the
 first one is between two and three seconds.
*/
module CoapBackoff {
  import opened Numbers
  import opened Bytes
  import opened CoapTransactions
  import opened CoapRetransmission

  /** The interval of the first wait of a transaction, or -1 if there was none. */
  function FirstWait(log: seq<Event>, s: nat): int {
    if log == [] then -1
    else
      var before := FirstWait(log[..|log| - 1], s);
      var e := log[|log| - 1];
      if before >= 0 then before else if e.Waits? && e.serial == s then e.interval else -1
  }

  lemma WaitAppended(log: seq<Event>, e: Event, s: nat)
    ensures FirstWait(log + [e], s)
         == if FirstWait(log, s) >= 0 then FirstWait(log, s) else if e.Waits? && e.serial == s then e.interval else -1
  {
    assert (log + [e])[..|log|] == log;
  }

  predicate FirstInRange(w: int) {
    2 * CLOCK_SECOND <= w <= 3 * CLOCK_SECOND
  }

  /**
   A wait at position j of the log lasts the first wait of its transaction times 2^k, where k is the number of its
   earlier waits; the first wait is between two and three seconds.
  */
  ghost predicate Doubled(log: seq<Event>, j: nat)
    requires j < |log|
  {
    var e := log[j];
    e.Waits? ==>
      FirstInRange(FirstWait(log, e.serial))
          && e.interval == FirstWait(log, e.serial) * Pow2(WaitCount(log[..j], e.serial))
  }

  ghost predicate Backoff(log: seq<Event>) {
    forall j | 0 <= j < |log| :: Doubled(log, j)
  }

  /** A message that its owner has not sent, in a block that looks as if its timer had expired. */
  predicate Unsent(t: Transaction) {
    t.stopped && !t.begun && t.confirmable
  }

  /** The timer loop ends with this block: it sends it for the last time. */
  predicate GivesUp(t: Transaction) {
    t.stopped && (!t.confirmable || t.counter + 1 >= COAP_MAX_RETRANSMIT)
  }

  /** The timer loop comes to an unsent block before it ends. */
  ghost predicate ReachesUnsent(slots: seq<Transaction>, todo: seq<nat>)
    requires forall k | 0 <= k < |todo| :: todo[k] < |slots|
  {
    exists k | 0 <= k < |todo| :: Unsent(slots[todo[k]]) && forall j | 0 <= j < k :: !GivesUp(slots[todo[j]])
  }

  /** The timer process comes to no confirmable block before its owner has sent it. */
  ghost predicate Prompt(p: Pool, step: Step)
    requires Enabled(p, step)
  {
    step.Check? ==> !ReachesUnsent(p.slots, p.order)
  }

  ghost predicate PromptRun(p: Pool, steps: seq<Step>)
    requires CanRun(p, steps)
    decreases steps
  {
    steps == [] || (Prompt(p, steps[0]) && PromptRun(Next(p, steps[0]), steps[1..]))
  }

  // ---------------------------------------------------------------- the invariant

  ghost predicate WaitOk(t: Transaction, log: seq<Event>) {
    t.used ==>
      if t.begun then FirstInRange(FirstWait(log, t.serial)) && t.interval == FirstWait(log, t.serial) * Pow2(t.counter)
      else t.counter == 0 && FirstWait(log, t.serial) == -1
  }

  /** What is left of earlier transactions in the blocks. */
  predicate IntervalOk(t: Transaction) {
    t.interval == 0 || t.interval >= 2 * CLOCK_SECOND
  }

  ghost predicate Unwaited(log: seq<Event>, next: nat) {
    forall s: nat | s >= next :: FirstWait(log, s) == -1
  }

  predicate IntervalsOk(slots: seq<Transaction>) {
    forall i | 0 <= i < |slots| :: IntervalOk(slots[i])
  }

  ghost predicate WaitsOk(p: Pool) {
    && Backoff(p.log) && Unwaited(p.log, p.next) && IntervalsOk(p.slots)
    && forall i | 0 <= i < |p.slots| :: WaitOk(p.slots[i], p.log)
  }

  /** The waits while block i is being dealt with. */
  ghost predicate WaitRest(p: Pool, i: nat) {
    && Backoff(p.log) && Unwaited(p.log, p.next) && IntervalsOk(p.slots) && DistinctSerials(p)
    && Live(p, i) && p.slots[i].serial < p.next
    && forall j | 0 <= j < |p.slots| && j != i :: WaitOk(p.slots[j], p.log)
  }

  /** A restart of the timer that continues the doubling, or starts it. */
  ghost predicate NextWait(log: seq<Event>, e: Event) {
    e.Waits? ==>
      var f := FirstWait(log, e.serial);
      if f == -1 then WaitCount(log, e.serial) == 0 && FirstInRange(e.interval)
      else FirstInRange(f) && e.interval == f * Pow2(WaitCount(log, e.serial))
  }

  lemma BackoffGrows(log: seq<Event>, e: Event)
    requires Backoff(log) && NextWait(log, e)
    ensures Backoff(log + [e])
  {
    hide FirstWait, WaitCount;
    var more := log + [e];
    forall j | 0 <= j < |more|
      ensures Doubled(more, j)
    {
      WaitAppended(log, e, more[j].serial);
      if j < |log| {
        assert Doubled(log, j) && more[..j] == log[..j];
      } else {
        assert more[..j] == log && Pow2(0) == 1;
      }
    }
  }

  lemma WaitRestGrows(p: Pool, i: nat, e: Event)
    requires WaitRest(p, i) && e.serial == p.slots[i].serial && NextWait(p.log, e)
    ensures WaitRest(p.(log := p.log + [e]), i)
  {
    hide FirstWait, Backoff, NextWait, IntervalsOk;
    BackoffGrows(p.log, e);
    forall s: nat
      ensures FirstWait(p.log + [e], s)
           == if FirstWait(p.log, s) >= 0 then FirstWait(p.log, s)
              else if e.Waits? && e.serial == s then e.interval else -1
    {
      WaitAppended(p.log, e, s);
    }
    forall j | 0 <= j < |p.slots| && j != i
      ensures WaitOk(p.slots[j], p.log + [e])
    {
      assert WaitOk(p.slots[j], p.log);
      assert p.slots[j].used ==> p.slots[j].serial != p.slots[i].serial;
    }
    FirstNatural(p.log);
  }

  lemma {:induction false} FirstNatural(log: seq<Event>)
    ensures forall s: nat :: FirstWait(log, s) >= -1
  {
    if log != [] {
      FirstNatural(log[..|log| - 1]);
    }
  }

  lemma WaitsCleared(p: Pool, i: nat)
    requires WaitRest(p, i)
    ensures WaitsOk(Clear(p, i))
  {
    hide FirstWait, Backoff;
  }

  lemma WaitsKept(p: Pool, i: nat, t: Transaction)
    requires WaitRest(p, i) && t.used && t.serial == p.slots[i].serial && WaitOk(t, p.log) && IntervalOk(t)
    ensures WaitsOk(p.(slots := p.slots[i := t]))
  {
    hide FirstWait, Backoff;
  }

  lemma WaitRestChanged(p: Pool, i: nat, t: Transaction)
    requires PoolOk(p) && WaitsOk(p) && Live(p, i) && t.used && t.serial == p.slots[i].serial
    requires t.interval == p.slots[i].interval
    ensures WaitRest(p.(slots := p.slots[i := t]), i)
  {
    hide FirstWait, Backoff, CountsOk;
    assert TransactionOk(p.slots[i], p.log, p.next);
  }

  /** A message about to be sent: for the first time, or after a wait. */
  ghost predicate WaitDue(t: Transaction, log: seq<Event>) {
    && t.begun && WaitCount(log, t.serial) == t.counter
    && if t.counter == 0 then FirstWait(log, t.serial) == -1
       else FirstInRange(FirstWait(log, t.serial)) && 2 * t.interval == FirstWait(log, t.serial) * Pow2(t.counter)
  }

  lemma WaitLive(p: Pool, i: nat)
    requires WaitRest(p, i)
    ensures i < |p.slots| && p.slots[i].used && IntervalOk(p.slots[i])
  {
  }

  lemma SendWaits(p: Pool, i: nat, random: nat)
    requires WaitRest(p, i) && WaitDue(p.slots[i], p.log)
    ensures WaitsOk(Send(p, i, random))
  {
    hide FirstWait, WaitCount, Backoff, WaitRest, WaitsOk;
    WaitLive(p, i);
    var t := p.slots[i];
    var e := Sent(t.serial);
    var sent := p.(log := p.log + [e]);
    WaitRestGrows(p, i, e);
    if !t.confirmable {
      WaitsCleared(sent, i);
    } else if t.counter < COAP_MAX_RETRANSMIT {
      var w := NextInterval(t, random);
      var f := Waits(t.serial, w);
      WaitAppended(p.log, e, t.serial);
      Appended(p.log, e, t.serial);
      assert Pow2(0) == 1;
      WaitRestGrows(sent, i, f);
      WaitAppended(sent.log, f, t.serial);
      WaitsKept(sent.(log := sent.log + [f]), i, t.(interval := w, stopped := false));
    } else {
      ClearAndCallWaits(sent, i);
    }
  }

  lemma ClearAndCallWaits(p: Pool, i: nat)
    requires WaitRest(p, i)
    ensures WaitsOk(Clear(p, i).(log := p.log + CallbackEvent(p.slots[i])))
  {
    hide FirstWait, WaitCount, Backoff, WaitRest, WaitsOk;
    WaitLive(p, i);
    var t := p.slots[i];
    if t.callback.Handler? {
      var e := Called(t.serial, t.callback.id);
      WaitRestGrows(p, i, e);
      WaitsCleared(p.(log := p.log + [e]), i);
    } else {
      WaitsCleared(p, i);
      assert p.log + [] == p.log;
    }
  }

  // ---------------------------------------------------------------- the timer loop

  lemma CheckStep(p: Pool, i: nat, t: Transaction)
    requires PoolOk(p) && WaitsOk(p) && Live(p, i) && p.slots[i].begun
    requires t == p.slots[i].(counter := p.slots[i].counter + 1)
    ensures WaitRest(p.(slots := p.slots[i := t]), i) && WaitDue(t, p.log)
  {
    hide FirstWait, WaitCount, Backoff, CountsOk, WaitRest;
    WaitRestChanged(p, i, t);
    assert WaitOk(p.slots[i], p.log) && TransactionOk(p.slots[i], p.log, p.next);
    assert Pow2(t.counter) == 2 * Pow2(p.slots[i].counter);
    Double(FirstWait(p.log, t.serial), Pow2(p.slots[i].counter));
  }

  lemma Double(a: int, b: nat)
    ensures 2 * (a * b) == a * (2 * b)
  {
  }

  /** A message that is not confirmable is sent and freed without a wait. */
  lemma UnconfirmedWaits(p: Pool, i: nat)
    requires WaitRest(p, i) && !p.slots[i].confirmable
    ensures WaitsOk(Send(p, i, 0))
  {
    hide FirstWait, WaitCount, Backoff, WaitRest, WaitsOk;
    WaitLive(p, i);
    WaitRestGrows(p, i, Sent(p.slots[i].serial));
    WaitsCleared(p.(log := p.log + [Sent(p.slots[i].serial)]), i);
  }

  /** Blocks that the loop comes to later are as they were. */
  lemma ReachesLater(a: seq<Transaction>, b: seq<Transaction>, todo: seq<nat>)
    requires todo != [] && |a| == |b| && Distinct(todo) && forall k | 0 <= k < |todo| :: todo[k] < |a|
    requires forall j | 0 <= j < |a| && j != todo[0] :: b[j] == a[j]
    requires !Unsent(a[todo[0]])
    ensures ReachesUnsent(a, todo) <==> !GivesUp(a[todo[0]]) && ReachesUnsent(b, todo[1..])
  {
    hide Unsent, GivesUp;
    var rest := todo[1..];
    forall k | 0 <= k < |rest|
      ensures rest[k] == todo[k + 1] && b[rest[k]] == a[todo[k + 1]]
    {
    }
    if ReachesUnsent(a, todo) {
      var k :| 0 <= k < |todo| && Unsent(a[todo[k]]) && forall j | 0 <= j < k :: !GivesUp(a[todo[j]]);
      assert Unsent(b[rest[k - 1]]) && forall j | 0 <= j < k - 1 :: !GivesUp(b[rest[j]]);
    }
    if !GivesUp(a[todo[0]]) && ReachesUnsent(b, rest) {
      var k :| 0 <= k < |rest| && Unsent(b[rest[k]]) && forall j | 0 <= j < k :: !GivesUp(b[rest[j]]);
      assert Unsent(a[todo[k + 1]]) && forall j | 0 <= j < k + 1 :: !GivesUp(a[todo[j]]);
    }
  }

  lemma ReachesFirst(slots: seq<Transaction>, todo: seq<nat>)
    requires todo != [] && forall k | 0 <= k < |todo| :: todo[k] < |slots|
    requires Unsent(slots[todo[0]])
    ensures ReachesUnsent(slots, todo)
  {
  }

  /** Whether the block stays when it is sent by the timer loop. */
  lemma StaysUnless(p: Pool, i: nat, t: Transaction)
    requires i < |p.slots| && p.slots[i] == t.(counter := t.counter + 1) && t.used && t.stopped
    ensures Send(p, i, 0).slots[i].used <==> !GivesUp(t)
  {
  }

  /** An unsent message that the timer loop sends: twice an interval left in the block is not a first wait. */
  lemma UnsentBreaks(p: Pool, i: nat)
    requires i < |p.slots| && p.slots[i].confirmable && p.slots[i].counter == 1 && IntervalOk(p.slots[i])
    requires FirstWait(p.log, p.slots[i].serial) == -1
    ensures !Backoff(Send(p, i, 0).log)
  {
    hide FirstWait, WaitCount;
    var t := p.slots[i];
    var sent := p.log + [Sent(t.serial)];
    var w := Waits(t.serial, 2 * t.interval);
    WaitAppended(p.log, Sent(t.serial), t.serial);
    WaitAppended(sent, w, t.serial);
    assert !Doubled(sent + [w], |sent|);
  }

  /** A log that is not in order stays so. */
  lemma {:induction false} FirstStays(log: seq<Event>, more: seq<Event>, s: nat)
    requires FirstWait(log, s) >= 0
    ensures FirstWait(log + more, s) == FirstWait(log, s)
    decreases |more|
  {
    if more == [] {
      assert log + more == log;
    } else {
      FirstStays(log, more[..|more| - 1], s);
      WaitAppended(log + more[..|more| - 1], more[|more| - 1], s);
      assert log + more == log + more[..|more| - 1] + [more[|more| - 1]];
    }
  }

  lemma {:induction false} FirstThere(log: seq<Event>, j: nat)
    requires j < |log| && log[j].Waits?
    ensures FirstWait(log, log[j].serial) >= 0
    decreases |log|
  {
    if j < |log| - 1 {
      FirstThere(log[..|log| - 1], j);
    }
  }

  lemma BadPersists(log: seq<Event>, longer: seq<Event>)
    requires !Backoff(log) && log <= longer
    ensures !Backoff(longer)
  {
    hide FirstWait, WaitCount;
    var j :| 0 <= j < |log| && !Doubled(log, j);
    var more := longer[|log|..];
    assert longer == log + more && longer[..j] == log[..j] && longer[j] == log[j];
    FirstThere(log, j);
    FirstStays(log, more, log[j].serial);
    assert !Doubled(longer, j);
  }

  lemma SendGrows(p: Pool, i: nat, random: nat)
    requires i < |p.slots|
    ensures p.log <= Send(p, i, random).log
  {
  }

  lemma {:induction false} CheckGrows(p: Pool, todo: seq<nat>)
    requires forall k | 0 <= k < |todo| :: todo[k] < |p.slots|
    ensures p.log <= CheckFrom(p, todo).log
    decreases |todo|
  {
    hide Send;
    if todo != [] {
      var i := todo[0];
      var t := p.slots[i];
      if t.stopped {
        var due := p.(slots := p.slots[i := t.(counter := t.counter + 1)]);
        SendGrows(due, i, 0);
        SendOthers(due, i, 0);
        CheckGrows(Send(due, i, 0), todo[1..]);
      } else {
        CheckGrows(p, todo[1..]);
      }
    }
  }

  /** The timer loop keeps all waits in order exactly if it comes to no unsent block. */
  lemma {:induction false} CheckExact(p: Pool, todo: seq<nat>)
    requires PoolOk(p) && WaitsOk(p) && Distinct(todo) && forall k | 0 <= k < |todo| :: Live(p, todo[k])
    ensures if ReachesUnsent(p.slots, todo) then !Backoff(CheckFrom(p, todo).log) else WaitsOk(CheckFrom(p, todo))
    decreases |todo|
  {
    hide PoolOk, WaitsOk, Rest, WaitRest, Send, Due, WaitDue, Unsent, GivesUp, ReachesUnsent, Backoff, Distinct;
    if todo == [] {
      NothingReached(p.slots);
    } else {
      var i := todo[0];
      var t := p.slots[i];
      DistinctRest(todo);
      if !t.stopped {
        NotStopped(t);
        ReachesLater(p.slots, p.slots, todo);
        CheckExact(p, todo[1..]);
      } else {
        var later := t.(counter := t.counter + 1);
        var due := p.(slots := p.slots[i := later]);
        var sent := Send(due, i, 0);
        BecomesDue(p, i, later);
        SendKeeps(due, i, 0);
        SendOthers(due, i, 0);
        StaysUnless(due, i, t);
        if Unsent(t) {
          UnsentChecked(p, i, t, todo);
        } else {
          ReachesLater(p.slots, sent.slots, todo);
          SentChecked(p, i, t);
          if !GivesUp(t) {
            CheckExact(sent, todo[1..]);
          }
        }
      }
    }
  }

  lemma NothingReached(slots: seq<Transaction>)
    ensures !ReachesUnsent(slots, [])
  {
  }

  lemma DistinctRest(todo: seq<nat>)
    requires Distinct(todo) && todo != []
    ensures Distinct(todo[1..]) && forall k | 0 <= k < |todo[1..]| :: todo[1..][k] == todo[k + 1] != todo[0]
  {
  }

  lemma NotStopped(t: Transaction)
    requires !t.stopped
    ensures !Unsent(t) && !GivesUp(t)
  {
  }

  lemma SentChecked(p: Pool, i: nat, t: Transaction)
    requires PoolOk(p) && WaitsOk(p) && Live(p, i) && t == p.slots[i] && t.stopped && !Unsent(t)
    ensures WaitsOk(Send(p.(slots := p.slots[i := t.(counter := t.counter + 1)]), i, 0))
  {
    hide PoolOk, WaitsOk, WaitRest, WaitDue, Send;
    var later := t.(counter := t.counter + 1);
    if t.begun {
      CheckStep(p, i, later);
      SendWaits(p.(slots := p.slots[i := later]), i, 0);
    } else {
      WaitRestChanged(p, i, later);
      UnconfirmedWaits(p.(slots := p.slots[i := later]), i);
    }
  }

  lemma UnsentChecked(p: Pool, i: nat, t: Transaction, todo: seq<nat>)
    requires PoolOk(p) && WaitsOk(p) && Live(p, i) && t == p.slots[i] && Unsent(t)
    requires todo != [] && todo[0] == i && forall k | 0 <= k < |todo| :: todo[k] < |p.slots|
    ensures ReachesUnsent(p.slots, todo) && !Backoff(CheckFrom(p, todo).log)
  {
    hide FirstWait, Backoff, PoolOk, Send;
    assert WaitOk(t, p.log) && IntervalOk(t);
    var due := p.(slots := p.slots[i := t.(counter := t.counter + 1)]);
    var sent := Send(due, i, 0);
    UnsentBreaks(due, i);
    SendOthers(due, i, 0);
    ReachesFirst(p.slots, todo);
    if sent.slots[i].used {
      CheckGrows(sent, todo[1..]);
      BadPersists(sent.log, CheckFrom(sent, todo[1..]).log);
    }
  }

  // ---------------------------------------------------------------- the other steps

  lemma DispatchWaits(p: Pool, i: nat, t: Transaction, random: nat)
    requires PoolOk(p) && WaitsOk(p) && Live(p, i) && !p.slots[i].begun
    requires t.used && t.begun && t.serial == p.slots[i].serial && t.counter == p.slots[i].counter
    requires t.interval == p.slots[i].interval
    ensures WaitsOk(Send(p.(slots := p.slots[i := t]), i, random))
  {
    hide FirstWait, WaitCount, Backoff, CountsOk, Send, WaitRest;
    assert WaitOk(p.slots[i], p.log) && TransactionOk(p.slots[i], p.log, p.next);
    WaitRestChanged(p, i, t);
    SendWaits(p.(slots := p.slots[i := t]), i, random);
  }

  lemma NewWaits(p: Pool, mid: nat)
    requires PoolOk(p) && WaitsOk(p)
    ensures WaitsOk(New(p, mid))
  {
    hide FirstWait, Backoff, PoolOk;
  }

  lemma SameWaits(p: Pool, i: nat, t: Transaction)
    requires PoolOk(p) && WaitsOk(p) && Live(p, i) && t.used && t.serial == p.slots[i].serial
    requires t.begun == p.slots[i].begun && t.counter == p.slots[i].counter && t.interval == p.slots[i].interval
    ensures WaitsOk(p.(slots := p.slots[i := t]))
  {
    hide FirstWait, Backoff, PoolOk;
    assert WaitOk(p.slots[i], p.log);
  }

  lemma AnswerWaits(p: Pool, mid: nat)
    requires PoolOk(p) && WaitsOk(p) && forall k | 0 <= k < |p.order| :: p.order[k] < |p.slots|
    ensures WaitsOk(Answer(p, mid))
  {
    hide WaitsOk, WaitRest, CountsOk;
    var i := FindMid(p, mid, p.order);
    if i < |p.slots| {
      assert i in p.order;
      WaitRestChanged(p, i, p.slots[i]);
      assert p.slots[i := p.slots[i]] == p.slots;
      ClearAndCallWaits(p, i);
    }
  }

  lemma AbandonWaits(p: Pool, i: nat)
    requires PoolOk(p) && WaitsOk(p) && Live(p, i)
    ensures WaitsOk(Clear(p, i))
  {
    hide WaitsOk, WaitRest, PoolOk;
    WaitRestChanged(p, i, p.slots[i]);
    assert p.slots[i := p.slots[i]] == p.slots;
    WaitsCleared(p, i);
  }

  /** One step keeps all waits in order exactly if it is prompt. */
  lemma StepExact(p: Pool, step: Step)
    requires PoolOk(p) && WaitsOk(p) && Enabled(p, step)
    ensures if Prompt(p, step) then WaitsOk(Next(p, step)) else !Backoff(Next(p, step).log)
  {
    hide PoolOk, WaitsOk, Backoff, ReachesUnsent, Send, New, Clear, Answer, CheckFrom;
    match step
    case Create(mid) => NewWaits(p, mid);
    case Register(i, callback) => SameWaits(p, i, p.slots[i].(callback := callback));
    case Dispatch(i, confirmable, random) =>
      DispatchWaits(p, i, p.slots[i].(confirmable := confirmable, begun := true), random);
    case Expire(i) => SameWaits(p, i, p.slots[i].(stopped := true));
    case Check =>
      OrderLive(p);
      CheckExact(p, p.order);
    case Abandon(i) => AbandonWaits(p, i);
    case Receive(mid) => AnswerWaits(p, mid);
  }

  lemma StepGrows(p: Pool, step: Step)
    requires Enabled(p, step)
    ensures p.log <= Next(p, step).log
  {
    hide Send, CheckFrom;
    match step
    case Dispatch(i, confirmable, random) =>
      SendGrows(p.(slots := p.slots[i := p.slots[i].(confirmable := confirmable, begun := true)]), i, random);
    case Check => CheckGrows(p, p.order);
    case _ =>
  }

  lemma {:induction false} RunGrows(p: Pool, steps: seq<Step>)
    requires CanRun(p, steps)
    ensures p.log <= Run(p, steps).log
    decreases steps
  {
    hide Next, Enabled;
    if steps != [] {
      StepGrows(p, steps[0]);
      RunGrows(Next(p, steps[0]), steps[1..]);
    }
  }

  lemma {:induction false} RunExact(p: Pool, steps: seq<Step>)
    requires PoolOk(p) && WaitsOk(p) && CanRun(p, steps)
    ensures Backoff(Run(p, steps).log) <==> PromptRun(p, steps)
    decreases steps
  {
    hide PoolOk, WaitsOk, Next, Enabled, Prompt, Backoff;
    if steps == [] {
      WaitsBackoff(p);
    } else {
      var next := Next(p, steps[0]);
      StepKeeps(p, steps[0]);
      StepExact(p, steps[0]);
      if Prompt(p, steps[0]) {
        RunExact(next, steps[1..]);
      } else {
        RunGrows(next, steps[1..]);
        BadPersists(next.log, Run(next, steps[1..]).log);
      }
    }
  }

  /**
   The waits of a run follow the exponential backoff if and only if the timer process never comes to a confirmable
   message before its owner has sent it.
  */
  lemma BackoffExactly(p: Pool, steps: seq<Step>)
    requires Initial(p) && CanRun(p, steps)
    ensures Backoff(Run(p, steps).log) <==> PromptRun(p, steps)
  {
    hide Run, CanRun, PromptRun, PoolOk, Backoff;
    InitialOk(p);
    InitialWaits(p);
    RunExact(p, steps);
  }

  lemma InitialWaits(p: Pool)
    requires Initial(p)
    ensures WaitsOk(p)
  {
  }

  lemma WaitsBackoff(p: Pool)
    requires WaitsOk(p)
    ensures Backoff(p.log)
  {
  }
}
