/**
 Runs of the transaction layer: how often a message is sent and waited for, how often a callback is called, and which
 blocks are allocated.
*/
module CoapRetransmission {
  import opened CoapTransactions

  datatype Step =
    | Create(mid: nat)
    | Register(slot: nat, callback: Callback)
    | Dispatch(slot: nat, confirmable: bool, random: nat)
    | Expire(slot: nat)
    | Check
    | Abandon(slot: nat)
    | Receive(mid: nat)

  /** The owner writes the message into the block and sends it once. */
  predicate Enabled(p: Pool, step: Step) {
    match step
    case Create(_) => true
    case Register(i, _) => Live(p, i)
    case Dispatch(i, _, _) => Live(p, i) && !p.slots[i].begun
    case Expire(i) => Live(p, i)
    case Check => forall k | 0 <= k < |p.order| :: p.order[k] < |p.slots|
    case Abandon(i) => Live(p, i)
    case Receive(_) => forall k | 0 <= k < |p.order| :: p.order[k] < |p.slots|
  }

  function Next(p: Pool, step: Step): Pool
    requires Enabled(p, step)
  {
    match step
    case Create(mid) => New(p, mid)
    case Register(i, callback) => p.(slots := p.slots[i := p.slots[i].(callback := callback)])
    case Dispatch(i, confirmable, random) =>
      Send(p.(slots := p.slots[i := p.slots[i].(confirmable := confirmable, begun := true)]), i, random)
    case Expire(i) => p.(slots := p.slots[i := p.slots[i].(stopped := true)])
    case Check => CheckFrom(p, p.order)
    case Abandon(i) => Clear(p, i)
    case Receive(mid) => Answer(p, mid)
  }

  ghost predicate CanRun(p: Pool, steps: seq<Step>)
    decreases steps
  {
    steps == [] || (Enabled(p, steps[0]) && CanRun(Next(p, steps[0]), steps[1..]))
  }

  ghost function Run(p: Pool, steps: seq<Step>): Pool
    requires CanRun(p, steps)
    decreases steps
  {
    if steps == [] then p else Run(Next(p, steps[0]), steps[1..])
  }

  /** The pool is zeroed memory. */
  predicate Initial(p: Pool) {
    && |p.slots| == COAP_MAX_OPEN_TRANSACTIONS && p.order == [] && p.next == 0 && p.log == []
    && forall i | 0 <= i < |p.slots| :: ZeroBlock(p.slots[i])
  }

  predicate ZeroBlock(t: Transaction) {
    !t.used && t.interval == 0 && t.callback == NoCallback
  }

  // ---------------------------------------------------------------- what happened to a transaction

  function SentCount(log: seq<Event>, s: nat): nat {
    if log == [] then 0
    else SentCount(log[..|log| - 1], s) + if log[|log| - 1] == Sent(s) then 1 else 0
  }

  function CallCount(log: seq<Event>, s: nat): nat {
    if log == [] then 0
    else
      var e := log[|log| - 1];
      CallCount(log[..|log| - 1], s) + if e.Called? && e.serial == s then 1 else 0
  }

  function WaitCount(log: seq<Event>, s: nat): nat {
    if log == [] then 0
    else
      var e := log[|log| - 1];
      WaitCount(log[..|log| - 1], s) + if e.Waits? && e.serial == s then 1 else 0
  }

  lemma Appended(log: seq<Event>, e: Event, s: nat)
    ensures WaitCount(log + [e], s) == WaitCount(log, s) + if e.Waits? && e.serial == s then 1 else 0
    ensures SentCount(log + [e], s) == SentCount(log, s) + if e == Sent(s) then 1 else 0
    ensures CallCount(log + [e], s) == CallCount(log, s) + if e.Called? && e.serial == s then 1 else 0
  {
    assert (log + [e])[..|log|] == log;
  }

  /**
   No message is sent more than five times or waited for more than four times, at most its last transmission is not
   waited for, no callback is called twice, and the blocks in use are those on the list.
  */
  ghost predicate Safe(p: Pool) {
    && (forall s: nat :: Bounded(p.log, s))
    && LiveExactly(p) && |p.order| <= COAP_MAX_OPEN_TRANSACTIONS
  }

  ghost predicate Bounded(log: seq<Event>, s: nat) {
    && SentCount(log, s) <= 1 + COAP_MAX_RETRANSMIT && WaitCount(log, s) <= COAP_MAX_RETRANSMIT
    && WaitCount(log, s) <= SentCount(log, s) <= WaitCount(log, s) + 1
    && CallCount(log, s) <= 1
  }

  ghost predicate LiveExactly(p: Pool) {
    && (forall i: nat :: i in p.order <==> Live(p, i))
    && Distinct(p.order)
  }

  predicate Distinct(order: seq<nat>) {
    forall a, b | 0 <= a < b < |order| :: order[a] != order[b]
  }

  // ---------------------------------------------------------------- the invariant

  /** A live transaction was sent, and waited for, once for each time its counter moved and once by its owner. */
  ghost predicate TransactionOk(t: Transaction, log: seq<Event>, next: nat) {
    t.used ==>
      && t.serial < next && t.counter < COAP_MAX_RETRANSMIT
      && SentCount(log, t.serial) == t.counter + (if t.begun then 1 else 0)
      && WaitCount(log, t.serial) == SentCount(log, t.serial) && CallCount(log, t.serial) == 0
  }

  ghost predicate CountsOk(log: seq<Event>, next: nat) {
    forall s: nat ::
      && Bounded(log, s)
      && (s >= next ==> SentCount(log, s) == 0 && CallCount(log, s) == 0)
  }

  ghost predicate DistinctSerials(p: Pool) {
    forall i, j | 0 <= i < j < |p.slots| && p.slots[i].used && p.slots[j].used :: p.slots[i].serial != p.slots[j].serial
  }

  ghost predicate PoolOk(p: Pool) {
    && |p.slots| == COAP_MAX_OPEN_TRANSACTIONS && LiveExactly(p) && DistinctSerials(p) && CountsOk(p.log, p.next)
    && forall i | 0 <= i < |p.slots| :: TransactionOk(p.slots[i], p.log, p.next)
  }

  lemma {:induction false} RemovedExact(order: seq<nat>, i: nat)
    requires Distinct(order)
    ensures forall j: nat :: j in Removed(order, i) <==> j in order && j != i
    ensures Distinct(Removed(order, i)) && |Removed(order, i)| <= |order|
  {
    if order != [] {
      var rest := Removed(order[1..], i);
      assert Distinct(order[1..]) && order[0] !in order[1..];
      RemovedExact(order[1..], i);
      assert order[0] !in rest;
      assert Distinct([order[0]] + rest);
      assert forall j: nat :: j in order <==> j == order[0] || j in order[1..];
    }
  }

  /** The pool while block i is being dealt with. */
  ghost predicate Rest(p: Pool, i: nat) {
    && |p.slots| == COAP_MAX_OPEN_TRANSACTIONS && LiveExactly(p) && DistinctSerials(p) && CountsOk(p.log, p.next)
    && Live(p, i) && p.slots[i].serial < p.next
    && forall j | 0 <= j < |p.slots| && j != i :: TransactionOk(p.slots[j], p.log, p.next)
  }

  lemma RestGrows(p: Pool, i: nat, e: Event)
    requires Rest(p, i) && e.serial == p.slots[i].serial
    requires e.Sent? ==> SentCount(p.log, e.serial) == WaitCount(p.log, e.serial) <= COAP_MAX_RETRANSMIT
    requires e.Waits? ==> WaitCount(p.log, e.serial) < SentCount(p.log, e.serial) <= COAP_MAX_RETRANSMIT
    requires e.Called? ==> CallCount(p.log, e.serial) == 0
    ensures Rest(p.(log := p.log + [e]), i)
    ensures WaitCount(p.log + [e], e.serial) == WaitCount(p.log, e.serial) + if e.Waits? then 1 else 0
    ensures SentCount(p.log + [e], e.serial) == SentCount(p.log, e.serial) + if e.Sent? then 1 else 0
    ensures CallCount(p.log + [e], e.serial) == CallCount(p.log, e.serial) + if e.Called? then 1 else 0
  {
    hide SentCount, WaitCount, CallCount;
    forall s: nat
      ensures SentCount(p.log + [e], s) == SentCount(p.log, s) + if e == Sent(s) then 1 else 0
      ensures CallCount(p.log + [e], s) == CallCount(p.log, s) + if e.Called? && e.serial == s then 1 else 0
      ensures WaitCount(p.log + [e], s) == WaitCount(p.log, s) + if e.Waits? && e.serial == s then 1 else 0
    {
      Appended(p.log, e, s);
    }
    forall j | 0 <= j < |p.slots| && j != i
      ensures TransactionOk(p.slots[j], p.log + [e], p.next)
    {
      assert TransactionOk(p.slots[j], p.log, p.next);
      assert p.slots[j].used ==> p.slots[j].serial != p.slots[i].serial;
    }
  }

  lemma RestCleared(p: Pool, i: nat)
    requires Rest(p, i)
    ensures PoolOk(Clear(p, i))
  {
    hide CountsOk, SentCount, WaitCount, CallCount;
    RemovedExact(p.order, i);
  }

  lemma RestKept(p: Pool, i: nat, t: Transaction)
    requires Rest(p, i) && t.used && t.serial == p.slots[i].serial && TransactionOk(t, p.log, p.next)
    ensures PoolOk(p.(slots := p.slots[i := t]))
  {
    hide CountsOk, SentCount, WaitCount, CallCount;
  }

  lemma OkIsRest(p: Pool, i: nat)
    requires PoolOk(p) && Live(p, i)
    ensures Rest(p, i) && TransactionOk(p.slots[i], p.log, p.next)
  {
    hide CountsOk, SentCount, WaitCount, CallCount;
    assert TransactionOk(p.slots[i], p.log, p.next);
  }

  lemma RestChanged(p: Pool, i: nat, t: Transaction)
    requires Rest(p, i) && t.used && t.serial == p.slots[i].serial
    ensures Rest(p.(slots := p.slots[i := t]), i)
  {
    hide CountsOk, SentCount, WaitCount, CallCount;
  }

  /** The counter or the owner has moved on, and the message is about to be sent. */
  ghost predicate Due(t: Transaction, log: seq<Event>) {
    && t.counter <= COAP_MAX_RETRANSMIT && CallCount(log, t.serial) == 0
    && SentCount(log, t.serial) + 1 == t.counter + (if t.begun then 1 else 0)
    && WaitCount(log, t.serial) == SentCount(log, t.serial)
  }

  lemma SendKeeps(p: Pool, i: nat, random: nat)
    requires Rest(p, i) && Due(p.slots[i], p.log)
    ensures PoolOk(Send(p, i, random))
  {
    hide CountsOk, SentCount, WaitCount, CallCount, Rest, PoolOk;
    RestLive(p, i);
    var t := p.slots[i];
    var sent := p.(log := p.log + [Sent(t.serial)]);
    RestGrows(p, i, Sent(t.serial));
    if !t.confirmable {
      RestCleared(sent, i);
    } else if t.counter < COAP_MAX_RETRANSMIT {
      var w := NextInterval(t, random);
      RestGrows(sent, i, Waits(t.serial, w));
      RestKept(sent.(log := sent.log + [Waits(t.serial, w)]), i, t.(interval := w, stopped := false));
    } else {
      ClearAndCall(sent, i);
    }
  }

  lemma RestLive(p: Pool, i: nat)
    requires Rest(p, i)
    ensures i < |p.slots| && p.slots[i].used && p.slots[i].serial < p.next
  {
  }

  /** Freeing a block and then calling its callback. */
  lemma ClearAndCall(p: Pool, i: nat)
    requires Rest(p, i) && CallCount(p.log, p.slots[i].serial) == 0
    ensures PoolOk(Clear(p, i).(log := p.log + CallbackEvent(p.slots[i])))
  {
    hide CountsOk, SentCount, WaitCount, CallCount, Rest, PoolOk;
    RestLive(p, i);
    var t := p.slots[i];
    if t.callback.Handler? {
      var e := Called(t.serial, t.callback.id);
      RestGrows(p, i, e);
      RestCleared(p.(log := p.log + [e]), i);
    } else {
      RestCleared(p, i);
      assert p.log + [] == p.log;
    }
  }

  lemma NewKeeps(p: Pool, mid: nat)
    requires PoolOk(p)
    ensures PoolOk(New(p, mid))
  {
    hide SentCount, WaitCount, CallCount;
    var i := FirstFree(p.slots);
    if i < |p.slots| {
      assert !Live(p, i);
      assert SentCount(p.log, p.next) == 0 && CallCount(p.log, p.next) == 0;
      forall j | 0 <= j < |p.slots|
        ensures TransactionOk(New(p, mid).slots[j], p.log, p.next + 1)
      {
        assert TransactionOk(p.slots[j], p.log, p.next);
      }
      forall j: nat
        ensures j in New(p, mid).order <==> Live(New(p, mid), j)
      {
      }
    }
  }

  lemma {:induction false} CheckKeeps(p: Pool, todo: seq<nat>)
    requires PoolOk(p) && Distinct(todo) && forall k | 0 <= k < |todo| :: Live(p, todo[k])
    ensures PoolOk(CheckFrom(p, todo))
    decreases |todo|
  {
    hide PoolOk, Rest, Send, Due, TransactionOk;
    if todo != [] {
      var i := todo[0];
      var t := p.slots[i];
      assert Distinct(todo[1..]);
      if t.stopped {
        var due := p.(slots := p.slots[i := t.(counter := t.counter + 1)]);
        BecomesDue(p, i, t.(counter := t.counter + 1));
        SendKeeps(due, i, 0);
        var sent := Send(due, i, 0);
        SendOthers(due, i, 0);
        if sent.slots[i].used {
          CheckKeeps(sent, todo[1..]);
        }
      } else {
        CheckKeeps(p, todo[1..]);
      }
    }
  }

  lemma BecomesDue(p: Pool, i: nat, t: Transaction)
    requires PoolOk(p) && Live(p, i)
    requires var s := p.slots[i];
             t.used && t.serial == s.serial
             && ((t.counter == s.counter + 1 && t.begun == s.begun) || (t.counter == s.counter && t.begun && !s.begun))
    ensures Rest(p.(slots := p.slots[i := t]), i) && Due(t, p.log)
  {
    hide PoolOk, Rest, SentCount, WaitCount, CallCount;
    OkIsRest(p, i);
    RestChanged(p, i, t);
  }

  /** Sending from one block leaves the others as they are. */
  lemma SendOthers(p: Pool, i: nat, random: nat)
    requires i < |p.slots|
    ensures |Send(p, i, random).slots| == |p.slots|
    ensures forall j | 0 <= j < |p.slots| && j != i :: Send(p, i, random).slots[j] == p.slots[j]
  {
  }

  lemma AnswerKeeps(p: Pool, mid: nat)
    requires PoolOk(p) && forall k | 0 <= k < |p.order| :: p.order[k] < |p.slots|
    ensures PoolOk(Answer(p, mid))
  {
    hide CountsOk, SentCount, WaitCount, CallCount, Rest;
    var i := FindMid(p, mid, p.order);
    if i < |p.slots| {
      assert i in p.order;
      OkIsRest(p, i);
      ClearAndCall(p, i);
    }
  }

  lemma StepKeeps(p: Pool, step: Step)
    requires PoolOk(p) && Enabled(p, step)
    ensures PoolOk(Next(p, step))
  {
    hide PoolOk, Rest, TransactionOk, Send, New, Answer, CheckFrom, SentCount, WaitCount, CallCount;
    match step
    case Create(mid) => NewKeeps(p, mid);
    case Register(i, callback) => SameCounts(p, i, p.slots[i].(callback := callback));
    case Dispatch(i, confirmable, random) =>
      var t := p.slots[i].(confirmable := confirmable, begun := true);
      BecomesDue(p, i, t);
      SendKeeps(p.(slots := p.slots[i := t]), i, random);
    case Expire(i) => SameCounts(p, i, p.slots[i].(stopped := true));
    case Check =>
      OrderLive(p);
      CheckKeeps(p, p.order);
    case Abandon(i) =>
      OkIsRest(p, i);
      RestCleared(p, i);
    case Receive(mid) => AnswerKeeps(p, mid);
  }

  lemma OrderLive(p: Pool)
    requires PoolOk(p)
    ensures Distinct(p.order) && forall k | 0 <= k < |p.order| :: Live(p, p.order[k])
  {
    forall k | 0 <= k < |p.order|
      ensures Live(p, p.order[k])
    {
      assert p.order[k] in p.order;
    }
  }

  lemma SameCounts(p: Pool, i: nat, t: Transaction)
    requires PoolOk(p) && Live(p, i)
    requires var s := p.slots[i]; t.used && t.serial == s.serial && t.counter == s.counter && t.begun == s.begun
    ensures PoolOk(p.(slots := p.slots[i := t]))
  {
    hide PoolOk, Rest, SentCount, WaitCount, CallCount;
    OkIsRest(p, i);
    RestKept(p, i, t);
  }

  lemma {:induction false} RunKeeps(p: Pool, steps: seq<Step>)
    requires PoolOk(p) && CanRun(p, steps)
    ensures PoolOk(Run(p, steps))
    decreases steps
  {
    hide PoolOk, Next, Enabled;
    if steps != [] {
      StepKeeps(p, steps[0]);
      RunKeeps(Next(p, steps[0]), steps[1..]);
    }
  }

  /**
   In every run: at most five transmissions and four waits for a message, the fifth transmission giving it up at
   once, at most one callback, and at most four blocks, all on the list.
  */
  lemma EveryRunSafe(p: Pool, steps: seq<Step>)
    requires Initial(p) && CanRun(p, steps)
    ensures Safe(Run(p, steps))
  {
    hide Run, CanRun;
    InitialOk(p);
    RunKeeps(p, steps);
    OkSafe(Run(p, steps));
  }

  lemma InitialOk(p: Pool)
    requires Initial(p)
    ensures PoolOk(p)
  {
  }

  lemma OkSafe(p: Pool)
    requires PoolOk(p)
    ensures Safe(p)
  {
    hide SentCount, WaitCount, CallCount;
    OrderLive(p);
    Pigeonhole(p.order, |p.slots|);
  }

  lemma {:induction false} Pigeonhole(order: seq<nat>, n: nat)
    requires Distinct(order) && forall k | 0 <= k < |order| :: order[k] < n
    ensures |order| <= n
    decreases n
  {
    if n > 0 {
      var rest := Removed(order, n - 1);
      RemovedExact(order, n - 1);
      forall k | 0 <= k < |rest|
        ensures rest[k] < n - 1
      {
        assert rest[k] in rest;
      }
      Pigeonhole(rest, n - 1);
      RemovedLength(order, n - 1);
    } else {
      var _ := First(order);
    }
  }

  function First(order: seq<nat>): (i: nat)
    ensures order != [] ==> i == order[0]
  {
    if order == [] then 0 else order[0]
  }

  lemma {:induction false} RemovedLength(order: seq<nat>, i: nat)
    ensures |order| <= |Removed(order, i)| + 1
  {
    if order != [] {
      RemovedLength(order[1..], i);
    }
  }
}
