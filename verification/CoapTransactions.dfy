/**
 The transaction layer: a pool of messages that wait for an answer and are sent again with doubled intervals
 (cc2530/contiki_os/apps/er-coap-07/er-coap-07-transactions.c).
*/
module CoapTransactions {
  const COAP_MAX_OPEN_TRANSACTIONS := 4
  const COAP_MAX_RETRANSMIT := 4
  const CLOCK_SECOND := 128
  const COAP_RESPONSE_TIMEOUT_TICKS := 2 * CLOCK_SECOND
  /** CLOCK_SECOND * 2 * (1.5 - 1) + 1.5, truncated. */
  const COAP_RESPONSE_TIMEOUT_BACKOFF_MASK := CLOCK_SECOND + 1

  datatype Callback = NoCallback | Handler(id: nat)

  /**
   A memory block of the pool. A freed block keeps what is in it. serial numbers the allocations; begun says that
   the owner has sent the message for the first time; stopped that the timer is not running, which the source reads
   as expired.
  */
  datatype Transaction = Transaction(
    used: bool,
    serial: nat,
    begun: bool,
    mid: nat,
    counter: nat,
    interval: nat,
    stopped: bool,
    confirmable: bool,
    callback: Callback)

  /** What the layer does to the outside: messages sent, timers restarted, callbacks called. */
  datatype Event = Sent(serial: nat) | Waits(serial: nat, interval: nat) | Called(serial: nat, handler: nat)

  /** order is the linked list of live blocks; next the serial number of the next allocation. */
  datatype Pool = Pool(slots: seq<Transaction>, order: seq<nat>, next: nat, log: seq<Event>)

  predicate Live(p: Pool, i: nat) {
    i < |p.slots| && p.slots[i].used
  }

  /** memb_alloc takes the first free block. */
  function FirstFree(slots: seq<Transaction>): (i: nat)
    ensures i <= |slots| && (i < |slots| ==> !slots[i].used) && forall j | 0 <= j < i :: slots[j].used
  {
    if slots == [] || !slots[0].used then 0 else 1 + FirstFree(slots[1..])
  }

  function Removed(order: seq<nat>, i: nat): seq<nat> {
    if order == [] then [] else if order[0] == i then order[1..] else [order[0]] + Removed(order[1..], i)
  }

  /** The first occurrence of i is taken out. */
  lemma {:induction false} RemovedAt(order: seq<nat>, i: nat, k: nat)
    requires k <= |order| && (k < |order| ==> order[k] == i) && forall j | 0 <= j < k :: order[j] != i
    ensures Removed(order, i) == if k < |order| then order[..k] + order[k + 1..] else order
  {
    if k > 0 {
      RemovedAt(order[1..], i, k - 1);
      assert order == [order[0]] + order[1..];
      assert k < |order| ==> order[..k] + order[k + 1..] == [order[0]] + (order[1..][..k - 1] + order[1..][k..]);
    }
  }

  /** coap_new_transaction: the callback of the block's last user stays in it. */
  function New(p: Pool, mid: nat): Pool {
    var i := FirstFree(p.slots);
    if i == |p.slots| then p
    else
      var t := p.slots[i].(used := true, serial := p.next, begun := false, mid := mid, counter := 0);
      p.(slots := p.slots[i := t], order := p.order + [i], next := p.next + 1)
  }

  /** coap_clear_transaction */
  function Clear(p: Pool, i: nat): Pool
    requires i < |p.slots|
  {
    p.(slots := p.slots[i := p.slots[i].(used := false, stopped := true)], order := Removed(p.order, i))
  }

  function CallbackEvent(t: Transaction): seq<Event> {
    if t.callback.Handler? then [Called(t.serial, t.callback.id)] else []
  }

  /** The interval before transmission counter + 1. */
  function NextInterval(t: Transaction, random: nat): nat {
    if t.counter == 0 then COAP_RESPONSE_TIMEOUT_TICKS + random % COAP_RESPONSE_TIMEOUT_BACKOFF_MASK else 2 * t.interval
  }

  /** coap_send_transaction */
  function Send(p: Pool, i: nat, random: nat): Pool
    requires i < |p.slots|
  {
    var t := p.slots[i];
    var sent := p.(log := p.log + [Sent(t.serial)]);
    if !t.confirmable then Clear(sent, i)
    else if t.counter < COAP_MAX_RETRANSMIT then
      var w := NextInterval(t, random);
      sent.(slots := p.slots[i := t.(interval := w, stopped := false)], log := sent.log + [Waits(t.serial, w)])
    else
      var cleared := Clear(sent, i);
      cleared.(log := cleared.log + CallbackEvent(t))
  }

  /** The loop of coap_check_transactions. Removing a block cuts its link, which ends the loop. */
  function CheckFrom(p: Pool, todo: seq<nat>): Pool
    requires forall k | 0 <= k < |todo| :: todo[k] < |p.slots|
    decreases |todo|
  {
    if todo == [] then p
    else
      var i := todo[0];
      var t := p.slots[i];
      if !t.stopped then CheckFrom(p, todo[1..])
      else
        var sent := Send(p.(slots := p.slots[i := t.(counter := t.counter + 1)]), i, 0);
        if sent.slots[i].used then CheckFrom(sent, todo[1..]) else sent
  }

  /** coap_get_transaction_by_mid */
  function FindMid(p: Pool, mid: nat, order: seq<nat>): (i: nat)
    requires forall k | 0 <= k < |order| :: order[k] < |p.slots|
    ensures i <= |p.slots| && (i < |p.slots| ==> i in order && p.slots[i].mid == mid)
  {
    if order == [] then |p.slots| else if p.slots[order[0]].mid == mid then order[0] else FindMid(p, mid, order[1..])
  }

  /** An acknowledgement or reset arrives: the transaction is freed, then its callback called. */
  function Answer(p: Pool, mid: nat): Pool
    requires forall k | 0 <= k < |p.order| :: p.order[k] < |p.slots|
  {
    var i := FindMid(p, mid, p.order);
    if i == |p.slots| then p
    else
      var cleared := Clear(p, i);
      cleared.(log := cleared.log + CallbackEvent(p.slots[i]))
  }

  // ---------------------------------------------------------------- the layer in place

  class TransactionLayer {
    const slots: array<Transaction>
    var order: seq<nat>
    var next: nat
    var log: seq<Event>

    ghost predicate Valid()
      reads this, slots
    {
      slots.Length == COAP_MAX_OPEN_TRANSACTIONS && forall k | 0 <= k < |order| :: order[k] < slots.Length
    }

    ghost function State(): (p: Pool)
      reads this, slots
    {
      Pool(slots[..], order, next, log)
    }

    /** All blocks start as zero bytes. */
    constructor ()
      ensures Valid() && fresh(slots) && order == [] && next == 0 && log == []
      ensures forall i | 0 <= i < slots.Length ::
                slots[i] == Transaction(false, 0, false, 0, 0, 0, true, true, NoCallback)
    {
      slots := new Transaction[COAP_MAX_OPEN_TRANSACTIONS](i => Transaction(false, 0, false, 0, 0, 0, true,
          true, NoCallback));
      order, next, log := [], 0, [];
    }

    method NewTransaction(mid: nat) returns (i: nat)
      requires Valid()
      modifies this, slots
      ensures Valid() && State() == New(old(State()), mid) && i == FirstFree(old(slots[..]))
    {
      i := 0;
      while i < slots.Length && slots[i].used
        invariant i <= slots.Length && FirstFree(slots[..]) == i + FirstFree(slots[i..])
      {
        assert slots[i..][1..] == slots[i + 1..];
        i := i + 1;
      }
      if i < slots.Length {
        slots[i] := slots[i].(used := true, serial := next, begun := false, mid := mid, counter := 0);
        order := order + [i];
        next := next + 1;
      }
    }

    /** list_remove */
    method ListRemove(i: nat)
      requires Valid()
      modifies this`order
      ensures Valid() && order == Removed(old(order), i)
    {
      var k := 0;
      while k < |order| && order[k] != i
        invariant k <= |order| && forall j | 0 <= j < k :: order[j] != i
      {
        k := k + 1;
      }
      RemovedAt(order, i, k);
      if k < |order| {
        order := order[..k] + order[k + 1..];
      }
    }

    method ClearTransaction(i: nat)
      requires Valid() && i < slots.Length
      modifies this`order, slots
      ensures Valid() && State() == Clear(old(State()), i)
    {
      ListRemove(i);
      slots[i] := slots[i].(used := false, stopped := true);
    }

    method SendTransaction(i: nat, random: nat)
      requires Valid() && i < slots.Length
      modifies this`order, this`log, slots
      ensures Valid() && State() == Send(old(State()), i, random)
    {
      var t := slots[i];
      log := log + [Sent(t.serial)];
      if !t.confirmable {
        ClearTransaction(i);
        return;
      }
      if t.counter < COAP_MAX_RETRANSMIT {
        var w := 2 * t.interval;
        if t.counter == 0 {
          w := COAP_RESPONSE_TIMEOUT_TICKS + random % COAP_RESPONSE_TIMEOUT_BACKOFF_MASK;
        }
        slots[i] := t.(interval := w, stopped := false);
        log := log + [Waits(t.serial, w)];
      } else {
        ClearTransaction(i);
        CallBack(t);
      }
    }

    method CallBack(t: Transaction)
      modifies this`log
      ensures log == old(log) + CallbackEvent(t)
    {
      if t.callback.Handler? {
        log := log + [Called(t.serial, t.callback.id)];
      }
    }

    method CheckTransactions()
      requires Valid()
      modifies this`order, this`log, slots
      ensures Valid() && State() == CheckFrom(old(State()), old(order))
    {
      var todo: seq<nat> := order;
      ghost var result := CheckFrom(State(), order);
      while todo != []
        invariant Valid() && next == old(next) && forall k | 0 <= k < |todo| :: todo[k] < slots.Length
        invariant CheckFrom(State(), todo) == result
        decreases |todo|
      {
        var i := todo[0];
        if slots[i].stopped {
          slots[i] := slots[i].(counter := slots[i].counter + 1);
          SendTransaction(i, 0);
          if !slots[i].used {
            return;
          }
        }
        todo := todo[1..];
      }
    }

    method TransactionByMid(mid: nat) returns (i: nat)
      requires Valid()
      ensures i == FindMid(State(), mid, order)
    {
      var todo: seq<nat> := order;
      while todo != []
        invariant forall k | 0 <= k < |todo| :: todo[k] < slots.Length
        invariant FindMid(State(), mid, order) == FindMid(State(), mid, todo)
        decreases |todo|
      {
        if slots[todo[0]].mid == mid {
          return todo[0];
        }
        todo := todo[1..];
      }
      i := slots.Length;
    }

    method OnAnswer(mid: nat)
      requires Valid()
      modifies this`order, this`log, slots
      ensures Valid() && State() == Answer(old(State()), mid)
    {
      var i := TransactionByMid(mid);
      if i < slots.Length {
        var t := slots[i];
        ClearTransaction(i);
        CallBack(t);
      }
    }
  }
}
