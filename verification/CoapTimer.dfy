/** What one turn of the timer process does: which messages it sends again, in which order, and how it leaves them. */
module CoapTimer {
  import opened Slices
  import opened CoapTransactions
  import opened CoapRetransmission
  import opened CoapBackoff

  /** The blocks on the list whose timer has run out, up to the first one that ends with this transmission. */
  function Due(slots: seq<Transaction>, todo: seq<nat>): seq<nat>
    requires forall k | 0 <= k < |todo| :: todo[k] < |slots|
    decreases |todo|
  {
    if todo == [] then []
    else if !slots[todo[0]].stopped then Due(slots, todo[1..])
    else if GivesUp(slots[todo[0]]) then [todo[0]]
    else [todo[0]] + Due(slots, todo[1..])
  }

  lemma {:induction false} DueIn(slots: seq<Transaction>, todo: seq<nat>)
    requires forall k | 0 <= k < |todo| :: todo[k] < |slots|
    ensures forall i :: i in Due(slots, todo) ==> i in todo && i < |slots| && slots[i].stopped
    decreases |todo|
  {
    if todo != [] {
      DueIn(slots, todo[1..]);
    }
  }

  lemma {:induction false} DueSame(a: seq<Transaction>, b: seq<Transaction>, todo: seq<nat>)
    requires |a| == |b| && forall k | 0 <= k < |todo| :: todo[k] < |a| && a[todo[k]] == b[todo[k]]
    ensures Due(a, todo) == Due(b, todo)
    decreases |todo|
  {
    if todo != [] {
      DueSame(a, b, todo[1..]);
    }
  }

  function SendOf(e: Event): seq<nat> {
    if e.Sent? then [e.serial] else []
  }

  /** The transactions that are sent, in order. */
  function Sends(events: seq<Event>): seq<nat> {
    if events == [] then [] else SendOf(events[0]) + Sends(events[1..])
  }

  lemma {:induction false} SendsConcat(x: seq<Event>, y: seq<Event>)
    ensures Sends(x + y) == Sends(x) + Sends(y)
    decreases |x|
  {
    hide SendOf;
    if x == [] {
      assert x + y == y;
    } else {
      assert (x + y)[1..] == x[1..] + y && (x + y)[0] == x[0];
      SendsConcat(x[1..], y);
      Regroup(SendOf(x[0]), Sends(x[1..]), Sends(y));
    }
  }

  lemma OneSend(e: Event)
    ensures Sends([e]) == SendOf(e)
  {
    assert [e][1..] == [];
  }

  lemma CallbackSends(t: Transaction)
    ensures Sends(CallbackEvent(t)) == []
  {
    if t.callback.Handler? {
      OneSend(Called(t.serial, t.callback.id));
    }
  }

  function Serials(slots: seq<Transaction>, blocks: seq<nat>): seq<nat>
    requires forall k | 0 <= k < |blocks| :: blocks[k] < |slots|
  {
    seq(|blocks|, k requires 0 <= k < |blocks| => slots[blocks[k]].serial)
  }

  /** A block after its transmission by the timer process. */
  function AfterTimeout(t: Transaction): Transaction {
    var sent := t.(counter := t.counter + 1);
    if GivesUp(t) then sent.(used := false, stopped := true)
    else sent.(interval := 2 * t.interval, stopped := false)
  }

  lemma SendAgain(p: Pool, i: nat, t: Transaction)
    requires i < |p.slots| && t.stopped && p.slots[i] == t.(counter := t.counter + 1)
    ensures var q := Send(p, i, 0);
            && q.slots == p.slots[i := AfterTimeout(t)]
            && p.log <= q.log && Sends(q.log[|p.log|..]) == [t.serial]
  {
    var q := Send(p, i, 0);
    var first := [Sent(t.serial)];
    OneSend(first[0]);
    OneSend(Waits(t.serial, 2 * t.interval));
    CallbackSends(t);
    SendsConcat(first, CallbackEvent(t));
    SendsConcat(first, [Waits(t.serial, 2 * t.interval)]);
    if !t.confirmable {
      assert q.log[|p.log|..] == first;
    } else if t.counter + 1 < COAP_MAX_RETRANSMIT {
      assert q.log[|p.log|..] == first + [Waits(t.serial, 2 * t.interval)];
    } else {
      assert q.log[|p.log|..] == first + CallbackEvent(t);
    }
  }

  /** The blocks `due` are sent, in order, between the two; the others are left alone. */
  ghost predicate SentAgain(p: Pool, q: Pool, due: seq<nat>) {
    && (forall k | 0 <= k < |due| :: due[k] < |p.slots|)
    && p.log <= q.log && Sends(q.log[|p.log|..]) == Serials(p.slots, due)
    && |q.slots| == |p.slots|
    && forall i | 0 <= i < |p.slots| :: q.slots[i] == if i in due then AfterTimeout(p.slots[i]) else p.slots[i]
  }

  lemma NothingSent(p: Pool)
    ensures SentAgain(p, p, [])
  {
    assert p.log[|p.log|..] == [];
  }

  /** One block is sent, and then the others. */
  lemma SentBefore(p: Pool, sent: Pool, q: Pool, i: nat, due: seq<nat>)
    requires i < |p.slots| && sent.slots == p.slots[i := AfterTimeout(p.slots[i])] && i !in due
    requires p.log <= sent.log && Sends(sent.log[|p.log|..]) == [p.slots[i].serial]
    requires SentAgain(sent, q, due)
    ensures SentAgain(p, q, [i] + due)
  {
    hide AfterTimeout, Sends, Serials;
    assert q.log[|p.log|..] == sent.log[|p.log|..] + q.log[|sent.log|..];
    SendsConcat(sent.log[|p.log|..], q.log[|sent.log|..]);
    forall k | 0 <= k < |due|
      ensures due[k] != i
    {
      assert due[k] in due;
    }
    SerialsCons(p.slots, i, due);
    SerialsSame(p.slots, sent.slots, due);
  }

  /** One turn of the timer process sends the blocks that are due, in the order of the list. */
  lemma {:induction false} CheckSends(p: Pool, todo: seq<nat>)
    requires Distinct(todo) && forall k | 0 <= k < |todo| :: todo[k] < |p.slots| && p.slots[todo[k]].used
    ensures SentAgain(p, CheckFrom(p, todo), Due(p.slots, todo))
    decreases |todo|
  {
    hide Send, GivesUp, AfterTimeout, Distinct, SentAgain;
    if todo == [] {
      NothingSent(p);
    } else {
      var i, rest := todo[0], todo[1..];
      var t := p.slots[i];
      DistinctRest(todo);
      if !t.stopped {
        CheckSends(p, rest);
      } else {
        var again := p.(slots := p.slots[i := t.(counter := t.counter + 1)]);
        var sent := Send(again, i, 0);
        SendAgain(again, i, t);
        StaysUnless(again, i, t);
        if GivesUp(t) {
          NothingSent(sent);
          SentBefore(p, sent, sent, i, []);
          assert [i] + [] == [i];
        } else {
          DueSame(p.slots, sent.slots, rest);
          DueIn(sent.slots, rest);
          CheckSends(sent, rest);
          SentBefore(p, sent, CheckFrom(sent, rest), i, Due(p.slots, rest));
        }
      }
    }
  }

  lemma SerialsCons(slots: seq<Transaction>, i: nat, blocks: seq<nat>)
    requires i < |slots| && forall k | 0 <= k < |blocks| :: blocks[k] < |slots|
    ensures forall k | 0 <= k < |[i] + blocks| :: ([i] + blocks)[k] < |slots|
    ensures Serials(slots, [i] + blocks) == [slots[i].serial] + Serials(slots, blocks)
  {
  }

  lemma SerialsSame(a: seq<Transaction>, b: seq<Transaction>, blocks: seq<nat>)
    requires |a| == |b| && forall k | 0 <= k < |blocks| :: blocks[k] < |a| && a[blocks[k]] == b[blocks[k]]
    ensures Serials(a, blocks) == Serials(b, blocks)
  {
  }
}
