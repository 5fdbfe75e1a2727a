/**
 What an acknowledgement or reset does: it ends the first transaction of its message id on the list, and nothing is ever
 sent, waited for or called for that transaction again.
*/
module CoapAnswers {
  import opened CoapTransactions
  import opened CoapRetransmission
  import opened CoapBackoff

  // ---------------------------------------------------------------- which transaction is ended

  /** The block at position k of the list is the first one with the message id. */
  predicate FirstWith(p: Pool, mid: nat, k: nat)
    requires forall j | 0 <= j < |p.order| :: p.order[j] < |p.slots|
  {
    k < |p.order| && p.slots[p.order[k]].mid == mid && forall j | 0 <= j < k :: p.slots[p.order[j]].mid != mid
  }

  lemma {:induction false} FoundFirst(p: Pool, mid: nat, order: seq<nat>, k: nat)
    requires forall j | 0 <= j < |order| :: order[j] < |p.slots|
    requires k <= |order| && forall j | 0 <= j < k :: p.slots[order[j]].mid != mid
    requires k < |order| ==> p.slots[order[k]].mid == mid
    ensures FindMid(p, mid, order) == if k < |order| then order[k] else |p.slots|
    decreases k
  {
    if k > 0 {
      FoundFirst(p, mid, order[1..], k - 1);
    }
  }

  /** The answer frees exactly that block, takes it off the list and calls its callback. */
  lemma AnswerExact(p: Pool, mid: nat, k: nat)
    requires forall j | 0 <= j < |p.order| :: p.order[j] < |p.slots|
    requires FirstWith(p, mid, k)
    ensures var i, q := p.order[k], Answer(p, mid);
            && q.slots == p.slots[i := p.slots[i].(used := false, stopped := true)]
            && q.order == p.order[..k] + p.order[k + 1..] && q.next == p.next
            && q.log == p.log + if p.slots[i].callback.Handler? then [Called(p.slots[i].serial, p.slots[i].callback.id)]
                                else []
  {
    FoundFirst(p, mid, p.order, k);
    RemovedAt(p.order, p.order[k], k);
  }

  /** An answer to none of the transactions does nothing. */
  lemma NotAnswered(p: Pool, mid: nat)
    requires forall j | 0 <= j < |p.order| :: p.order[j] < |p.slots|
    requires forall j | 0 <= j < |p.order| :: p.slots[p.order[j]].mid != mid
    ensures Answer(p, mid) == p
  {
    FoundFirst(p, mid, p.order, |p.order|);
  }

  /** A new transaction is the one that an answer to its message id ends, unless an older one has the same id. */
  lemma AnswerToNew(p: Pool, mid: nat)
    requires LiveExactly(p) && exists i :: 0 <= i < |p.slots| && !p.slots[i].used
    requires forall j | 0 <= j < |p.order| :: p.order[j] < |p.slots| && p.slots[p.order[j]].mid != mid
    ensures var q := New(p, mid);
            && |q.order| == |p.order| + 1 && (forall j | 0 <= j < |q.order| :: q.order[j] < |q.slots|)
            && !p.slots[q.order[|p.order|]].used && q.slots[q.order[|p.order|]].serial == p.next
            && FirstWith(q, mid, |p.order|) && Answer(q, mid).order == p.order
  {
    var i := FirstFree(p.slots);
    var q := New(p, mid);
    forall j | 0 <= j < |p.order|
      ensures q.order[j] == p.order[j] != i
    {
      assert p.order[j] in p.order;
    }
    AnswerExact(q, mid, |p.order|);
  }

  // ---------------------------------------------------------------- silence afterwards

  /** Transaction s was allocated and is in no block any more. */
  ghost predicate Gone(p: Pool, s: nat) {
    s < p.next && forall i: nat :: Live(p, i) ==> p.slots[i].serial != s
  }

  /** Nothing happened to transaction s between the two. */
  ghost predicate Silent(p: Pool, q: Pool, s: nat) {
    p.log <= q.log && forall j | |p.log| <= j < |q.log| :: q.log[j].serial != s
  }

  lemma SilentTwice(p: Pool, q: Pool, r: Pool, s: nat)
    requires Silent(p, q, s) && Silent(q, r, s)
    ensures Silent(p, r, s)
  {
  }

  /** Blocks keep their transactions, and none is allocated. */
  ghost predicate Shrinks(p: Pool, q: Pool) {
    && |q.slots| == |p.slots| && q.next == p.next
    && forall j | 0 <= j < |p.slots| :: q.slots[j].serial == p.slots[j].serial && (q.slots[j].used ==> p.slots[j].used)
  }

  lemma SendShrinks(p: Pool, i: nat, random: nat)
    requires i < |p.slots|
    ensures Shrinks(p, Send(p, i, random))
  {
  }

  lemma SendSilent(p: Pool, i: nat, random: nat, s: nat)
    requires i < |p.slots| && p.slots[i].serial != s
    ensures Silent(p, Send(p, i, random), s)
  {
  }

  lemma {:induction false} CheckSilent(p: Pool, todo: seq<nat>, s: nat)
    requires forall k | 0 <= k < |todo| :: todo[k] < |p.slots| && p.slots[todo[k]].serial != s
    ensures Silent(p, CheckFrom(p, todo), s) && Shrinks(p, CheckFrom(p, todo))
    decreases |todo|
  {
    hide Send;
    if todo != [] {
      var i := todo[0];
      var t := p.slots[i];
      if t.stopped {
        var due := p.(slots := p.slots[i := t.(counter := t.counter + 1)]);
        SendSilent(due, i, 0, s);
        SendShrinks(due, i, 0);
        CheckSilent(Send(due, i, 0), todo[1..], s);
        SilentTwice(p, Send(due, i, 0), CheckFrom(Send(due, i, 0), todo[1..]), s);
      } else {
        CheckSilent(p, todo[1..], s);
      }
    }
  }

  lemma GoneStays(p: Pool, q: Pool, s: nat)
    requires Gone(p, s) && Shrinks(p, q)
    ensures Gone(q, s)
  {
  }

  lemma StepSilent(p: Pool, step: Step, s: nat)
    requires PoolOk(p) && Enabled(p, step) && Gone(p, s)
    ensures Silent(p, Next(p, step), s) && Gone(Next(p, step), s)
  {
    hide PoolOk, Send, CheckFrom;
    match step
    case Dispatch(i, confirmable, random) =>
      var t := p.slots[i].(confirmable := confirmable, begun := true);
      var q := p.(slots := p.slots[i := t]);
      SendSilent(q, i, random, s);
      SendShrinks(q, i, random);
    case Check =>
      OrderLive(p);
      CheckSilent(p, p.order, s);
      GoneStays(p, CheckFrom(p, p.order), s);
    case Receive(mid) =>
      OrderLive(p);
      AnsweredOther(p, mid, s);
    case _ =>
  }

  lemma AnsweredOther(p: Pool, mid: nat, s: nat)
    requires Gone(p, s) && forall k | 0 <= k < |p.order| :: Live(p, p.order[k])
    ensures Silent(p, Answer(p, mid), s) && Gone(Answer(p, mid), s)
  {
  }

  lemma {:induction false} RunSilent(p: Pool, steps: seq<Step>, s: nat)
    requires PoolOk(p) && CanRun(p, steps) && Gone(p, s)
    ensures Silent(p, Run(p, steps), s)
    decreases steps
  {
    hide PoolOk, Next, Enabled, Gone;
    if steps != [] {
      var q := Next(p, steps[0]);
      StepKeeps(p, steps[0]);
      StepSilent(p, steps[0], s);
      RunSilent(q, steps[1..], s);
      SilentTwice(p, q, Run(q, steps[1..]), s);
    }
  }

  /**
   After any run an answer ends the first transaction with its message id; in every continuation that transaction is not
   sent, waited for or called again.
  */
  lemma AnsweredSilent(p: Pool, before: seq<Step>, mid: nat, k: nat, later: seq<Step>)
    requires Initial(p) && CanRun(p, before) && Enabled(Run(p, before), Receive(mid))
    requires FirstWith(Run(p, before), mid, k) && CanRun(Next(Run(p, before), Receive(mid)), later)
    ensures var q := Run(p, before);
            var s := q.slots[q.order[k]].serial;
            Silent(Next(q, Receive(mid)), Run(Next(q, Receive(mid)), later), s)
  {
    hide PoolOk, Run, CanRun;
    var q := Run(p, before);
    InitialOk(p);
    RunKeeps(p, before);
    OrderLive(q);
    AnswerExact(q, mid, k);
    StepKeeps(q, Receive(mid));
    OnlyBlock(q, q.order[k]);
    RunSilent(Next(q, Receive(mid)), later, q.slots[q.order[k]].serial);
  }

  lemma OnlyBlock(p: Pool, i: nat)
    requires PoolOk(p) && Live(p, i)
    ensures p.slots[i].serial < p.next
    ensures forall j: nat | Live(p, j) && j != i :: p.slots[j].serial != p.slots[i].serial
  {
    hide CountsOk;
    assert TransactionOk(p.slots[i], p.log, p.next);
  }
}
