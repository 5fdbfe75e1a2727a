/** What every run keeps, safe or not: a node starts each program at most once, and no older one after a newer. */
module CodepropOnce {
  import opened Bytes
  import opened Codeprop
  import opened CodepropNetwork

  /** The started programs have rising ids, all below the one that is being received. */
  predicate RisingStarts(r: Receiver) {
    && (forall i, j | 0 <= i < j < |r.starts| :: r.starts[i].id < r.starts[j].id)
    && forall i | 0 <= i < |r.starts| :: r.starts[i].id <= r.id && (r.receiving ==> r.starts[i].id < r.id)
  }

  predicate AllRising(net: Net) {
    forall n | 0 <= n < |net.receivers| :: ValidReceiver(net.receivers[n]) && RisingStarts(net.receivers[n])
  }

  lemma FinishRises(r: Receiver)
    requires ValidReceiver(r) && RisingStarts(r) && r.receiving
    ensures RisingStarts(Finish(r))
  {
  }

  lemma TakeRises(r: Receiver, addr: nat, data: seq<byte>)
    requires ValidReceiver(r) && RisingStarts(r) && r.receiving && |data| <= UDPDATASIZE
    ensures RisingStarts(Take(r, addr, data).r) && ValidReceiver(Take(r, addr, data).r)
  {
    hide Overwrite;
    FinishRises(r);
    if addr == r.addr {
      FinishRises(r.(store := Overwrite(r.store, addr, data), addr := (r.addr + |data|) % U16));
    }
  }

  lemma ReceiveRises(r: Receiver, p: Packet)
    requires ValidReceiver(r) && RisingStarts(r) && ValidPacket(p)
    ensures RisingStarts(Receive(r, p).r) && ValidReceiver(Receive(r, p).r)
  {
    hide Take, Finish;
    if r.receiving && p.id == r.id {
      TakeRises(r, p.addr, p.data);
    } else if !r.receiving && p.id > r.id {
      var started := r.(receiving := true, id := p.id, len := p.len, addr := 0);
      if p.len > 0 {
        TakeRises(started, 0, p.data);
      } else {
        FinishRises(started);
        FinishValid(started);
      }
    }
  }

  lemma FinishValid(r: Receiver)
    requires ValidReceiver(r)
    ensures ValidReceiver(Finish(r))
  {
  }

  lemma StepRises(net: Net, step: Step)
    requires AllRising(net) && Enabled(net, step)
    ensures AllRising(Next(net, step)) && |Next(net, step).receivers| == |net.receivers|
  {
    hide RisingStarts, Receive;
    match step
    case Deliver(n, p) => ReceiveRises(net.receivers[n], p);
    case _ =>
  }

  lemma {:induction false} RunRises(net: Net, steps: seq<Step>)
    requires AllRising(net) && CanRun(net, steps)
    ensures AllRising(Run(net, steps))
    decreases steps
  {
    hide AllRising, Next, Enabled;
    if steps != [] {
      StepRises(net, steps[0]);
      RunRises(Next(net, steps[0]), steps[1..]);
    }
  }

  /** In every run, whatever the network does. */
  lemma StartedOnce(net: Net, steps: seq<Step>, n: nat)
    requires Initial(net) && CanRun(net, steps) && n < |Run(net, steps).receivers|
    ensures var starts := Run(net, steps).receivers[n].starts;
            forall i, j | 0 <= i < j < |starts| :: starts[i].id < starts[j].id
  {
    hide Run, CanRun;
    RunRises(net, steps);
  }

  // ---------------------------------------------------------------- NACKs

  /** A packet from further on makes a receiver ask for its own address, and the sender goes back to it. */
  lemma GapRepaired(net: Net, n: nat, p: Packet)
    requires Enabled(net, Deliver(n, p)) && net.sender.sending
    requires var r := net.receivers[n];
             r.receiving && p.id == r.id && r.addr < r.len && r.addr < p.addr && r.addr <= net.sender.addr
    ensures var r, steps := net.receivers[n], [Deliver(n, p), Hear(net.receivers[n].addr)];
            && CanRun(net, steps) && Run(net, steps).receivers == net.receivers
            && Run(net, steps).sender == net.sender.(addr := r.addr)
  {
    var at := net.receivers[n].addr;
    var next := Next(net, Deliver(n, p));
    assert next.receivers == net.receivers && at in next.nacks;
    RunCons(next, Hear(at), []);
    RunCons(net, Deliver(n, p), [Hear(at)]);
    assert [Hear(at)] + [] == [Hear(at)] && [Deliver(n, p)] + [Hear(at)] == [Deliver(n, p), Hear(at)];
  }

  /** A waiting receiver that meets a new program in the middle makes the sender start again. */
  lemma StartRepeated(net: Net, n: nat, p: Packet)
    requires Enabled(net, Deliver(n, p)) && net.sender.sending
    requires var r := net.receivers[n];
             !r.receiving && p.id > r.id && p.addr != 0
    ensures var steps := [Deliver(n, p), Hear(0)];
            CanRun(net, steps) && Run(net, steps).sender == net.sender.(addr := 0)
  {
    hide Take, Finish;
    var next := Next(net, Deliver(n, p));
    assert Receive(net.receivers[n], p).nacks[0] == 0;
    RunCons(next, Hear(0), []);
    RunCons(net, Deliver(n, p), [Hear(0)]);
    assert [Hear(0)] + [] == [Hear(0)] && [Deliver(n, p)] + [Hear(0)] == [Deliver(n, p), Hear(0)];
  }
}
