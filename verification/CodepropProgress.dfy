/**
 A transfer can always be completed: from every state that a run leads to, whatever was lost, NACKs take the sender back
 to the address that a receiver waits for.
*/
module CodepropProgress {
  import opened Bytes
  import opened Codeprop
  import opened CodepropNetwork

  // ---------------------------------------------------------------- what every run keeps, safe or not

  /** The receiver is in the middle of a known program of the right length; what it has need not be a prefix of it. */
  predicate ReceiverLive(r: Receiver, images: seq<seq<byte>>) {
    && ValidReceiver(r) && r.id <= |images|
    && (r.receiving ==> r.id > 0 && r.len == |images[r.id - 1]| && r.addr < r.len)
  }

  predicate NetLive(net: Net) {
    && SenderOk(net.sender)
    && (forall p | p in net.packets :: PacketOk(p, net.sender.images))
    && forall n | 0 <= n < |net.receivers| :: ReceiverLive(net.receivers[n], net.sender.images)
  }

  lemma TakeLive(r: Receiver, addr: nat, data: seq<byte>, images: seq<seq<byte>>)
    requires ReceiverLive(r, images) && r.receiving && |data| <= UDPDATASIZE && r.len > 0
    requires addr == r.addr ==> r.addr + |data| <= r.len
    ensures ReceiverLive(Take(r, addr, data).r, images)
  {
    hide Overwrite;
  }

  lemma ReceiveLive(r: Receiver, p: Packet, images: seq<seq<byte>>)
    requires ReceiverLive(r, images) && PacketOk(p, images)
    ensures ReceiverLive(Receive(r, p).r, images)
  {
    hide Overwrite, Take;
    if r.receiving && p.id == r.id {
      TakeLive(r, p.addr, p.data, images);
    } else if !r.receiving && p.id > r.id {
      var started := r.(receiving := true, id := p.id, len := p.len, addr := 0);
      if p.len > 0 {
        TakeLive(started, 0, p.data, images);
      }
    }
  }

  lemma UploadLive(net: Net, program: seq<byte>)
    requires NetLive(net) && Enabled(net, Upload(program))
    ensures NetLive(Next(net, Upload(program)))
  {
    var images := net.sender.images;
    var more := images + [program];
    forall p | p in net.packets
      ensures PacketOk(p, more)
    {
      assert more[p.id - 1] == images[p.id - 1];
    }
    forall n | 0 <= n < |net.receivers|
      ensures ReceiverLive(net.receivers[n], more)
    {
      var r := net.receivers[n];
      assert r.receiving ==> more[r.id - 1] == images[r.id - 1];
    }
  }

  lemma StepLive(net: Net, step: Step)
    requires NetLive(net) && Enabled(net, step)
    ensures NetLive(Next(net, step))
  {
    hide PacketOk, ReceiverLive;
    match step
    case Upload(program) => UploadLive(net, program);
    case Send => SendKeeps(net.sender);
    case Deliver(n, p) => ReceiveLive(net.receivers[n], p, net.sender.images);
    case _ =>
  }

  lemma {:induction false} RunLive(net: Net, steps: seq<Step>)
    requires NetLive(net) && CanRun(net, steps)
    ensures NetLive(Run(net, steps))
    decreases steps
  {
    hide NetLive, Next, Enabled;
    if steps != [] {
      StepLive(net, steps[0]);
      RunLive(Next(net, steps[0]), steps[1..]);
    }
  }

  // ---------------------------------------------------------------- a run that completes a transfer

  /** Receiver n is in the middle of the program that the sender is sending. */
  predicate Midway(net: Net, n: nat) {
    && NetLive(net) && net.sender.sending && n < |net.receivers|
    && net.receivers[n].receiving && net.receivers[n].id == |net.sender.images|
  }

  /** Nothing but the sender's address and what is in the air has changed. */
  predicate SameTransfer(net: Net, last: Net) {
    && last.receivers == net.receivers && last.sender == net.sender.(addr := last.sender.addr)
    && net.packets <= last.packets && net.nacks <= last.nacks
  }

  /** The sender goes on until it has passed an address. */
  lemma {:induction false} SendUntil(net: Net, n: nat, target: nat) returns (steps: seq<Step>)
    requires Midway(net, n) && target <= |Image(net.sender)|
    ensures CanRun(net, steps) && SameTransfer(net, Run(net, steps)) && NetLive(Run(net, steps))
    ensures Run(net, steps).sender.addr >= target
    decreases |Image(net.sender)| - net.sender.addr
  {
    hide PacketOk, ReceiverLive;
    if net.sender.addr >= target {
      steps := [];
    } else {
      var next := Next(net, Send);
      StepLive(net, Send);
      var rest := SendUntil(next, n, target);
      RunCons(net, Send, rest);
      steps := [Send] + rest;
    }
  }

  /** The receiver asks for its address and the sender goes back to it. */
  lemma AskAgain(net: Net, n: nat) returns (steps: seq<Step>)
    requires Midway(net, n)
    ensures CanRun(net, steps) && NetLive(Run(net, steps))
    ensures var last := Run(net, steps);
            last.receivers == net.receivers && last.sender == net.sender.(addr := net.receivers[n].addr)
  {
    hide PacketOk;
    var at := net.receivers[n].addr;
    assert ReceiverLive(net.receivers[n], net.sender.images);
    var asked := Next(net, Timeout(n));
    StepLive(net, Timeout(n));
    var sends := SendUntil(asked, n, at);
    var passed := Run(asked, sends);
    RunLive(passed, [Hear(at)]);
    RunConcat(asked, sends, [Hear(at)]);
    RunCons(net, Timeout(n), sends + [Hear(at)]);
    steps := [Timeout(n)] + (sends + [Hear(at)]);
  }

  lemma {:induction false} RunConcat(net: Net, first: seq<Step>, second: seq<Step>)
    requires CanRun(net, first) && CanRun(Run(net, first), second)
    ensures CanRun(net, first + second) && Run(net, first + second) == Run(Run(net, first), second)
    decreases first
  {
    hide Next, Enabled;
    if first == [] {
      assert first + second == second;
    } else {
      RunConcat(Next(net, first[0]), first[1..], second);
      assert (first + second)[1..] == first[1..] + second;
    }
  }

  /** The program that a receiver starts when it gets the rest of the image behind what it has. */
  function Completed(r: Receiver, image: seq<byte>): seq<byte>
    requires r.addr <= |r.store| && r.addr <= |image|
  {
    r.store[..r.addr] + image[r.addr..]
  }

  /** The sender sends what the receiver waits for, again and again, until the program is complete. */
  lemma {:induction false} SendRest(net: Net, n: nat) returns (steps: seq<Step>)
    requires Midway(net, n) && net.sender.addr == net.receivers[n].addr
    ensures CanRun(net, steps) && n < |Run(net, steps).receivers|
    ensures var r, last := net.receivers[n], Run(net, steps).receivers[n];
            && !last.receiving && last.id == r.id && r.addr <= |r.store| && r.addr <= |Image(net.sender)|
            && last.starts == r.starts + [Start(r.id, Completed(r, Image(net.sender)))]
    decreases |Image(net.sender)| - net.sender.addr
  {
    hide PacketOk;
    var r := net.receivers[n];
    assert ReceiverLive(r, net.sender.images);
    var p := PacketOf(net.sender);
    SendKeeps(net.sender);
    StepLive(net, Send);
    var sent := Next(net, Send);
    assert PacketOk(p, net.sender.images);
    PacketFits(p, net.sender.images);
    StepLive(sent, Deliver(n, p));
    var next := Next(sent, Deliver(n, p));
    var got := next.receivers[n];
    TakenNext(r, net.sender);
    if got.receiving {
      var rest := SendRest(next, n);
      RunCons(sent, Deliver(n, p), rest);
      RunCons(net, Send, [Deliver(n, p)] + rest);
      steps := [Send] + ([Deliver(n, p)] + rest);
    } else {
      RunCons(sent, Deliver(n, p), []);
      RunCons(net, Send, [Deliver(n, p)] + []);
      steps := [Send] + ([Deliver(n, p)] + []);
    }
  }

  lemma PacketFits(p: Packet, images: seq<seq<byte>>)
    requires PacketOk(p, images)
    ensures ValidPacket(p)
  {
  }

  /** The packet for the receiver's address is taken; the rest of the image is as much shorter. */
  lemma TakenNext(r: Receiver, s: Sender)
    requires ReceiverLive(r, s.images) && r.receiving && r.id == |s.images| && s.addr == r.addr && SenderOk(s)
    ensures ValidPacket(PacketOf(s))
    ensures var q, image := Receive(r, PacketOf(s)).r, Image(s);
            && q.id == r.id && r.addr <= |r.store| && r.addr < |image|
            && if AfterSend(s).addr < |image| then
                 && q.receiving && q.addr == AfterSend(s).addr && q.starts == r.starts && q.addr <= |q.store|
                 && Completed(q, image) == Completed(r, image)
               else !q.receiving && q.starts == r.starts + [Start(r.id, Completed(r, image))]
  {
    hide Overwrite;
    var image, n := Image(s), ChunkLength(s.addr, |Image(s)|);
    var data := image[r.addr..r.addr + n];
    var store := Overwrite(r.store, r.addr, data);
    Overwritten(r.store, r.addr, data);
    assert r.len == |image| == |s.images[r.id - 1]|;
    assert Take(r, r.addr, data).r == Finish(r.(store := store, addr := r.addr + n));
    assert image[r.addr..] == data + image[r.addr + n..];
    if r.addr + n == |image| {
      assert image[r.addr + n..] == [];
      assert Completed(r, image) == store[..r.len];
    }
  }

  lemma Overwritten(s: seq<byte>, at: nat, x: seq<byte>)
    requires at + |x| <= |s|
    ensures Overwrite(s, at, x)[..at + |x|] == s[..at] + x
  {
  }

  /**
   From every state that a run leads to, with a receiver in the middle of the program that is being sent, some run
   completes it: the receiver starts what it had and the rest of the image behind it.
  */
  lemma TransferPossible(net: Net, before: seq<Step>, n: nat) returns (steps: seq<Step>)
    requires Initial(net) && CanRun(net, before) && Midway(Run(net, before), n)
    ensures var here := Run(net, before);
            && CanRun(here, steps) && n < |Run(here, steps).receivers|
            && var r, last := here.receivers[n], Run(here, steps).receivers[n];
               && !last.receiving && r.addr <= |r.store| && r.addr <= |Image(here.sender)|
               && last.starts == r.starts + [Start(r.id, Completed(r, Image(here.sender)))]
  {
    hide PacketOk, Run, CanRun;
    var here := Run(net, before);
    var back := AskAgain(here, n);
    var rest := SendRest(Run(here, back), n);
    RunConcat(here, back, rest);
    steps := back + rest;
  }

  /** In a safe state that is the whole image. */
  lemma SafeCompleted(net: Net, n: nat)
    requires Midway(net, n) && NetOk(net)
    ensures var r := net.receivers[n];
            && r.addr <= |r.store| && r.addr <= |Image(net.sender)|
            && Completed(r, Image(net.sender)) == Image(net.sender)
  {
    hide PacketOk;
    var r := net.receivers[n];
    assert ReceiverOk(r, net.sender.images);
    assert Image(net.sender)[..r.addr] + Image(net.sender)[r.addr..] == Image(net.sender);
  }
}
