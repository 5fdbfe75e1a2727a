/**
 Runs of one sender and any number of receivers over a network that loses, repeats and reorders packets. What the
 receivers have is always a prefix of the program, as long as every new program reaches them with its first packet
 first; otherwise it need not be.
*/
module CodepropNetwork {
  import opened Bytes
  import opened Codeprop

  datatype Net = Net(sender: Sender, packets: set<Packet>, nacks: set<nat>, receivers: seq<Receiver>)

  datatype Step =
    | Upload(program: seq<byte>)
    | Send
    | Idle
    | Hear(addr: nat)
    | Deliver(node: nat, packet: Packet)
    | Timeout(node: nat)

  /** Packets and NACKs can be delivered any number of times once they were sent. Program ids are 16 bits wide. */
  predicate Enabled(net: Net, step: Step) {
    match step
    case Upload(program) => !net.sender.sending && |program| < U16 && |net.sender.images| + 1 < U16
    case Send => net.sender.sending && net.sender.addr < |Image(net.sender)|
    case Idle => net.sender.sending && net.sender.addr >= |Image(net.sender)|
    case Hear(addr) => net.sender.sending && addr in net.nacks
    case Deliver(n, p) => n < |net.receivers| && p in net.packets && ValidReceiver(net.receivers[n]) && ValidPacket(p)
    case Timeout(n) => n < |net.receivers| && net.receivers[n].receiving
  }

  function Next(net: Net, step: Step): Net
    requires Enabled(net, step)
  {
    var s := net.sender;
    match step
    case Upload(program) => net.(sender := Sender(true, 0, s.images + [program]))
    case Send => net.(sender := AfterSend(s), packets := net.packets + {PacketOf(s)})
    case Idle => net.(sender := s.(sending := false))
    case Hear(addr) => net.(sender := AfterNack(s, addr))
    case Deliver(n, p) =>
      var reply := Receive(net.receivers[n], p);
      net.(receivers := net.receivers[n := reply.r], nacks := net.nacks + (set a | a in reply.nacks))
    case Timeout(n) => net.(nacks := net.nacks + {net.receivers[n].addr})
  }

  /** A waiting receiver gets the first packet of a new program before the others. */
  predicate InOrder(net: Net, step: Step)
    requires Enabled(net, step)
  {
    step.Deliver? ==>
      var r := net.receivers[step.node];
      !r.receiving && step.packet.id > r.id ==> step.packet.addr == 0
  }

  /** The data of the packet could be the first bytes of its program. */
  predicate CouldStart(p: Packet, images: seq<seq<byte>>) {
    KnownId(p.id, images) && |p.data| <= |images[p.id - 1]| && p.data == images[p.id - 1][..|p.data|]
  }

  /** A waiting receiver takes up a new program only with data that could be its first bytes. */
  predicate Faithful(net: Net, step: Step)
    requires Enabled(net, step)
  {
    step.Deliver? ==>
      var r := net.receivers[step.node];
      !r.receiving && step.packet.id > r.id ==> CouldStart(step.packet, net.sender.images)
  }

  ghost predicate CanRun(net: Net, steps: seq<Step>)
    decreases steps
  {
    steps == [] || (Enabled(net, steps[0]) && CanRun(Next(net, steps[0]), steps[1..]))
  }

  ghost predicate OrderlyRun(net: Net, steps: seq<Step>)
    requires CanRun(net, steps)
    decreases steps
  {
    steps == [] || (InOrder(net, steps[0]) && OrderlyRun(Next(net, steps[0]), steps[1..]))
  }

  ghost predicate FaithfulRun(net: Net, steps: seq<Step>)
    requires CanRun(net, steps)
    decreases steps
  {
    steps == [] || (Faithful(net, steps[0]) && FaithfulRun(Next(net, steps[0]), steps[1..]))
  }

  ghost function Run(net: Net, steps: seq<Step>): Net
    requires CanRun(net, steps)
    decreases steps
  {
    if steps == [] then net else Run(Next(net, steps[0]), steps[1..])
  }

  predicate Fresh(r: Receiver) {
    ValidReceiver(r) && !r.receiving && r.id == 0 && r.starts == []
  }

  predicate Initial(net: Net) {
    && net.sender == Sender(false, 0, []) && net.packets == {} && net.nacks == {}
    && forall n | 0 <= n < |net.receivers| :: Fresh(net.receivers[n])
  }

  // ---------------------------------------------------------------- safety

  predicate KnownId(id: nat, images: seq<seq<byte>>) {
    1 <= id <= |images|
  }

  /** The program is the sender's image of that id, complete. */
  predicate StartOk(s: Start, images: seq<seq<byte>>) {
    KnownId(s.id, images) && s.program == images[s.id - 1]
  }

  /** A receiver has a prefix of the image it receives, and has started only complete images. */
  predicate ReceiverSafe(r: Receiver, images: seq<seq<byte>>) {
    && |r.store| == EEPROM_SIZE
    && (r.receiving ==> KnownId(r.id, images) && r.addr <= |images[r.id - 1]| && r.addr <= |r.store|
                        && r.store[..r.addr] == images[r.id - 1][..r.addr])
    && forall k | 0 <= k < |r.starts| :: StartOk(r.starts[k], images)
  }

  predicate Safe(net: Net) {
    forall n | 0 <= n < |net.receivers| :: ReceiverSafe(net.receivers[n], net.sender.images)
  }

  // ---------------------------------------------------------------- the invariant

  predicate PacketOk(p: Packet, images: seq<seq<byte>>) {
    && ValidPacket(p) && KnownId(p.id, images)
    && var image := images[p.id - 1];
       p.len == |image| && p.addr + |p.data| <= |image| && p.data == image[p.addr..p.addr + |p.data|]
  }

  predicate ReceiverOk(r: Receiver, images: seq<seq<byte>>) {
    && ValidReceiver(r) && r.id <= |images| && ReceiverSafe(r, images)
    && (r.receiving ==> r.len == |images[r.id - 1]| && r.addr < r.len)
  }

  predicate SenderOk(s: Sender) {
    && s.addr <= |Image(s)| && (s.sending ==> s.images != [])
    && forall k | 0 <= k < |s.images| :: |s.images[k]| < U16
  }

  predicate NetOk(net: Net) {
    && SenderOk(net.sender)
    && (forall p | p in net.packets :: PacketOk(p, net.sender.images))
    && forall n | 0 <= n < |net.receivers| :: ReceiverOk(net.receivers[n], net.sender.images)
  }

  lemma InitialOk(net: Net)
    requires Initial(net)
    ensures NetOk(net)
  {
  }

  /** Writing the next bytes of the image behind a prefix of it gives a longer prefix. */
  lemma PrefixGrows(store: seq<byte>, addr: nat, data: seq<byte>, image: seq<byte>)
    requires addr + |data| <= |store| && addr + |data| <= |image|
    requires store[..addr] == image[..addr] && data == image[addr..addr + |data|]
    ensures Overwrite(store, addr, data)[..addr + |data|] == image[..addr + |data|]
  {
    assert Overwrite(store, addr, data)[..addr + |data|] == store[..addr] + data;
    assert image[..addr + |data|] == image[..addr] + data;
  }

  /** A receiver whose prefix is right, before the check whether it is complete. */
  lemma FinishKeeps(r: Receiver, images: seq<seq<byte>>)
    requires ValidReceiver(r) && r.id <= |images| && ReceiverSafe(r, images) && r.receiving
    requires r.len == |images[r.id - 1]|
    ensures ReceiverOk(Finish(r), images)
  {
    if r.addr >= r.len {
      assert images[r.id - 1][..r.addr] == images[r.id - 1];
      assert StartOk(Start(r.id, r.store[..r.len]), images);
    }
  }

  lemma TakeKeeps(r: Receiver, p: Packet, images: seq<seq<byte>>)
    requires ReceiverOk(r, images) && PacketOk(p, images) && r.receiving && p.id == r.id
    ensures ReceiverOk(Take(r, p.addr, p.data).r, images)
  {
    hide Overwrite, Finish;
    if p.addr == r.addr {
      PrefixGrows(r.store, r.addr, p.data, images[r.id - 1]);
      FinishKeeps(r.(store := Overwrite(r.store, r.addr, p.data), addr := r.addr + |p.data|), images);
    } else {
      FinishKeeps(r, images);
    }
  }

  /** A first packet whose data are the first bytes, whatever address it carries. */
  lemma AcceptKeeps(r: Receiver, p: Packet, images: seq<seq<byte>>)
    requires ReceiverOk(r, images) && PacketOk(p, images) && !r.receiving && p.data == images[p.id - 1][..|p.data|]
    ensures ReceiverOk(Accept(r, p).r, images)
  {
    hide Overwrite, Finish, Take;
    var started := r.(receiving := true, id := p.id, len := p.len, addr := 0);
    assert started.store[..0] == images[p.id - 1][..0];
    if p.len == 0 {
      FinishKeeps(started, images);
    } else {
      TakeKeeps(started, p.(addr := 0), images);
    }
  }

  /** A new program leaves the old ones as they are. */
  lemma UploadKeeps(net: Net, program: seq<byte>)
    requires NetOk(net) && Enabled(net, Upload(program))
    ensures NetOk(Next(net, Upload(program)))
  {
    var images := net.sender.images;
    var more := images + [program];
    forall p | p in net.packets
      ensures PacketOk(p, more)
    {
      assert more[p.id - 1] == images[p.id - 1];
    }
    forall n | 0 <= n < |net.receivers|
      ensures ReceiverOk(net.receivers[n], more)
    {
      GrownImages(net.receivers[n], images, program);
    }
  }

  lemma GrownImages(r: Receiver, images: seq<seq<byte>>, program: seq<byte>)
    requires ReceiverOk(r, images)
    ensures ReceiverOk(r, images + [program])
  {
    var more := images + [program];
    assert r.receiving ==> more[r.id - 1] == images[r.id - 1];
    forall k | 0 <= k < |r.starts|
      ensures StartOk(r.starts[k], more)
    {
      assert StartOk(r.starts[k], images);
    }
  }

  lemma SendKeeps(s: Sender)
    requires SenderOk(s) && s.sending && s.addr < |Image(s)|
    ensures SenderOk(AfterSend(s)) && PacketOk(PacketOf(s), s.images)
  {
  }

  lemma StepKeeps(net: Net, step: Step)
    requires NetOk(net) && Enabled(net, step) && Faithful(net, step)
    ensures NetOk(Next(net, step))
  {
    hide PacketOk, ReceiverOk;
    match step
    case Upload(program) => UploadKeeps(net, program);
    case Send => SendKeeps(net.sender);
    case Deliver(n, p) =>
      ReceiveKeeps(net.receivers[n], p, net.sender.images);
    case _ =>
  }

  lemma ReceiveKeeps(r: Receiver, p: Packet, images: seq<seq<byte>>)
    requires ReceiverOk(r, images) && PacketOk(p, images)
    requires !r.receiving && p.id > r.id ==> CouldStart(p, images)
    ensures ReceiverOk(Receive(r, p).r, images)
  {
    if r.receiving && p.id == r.id {
      TakeKeeps(r, p, images);
    } else if !r.receiving && p.id > r.id {
      AcceptKeeps(r, p, images);
    }
  }

  // ---------------------------------------------------------------- programs that start in the middle

  /** A first packet that is shorter than its program is stored at the start. */
  lemma FirstTaken(r: Receiver, p: Packet)
    requires ValidReceiver(r) && ValidPacket(p) && !r.receiving && p.id > r.id && |p.data| < p.len
    ensures Receive(r, p).r
         == r.(receiving := true, id := p.id, len := p.len, addr := |p.data|, store := Overwrite(r.store, 0, p.data))
  {
    hide Overwrite;
  }

  lemma OverwriteStart(s: seq<byte>, x: seq<byte>)
    requires |x| <= |s|
    ensures Overwrite(s, 0, x)[..|x|] == x
  {
  }

  /** What a waiting receiver makes of the first packet it sees: a prefix only if the data could be the first bytes. */
  lemma FirstPacketExact(r: Receiver, p: Packet, images: seq<seq<byte>>)
    requires ReceiverOk(r, images) && PacketOk(p, images) && !r.receiving && p.id > r.id
    ensures ReceiverSafe(Receive(r, p).r, images) <==> p.data == images[p.id - 1][..|p.data|]
  {
    hide Overwrite, Accept;
    if p.data == images[p.id - 1][..|p.data|] {
      AcceptKeeps(r, p, images);
    } else {
      assert |p.data| < p.len;
      hide Receive;
      FirstTaken(r, p);
      OverwriteStart(r.store, p.data);
    }
  }

  lemma StepExact(net: Net, step: Step)
    requires NetOk(net) && Enabled(net, step)
    ensures if Faithful(net, step) then NetOk(Next(net, step)) else !Safe(Next(net, step))
  {
    if Faithful(net, step) {
      StepKeeps(net, step);
    } else {
      var n, p := step.node, step.packet;
      hide PacketOk, ReceiverOk, Receive, ReceiverSafe;
      KnownImage(p, net.sender.images);
      FirstPacketExact(net.receivers[n], p, net.sender.images);
      assert Next(net, step).receivers[n] == Receive(net.receivers[n], p).r;
    }
  }

  lemma KnownImage(p: Packet, images: seq<seq<byte>>)
    requires PacketOk(p, images)
    ensures KnownId(p.id, images) && |p.data| <= |images[p.id - 1]|
  {
  }

  lemma OkSafe(net: Net)
    requires NetOk(net)
    ensures Safe(net)
  {
  }

  /** The first k steps of a run are a run. */
  lemma {:induction false} PrefixRuns(net: Net, steps: seq<Step>, k: nat)
    requires CanRun(net, steps) && k <= |steps|
    ensures CanRun(net, steps[..k])
    ensures k > 0 ==> CanRun(Next(net, steps[0]), steps[1..][..k - 1])
                      && Run(net, steps[..k]) == Run(Next(net, steps[0]), steps[1..][..k - 1])
    decreases steps
  {
    hide Enabled, Next;
    if k > 0 {
      PrefixRuns(Next(net, steps[0]), steps[1..], k - 1);
      assert steps[..k] == [steps[0]] + steps[1..][..k - 1];
      RunCons(net, steps[0], steps[1..][..k - 1]);
    }
  }

  /** All states on the way are safe. */
  ghost predicate SafeThroughout(net: Net, steps: seq<Step>)
    requires CanRun(net, steps)
  {
    forall k | 0 <= k <= |steps| :: SafeAfter(net, steps, k)
  }

  ghost predicate SafeAfter(net: Net, steps: seq<Step>, k: nat)
    requires CanRun(net, steps) && k <= |steps|
  {
    PrefixRuns(net, steps, k);
    Safe(Run(net, steps[..k]))
  }

  lemma {:induction false} RunExact(net: Net, steps: seq<Step>)
    requires NetOk(net) && CanRun(net, steps)
    ensures SafeThroughout(net, steps) <==> FaithfulRun(net, steps)
    decreases steps
  {
    hide NetOk, Enabled, Next, Safe, Faithful;
    OkSafe(net);
    if steps == [] {
      assert steps[..0] == [];
      NoSteps(net);
    } else {
      var next := Next(net, steps[0]);
      StepExact(net, steps[0]);
      ThroughoutCons(net, steps);
      if Faithful(net, steps[0]) {
        RunExact(next, steps[1..]);
      }
    }
  }

  lemma ThroughoutCons(net: Net, steps: seq<Step>)
    requires CanRun(net, steps) && steps != [] && Safe(net)
    ensures SafeThroughout(net, steps) <==> SafeThroughout(Next(net, steps[0]), steps[1..])
    ensures SafeThroughout(net, steps) ==> Safe(Next(net, steps[0]))
  {
    hide Enabled, Next, Safe;
    var next, rest := Next(net, steps[0]), steps[1..];
    NoSteps(net);
    NoSteps(next);
    assert steps[..0] == [] && rest[..0] == [];
    forall k: nat | k <= |rest|
      ensures SafeAfter(net, steps, k + 1) <==> SafeAfter(next, rest, k)
    {
      PrefixRuns(net, steps, k + 1);
    }
    if SafeThroughout(net, steps) {
      forall k: nat | k <= |rest|
        ensures SafeAfter(next, rest, k)
      {
        assert SafeAfter(net, steps, k + 1);
      }
      assert SafeAfter(next, rest, 0);
    }
    if SafeThroughout(next, rest) {
      forall k: nat | k <= |steps|
        ensures SafeAfter(net, steps, k)
      {
        assert k > 0 ==> SafeAfter(next, rest, k - 1);
      }
    }
  }

  /**
   Whatever is lost, repeated or reordered: a run is safe throughout if and only if every receiver that was waiting
   took up each new program with data that could be its first bytes.
  */
  lemma RunSafeExactly(net: Net, steps: seq<Step>)
    requires Initial(net) && CanRun(net, steps)
    ensures SafeThroughout(net, steps) <==> FaithfulRun(net, steps)
  {
    hide NetOk;
    InitialOk(net);
    RunExact(net, steps);
  }

  /** In particular receivers have prefixes of the image and start only complete ones when first packets come first. */
  lemma OrderlyRunsSafe(net: Net, steps: seq<Step>)
    requires Initial(net) && CanRun(net, steps) && OrderlyRun(net, steps)
    ensures SafeThroughout(net, steps)
  {
    hide NetOk;
    InitialOk(net);
    OrderlyFaithful(net, steps);
    RunExact(net, steps);
  }

  lemma {:induction false} OrderlyFaithful(net: Net, steps: seq<Step>)
    requires NetOk(net) && CanRun(net, steps) && OrderlyRun(net, steps)
    ensures FaithfulRun(net, steps)
    decreases steps
  {
    hide NetOk, Enabled, Next, InOrder, Faithful;
    if steps != [] {
      InOrderFaithful(net, steps[0]);
      StepKeeps(net, steps[0]);
      OrderlyFaithful(Next(net, steps[0]), steps[1..]);
    }
  }

  lemma InOrderFaithful(net: Net, step: Step)
    requires NetOk(net) && Enabled(net, step) && InOrder(net, step)
    ensures Faithful(net, step)
  {
  }

  /** Sender, first packet, second packet; the first one is lost. */
  function LossyRun(program: seq<byte>): seq<Step>
    requires UDPDATASIZE < |program|
  {
    var second := Packet(1, UDPDATASIZE, |program|, Second(program));
    [Upload(program), Send, Send, Deliver(0, second)]
  }

  /** The data of the second packet. */
  function Second(program: seq<byte>): seq<byte>
    requires UDPDATASIZE < |program|
  {
    program[UDPDATASIZE..UDPDATASIZE + ChunkLength(UDPDATASIZE, |program|)]
  }

  /** Losing the first packet is enough: the receiver then has the second packet's bytes as the start of the program. */
  lemma LossMisleads(net: Net, program: seq<byte>)
    requires Initial(net) && net.receivers != [] && UDPDATASIZE < |program| < U16
    ensures CanRun(net, LossyRun(program))
    ensures Safe(Run(net, LossyRun(program))) <==> Second(program) == program[..|Second(program)|]
  {
    hide CanRun, Run, NetOk, ReceiverOk, Receive, ReceiverSafe;
    var second := Packet(1, UDPDATASIZE, |program|, Second(program));
    var n3 := ThreeSteps(net, program);
    var n4 := Next(n3, Deliver(0, second));
    SecondExact(n3, program, second);
    LossyRunEnds(net, program, n3);
    assert n4.receivers[0] == Receive(n3.receivers[0], second).r;
    assert forall n | 0 < n < |n4.receivers| :: n4.receivers[n] == n3.receivers[n];
  }

  /** The sender has sent two packets. */
  lemma ThreeSteps(net: Net, program: seq<byte>) returns (n3: Net)
    requires Initial(net) && UDPDATASIZE < |program| < U16
    ensures Enabled(net, Upload(program)) && Enabled(Next(net, Upload(program)), Send)
    ensures var n2 := Next(Next(net, Upload(program)), Send); Enabled(n2, Send) && n3 == Next(n2, Send)
    ensures Packet(1, UDPDATASIZE, |program|, Second(program)) in n3.packets
    ensures NetOk(n3) && n3.receivers == net.receivers && n3.sender.images == [program]
  {
    var n1 := Next(net, Upload(program));
    var n2 := Next(n1, Send);
    n3 := Next(n2, Send);
    InitialOk(net);
    StepKeeps(net, Upload(program));
    StepKeeps(n1, Send);
    StepKeeps(n2, Send);
    assert PacketOf(n2.sender) == Packet(1, UDPDATASIZE, |program|, Second(program));
  }

  lemma LossyRunEnds(net: Net, program: seq<byte>, n3: Net)
    requires UDPDATASIZE < |program| < U16
    requires Enabled(net, Upload(program)) && Enabled(Next(net, Upload(program)), Send)
    requires var n2 := Next(Next(net, Upload(program)), Send); Enabled(n2, Send) && n3 == Next(n2, Send)
    requires Enabled(n3, Deliver(0, Packet(1, UDPDATASIZE, |program|, Second(program))))
    ensures CanRun(net, LossyRun(program))
    ensures Run(net, LossyRun(program)) == Next(n3, Deliver(0, Packet(1, UDPDATASIZE, |program|, Second(program))))
  {
    hide Enabled, Next, CanRun, Run;
    var last := Deliver(0, Packet(1, UDPDATASIZE, |program|, Second(program)));
    var n1 := Next(net, Upload(program));
    NoSteps(Next(n3, last));
    RunCons(n3, last, []);
    RunCons(Next(n1, Send), Send, [last] + []);
    RunCons(n1, Send, [Send] + ([last] + []));
    RunCons(net, Upload(program), [Send] + ([Send] + ([last] + [])));
    assert LossyRun(program) == [Upload(program)] + ([Send] + ([Send] + ([last] + [])));
  }

  lemma NoSteps(net: Net)
    ensures CanRun(net, []) && Run(net, []) == net
  {
  }

  lemma SecondExact(net: Net, program: seq<byte>, second: Packet)
    requires NetOk(net) && net.receivers != [] && forall n | 0 <= n < |net.receivers| :: Fresh(net.receivers[n])
    requires second in net.packets && second.id == 1 && net.sender.images == [program]
    ensures ValidReceiver(net.receivers[0]) && ValidPacket(second)
    ensures ReceiverSafe(Receive(net.receivers[0], second).r, net.sender.images) <==>
              second.data == program[..|second.data|]
    ensures forall n | 0 <= n < |net.receivers| :: ReceiverSafe(net.receivers[n], net.sender.images)
  {
    hide Receive;
    FirstPacketExact(net.receivers[0], second, net.sender.images);
  }

  /** A run with one more step in front. */
  lemma RunCons(net: Net, step: Step, rest: seq<Step>)
    requires Enabled(net, step) && CanRun(Next(net, step), rest)
    ensures CanRun(net, [step] + rest) && Run(net, [step] + rest) == Run(Next(net, step), rest)
  {
    hide Enabled, Next;
    assert ([step] + rest)[1..] == rest;
  }
}
