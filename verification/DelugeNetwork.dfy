/**
 A network of Deluge nodes during one update from version `before` to version `after`. Messages, once sent,
 can be delivered to any node any number of times, in any order, or never.
*/
module DelugeNetwork {
  import opened Deluge

  datatype Net = Net(nodes: seq<Node>, msgs: set<Message>)

  datatype Step =
    | Deliver(node: nat, msg: Message, suppressed: bool)
    | Ask(node: nat)
    | Transmit(node: nat)
    | Advertise(node: nat)
    | SendProfile(node: nat)

  /** command_dispatcher */
  function Receive(s: Node, m: Message, suppressed: bool): Node
    requires ValidNode(s)
    requires m.Packet? ==> m.pagenum < |s.pages| && m.packetnum < N_PKT
  {
    match m
    case Summary(version, highest) => HandleSummary(s, version, highest, suppressed)
    case Request(version, pagenum, requestSet) => HandleRequest(s, version, pagenum, requestSet)
    case Packet(version, pagenum, packetnum, crc, payload) => HandlePacket(s, version, pagenum, packetnum, crc, payload)
    case Profile(version, vector) => HandleProfile(s, version, vector)
  }

  predicate Enabled(net: Net, step: Step) {
    && step.node < |net.nodes| && ValidNode(net.nodes[step.node])
    && match step
       case Deliver(n, m, _) =>
         m in net.msgs && (m.Packet? ==> m.pagenum < |net.nodes[n].pages| && m.packetnum < N_PKT)
       case Ask(n) => net.nodes[n].rxPage < |net.nodes[n].pages|
       case Transmit(n) => CanTransmit(net.nodes[n])
       case Advertise(_) => true
       case SendProfile(_) => true
  }

  function Next(net: Net, step: Step): Net
    requires Enabled(net, step)
  {
    var n := step.node;
    var s := net.nodes[n];
    match step
    case Deliver(_, m, suppressed) => Net(net.nodes[n := Receive(s, m, suppressed)], net.msgs)
    case Ask(_) => Net(net.nodes[n := AfterRequest(s)], net.msgs + {RequestOf(s)})
    case Transmit(_) =>
      Net(net.nodes[n := AfterTransmit(s)], net.msgs + (set m | m in PagePackets(s, s.txPage, 0)))
    case Advertise(_) => Net(net.nodes, net.msgs + {SummaryOf(s)})
    case SendProfile(_) => Net(net.nodes, net.msgs + {ProfileOf(s)})
  }

  ghost predicate CanRun(net: Net, steps: seq<Step>)
    decreases steps
  {
    steps == [] || (Enabled(net, steps[0]) && CanRun(Next(net, steps[0]), steps[1..]))
  }

  ghost function Run(net: Net, steps: seq<Step>): Net
    requires CanRun(net, steps)
    decreases steps
  {
    if steps == [] then net else Run(Next(net, steps[0]), steps[1..])
  }

  /** One update round: the two versions and the new content. */
  datatype Round = Round(before: nat, after: nat, image: seq<PageData>)

  ghost predicate ValidRound(r: Round) {
    r.before < r.after && r.image != []
  }

  // ---------------------------------------------------------------- where a round starts

  ghost predicate CompleteAt(s: Node, version: nat, count: nat) {
    && s.version == version && s.updateVersion == version
    && |s.pages| == |s.file| == count
    && (forall i :: 0 <= i < count ==> s.pages[i] == Page(ALL_PACKETS, true, version))
    && s.txSet == {}
  }

  ghost predicate IsSource(s: Node, r: Round) {
    CompleteAt(s, r.after, |r.image|) && s.file == r.image
  }

  /** Packets are of existing pages, corrupted or not; profiles are of this or earlier rounds. */
  ghost predicate StartMessage(m: Message, r: Round) {
    match m
    case Summary(_, _) => true
    case Request(_, _, _) => true
    case Packet(version, pagenum, packetnum, crc, payload) =>
      pagenum < |r.image| && packetnum < N_PKT
    case Profile(version, vector) =>
      version <= r.before || (version == r.after && |vector| == |r.image| && forall i :: 0 <= i < |vector| ==>
          vector[i] == r.after)
  }

  ghost predicate Start(net: Net, r: Round) {
    && ValidRound(r)
    && (forall n :: 0 <= n < |net.nodes| ==> CompleteAt(net.nodes[n], r.before, |r.image|) || IsSource(net.nodes[n], r))
    && (forall m :: m in net.msgs ==> StartMessage(m, r))
  }

  /** Packet c of page p has the new content in the file of node s. */
  ghost predicate Settled(s: Node, r: Round, p: nat, c: nat) {
    p < |s.file| && p < |r.image| && c < N_PKT && s.file[p][c] == r.image[p][c]
  }

  /** A leftover request of the old version that asks for nothing the update changes. */
  ghost predicate Harmless(m: Message, nodes: seq<Node>, r: Round) {
    m.Request? && m.version == r.before && m.pagenum < |r.image| ==>
      forall c, n :: c in m.requestSet && c < N_PKT && 0 <= n < |nodes| ==> Settled(nodes[n], r, m.pagenum, c)
  }

  ghost predicate NoStaleRequest(net: Net, r: Round) {
    forall m :: m in net.msgs ==> Harmless(m, net.nodes, r)
  }

  /** A packet with the new content; its checksum does not matter. */
  ghost predicate Genuine(m: Message, r: Round) {
    m.Packet? && m.pagenum < |r.image| && m.packetnum < N_PKT && m.payload == r.image[m.pagenum][m.packetnum]
  }

  /** A packet of the new version has the new bytes, or a wrong checksum when no node is at the old version. */
  ghost predicate Undamaging(m: Message, nodes: seq<Node>, r: Round) {
    m.Packet? && m.version == r.after ==>
      Genuine(m, r) || (m.crc != PayloadCrc(m.payload) && forall n :: 0 <= n < |nodes| ==> nodes[n].version == r.after)
  }

  ghost predicate NoDamage(net: Net, r: Round) {
    forall m :: m in net.msgs ==> Undamaging(m, net.nodes, r)
  }

  // ---------------------------------------------------------------- safety

  ghost predicate SafeNode(s: Node, r: Round) {
    && |s.pages| == |s.file| == |r.image|
    && (forall i :: 0 <= i < |s.pages| && s.pages[i].complete && s.pages[i].version == r.after ==>
        s.file[i] == r.image[i])
    && (s.version == r.after ==> forall i :: 0 <= i < |s.pages| ==>
        s.pages[i].complete && s.pages[i].version == r.after)
  }

  /** What a receiver would accept as new is new. */
  ghost predicate SafeMessage(m: Message, r: Round) {
    m.Packet? && m.version == r.after && m.crc == PayloadCrc(m.payload) ==> Genuine(m, r)
  }

  ghost predicate Safe(net: Net, r: Round) {
    && (forall n :: 0 <= n < |net.nodes| ==> SafeNode(net.nodes[n], r))
    && (forall m :: m in net.msgs ==> SafeMessage(m, r))
  }

  // ---------------------------------------------------------------- the invariant

  ghost predicate Updating(s: Node, r: Round)
    requires |s.pages| == |s.file| == |r.image|
  {
    && s.version == r.before && s.rxPage < |s.pages|
    && (forall i :: 0 <= i < |s.pages| ==> (s.pages[i].complete <==> i < s.rxPage))
    && s.pages[s.rxPage].packetSet < ALL_PACKETS
    && (forall i :: s.rxPage < i < |s.pages| ==> s.pages[i].packetSet == {})
    && (forall c: nat :: c in s.pages[s.rxPage].packetSet ==> c < N_PKT && s.currentPage[c] == r.image[s.rxPage][c])
  }

  ghost predicate NewPages(s: Node, r: Round)
    requires |s.pages| == |s.file| == |r.image|
  {
    forall i :: 0 <= i < |s.pages| ==>
      && s.pages[i].version == r.after
      && (s.pages[i].complete ==> s.file[i] == r.image[i] && s.pages[i].packetSet == ALL_PACKETS)
  }

  /** What the node has been asked to send is new content, or it is not part of the update yet. */
  ghost predicate TxOk(s: Node, r: Round) {
    forall c :: c in s.txSet && c < N_PKT ==>
      0 <= s.txPage < |s.pages| && (s.version == r.after || Settled(s, r, s.txPage, c))
  }

  ghost predicate NodeOk(s: Node, r: Round) {
    && |s.pages| == |s.file| == |r.image|
    && TxOk(s, r)
    && if s.updateVersion == r.after then
         && NewPages(s, r)
         && (Updating(s, r) || (s.version == r.after && forall i :: 0 <= i < |s.pages| ==> s.pages[i].complete))
       else
         && s.updateVersion == r.before && s.version == r.before
         && forall i :: 0 <= i < |s.pages| ==> s.pages[i] == Page(ALL_PACKETS, true, r.before)
  }

  ghost predicate NetOk(net: Net, r: Round) {
    && ValidRound(r)
    && (forall n :: 0 <= n < |net.nodes| ==> NodeOk(net.nodes[n], r))
    && (forall m :: m in net.msgs ==> MessageOk(m, net.nodes, r))
  }

  ghost predicate MessageOk(m: Message, nodes: seq<Node>, r: Round) {
    StartMessage(m, r) && Harmless(m, nodes, r) && Undamaging(m, nodes, r)
  }

  lemma StartOk(net: Net, r: Round)
    requires Start(net, r) && NoStaleRequest(net, r) && NoDamage(net, r)
    ensures NetOk(net, r)
  {
  }

  lemma OkIsSafe(net: Net, r: Round)
    requires NetOk(net, r)
    ensures Safe(net, r)
  {
  }

  // ---------------------------------------------------------------- one node handles one message

  lemma ProfileKeeps(s: Node, r: Round, version: nat, vector: seq<nat>)
    requires NodeOk(s, r) && ValidRound(r) && StartMessage(Profile(version, vector), r)
    ensures NodeOk(HandleProfile(s, version, vector), r)
    ensures HandleProfile(s, version, vector).file == s.file
    ensures s.version == r.after ==> HandleProfile(s, version, vector).version == r.after
  {
    var t := HandleProfile(s, version, vector);
    if version > s.updateVersion {
      assert t.file == s.file;
      assert !t.pages[0].complete;
      assert t.rxPage == 0;
      assert {} < ALL_PACKETS by { assert 0 in ALL_PACKETS; }
    }
  }

  lemma RequestKeeps(s: Node, r: Round, version: nat, pagenum: nat, requestSet: set<nat>)
    requires NodeOk(s, r) && ValidRound(r)
    requires version == r.before && pagenum < |r.image| ==> forall c :: c in requestSet && c < N_PKT ==>
              Settled(s, r, pagenum, c)
    ensures NodeOk(HandleRequest(s, version, pagenum, requestSet), r)
    ensures HandleRequest(s, version, pagenum, requestSet).file == s.file
    ensures HandleRequest(s, version, pagenum, requestSet).version == s.version
  {
  }

  /** A packet keeps the invariant if it is genuine, or if it is corrupted and the node has the update already. */
  lemma PacketKeeps(s: Node, r: Round, m: Message)
    requires NodeOk(s, r) && ValidRound(r) && m.Packet? && StartMessage(m, r)
    requires m.version == r.after ==> Genuine(m, r) || (m.crc != PayloadCrc(m.payload) && s.version == r.after)
    ensures var t := HandlePacket(s, m.version, m.pagenum, m.packetnum, m.crc, m.payload);
            NodeOk(t, r) && (s.version == r.after ==> t.version == r.after)
            && forall p, c :: Settled(s, r, p, c) ==> Settled(t, r, p, c)
  {
    hide PayloadCrc;
    var t := HandlePacket(s, m.version, m.pagenum, m.packetnum, m.crc, m.payload);
    if m.pagenum == s.rxPage && m.version == s.pages[m.pagenum].version && !s.pages[m.pagenum].complete {
      assert Updating(s, r) && m.version == r.after;
      var got := s.pages[m.pagenum].packetSet + {m.packetnum};
      if m.crc == PayloadCrc(m.payload) {
        if got == ALL_PACKETS {
          PageFilled(s, r, m.packetnum, m.payload);
        } else {
          assert got < ALL_PACKETS;
        }
      }
    }
  }

  /** When the last packet is in, the page buffer is the new page. */
  lemma PageFilled(s: Node, r: Round, packetnum: nat, payload: Chunk)
    requires ValidRound(r) && |s.pages| == |s.file| == |r.image| && Updating(s, r) && packetnum < N_PKT
    requires payload == r.image[s.rxPage][packetnum]
    requires s.pages[s.rxPage].packetSet + {packetnum} == ALL_PACKETS
    ensures s.currentPage[packetnum := payload] == r.image[s.rxPage]
  {
    var b := s.currentPage[packetnum := payload];
    forall c: nat | c < N_PKT
      ensures b[c] == r.image[s.rxPage][c]
    {
      assert c in ALL_PACKETS;
    }
  }

  // ---------------------------------------------------------------- one network step

  lemma {:induction false} PagePacketsAre(s: Node, pagenum: nat, k: nat, m: Message)
    requires ValidNode(s) && pagenum < |s.pages| && k <= N_PKT && m in PagePackets(s, pagenum, k)
    ensures exists c: nat :: k <= c < N_PKT && c in s.txSet && m == PacketOf(s, pagenum, c)
    decreases N_PKT - k
  {
    if k < N_PKT && m in PagePackets(s, pagenum, k + 1) {
      PagePacketsAre(s, pagenum, k + 1, m);
    }
  }

  lemma TransmitSafe(s: Node, r: Round, m: Message)
    requires NodeOk(s, r) && ValidRound(r) && CanTransmit(s) && m in PagePackets(s, s.txPage, 0)
    ensures m.Packet? && StartMessage(m, r) && (m.version == r.after ==> Genuine(m, r))
  {
    hide PayloadCrc;
    PagePacketsAre(s, s.txPage, 0, m);
    var c: nat :| c < N_PKT && c in s.txSet && m == PacketOf(s, s.txPage, c);
  }

  /** The node keeps its invariant, its settled packets and the new version. */
  ghost predicate Kept(s: Node, t: Node, r: Round) {
    && NodeOk(t, r) && (s.version == r.after ==> t.version == r.after)
    && forall p, c :: Settled(s, r, p, c) ==> Settled(t, r, p, c)
  }

  lemma DeliverKeeps(net: Net, r: Round, n: nat, m: Message, suppressed: bool)
    requires NetOk(net, r) && Enabled(net, Deliver(n, m, suppressed))
    ensures Kept(net.nodes[n], Receive(net.nodes[n], m, suppressed), r)
  {
    hide HandleRequest, HandleProfile, HandlePacket, Settled, Genuine, PayloadCrc;
    var s := net.nodes[n];
    assert MessageOk(m, net.nodes, r);
    match m
    case Summary(version, highest) => SummaryKeeps(s, r, version, highest, suppressed);
    case Request(version, pagenum, requestSet) =>
      RequestKeeps(s, r, version, pagenum, requestSet);
      FileKeepsSettled(s, HandleRequest(s, version, pagenum, requestSet), r);
    case Packet(_, _, _, _, _) => PacketKeeps(s, r, m);
    case Profile(version, vector) =>
      ProfileKeeps(s, r, version, vector);
      FileKeepsSettled(s, HandleProfile(s, version, vector), r);
  }

  lemma SummaryKeeps(s: Node, r: Round, version: nat, highest: nat, suppressed: bool)
    requires NodeOk(s, r)
    ensures Kept(s, HandleSummary(s, version, highest, suppressed), r)
  {
  }

  lemma FileKeepsSettled(s: Node, t: Node, r: Round)
    requires t.file == s.file
    ensures forall p, c :: Settled(s, r, p, c) ==> Settled(t, r, p, c)
  {
  }

  /** A changed node that keeps its settled packets and its version leaves every old message as good as it was. */
  lemma OldMessages(net: Net, r: Round, n: nat, t: Node)
    requires NetOk(net, r) && n < |net.nodes| && Kept(net.nodes[n], t, r)
    ensures NetOk(Net(net.nodes[n := t], net.msgs), r)
  {
    hide NodeOk, StartMessage, Settled, Genuine, PayloadCrc;
    var nodes := net.nodes[n := t];
    forall m | m in net.msgs
      ensures MessageOk(m, nodes, r)
    {
      assert MessageOk(m, net.nodes, r);
    }
  }

  lemma NewMessages(net: Net, r: Round, more: set<Message>)
    requires NetOk(net, r) && forall m :: m in more ==> MessageOk(m, net.nodes, r)
    ensures NetOk(Net(net.nodes, net.msgs + more), r)
  {
    hide NodeOk, MessageOk;
  }

  lemma RequestOk(s: Node, r: Round)
    requires NodeOk(s, r) && ValidRound(r) && s.rxPage < |s.pages|
    ensures RequestOf(s).Request? && (RequestOf(s).version == r.before ==> RequestOf(s).requestSet !! ALL_PACKETS)
  {
  }

  lemma StepKeeps(net: Net, r: Round, step: Step)
    requires NetOk(net, r) && Enabled(net, step)
    ensures NetOk(Next(net, step), r)
  {
    hide NodeOk, StartMessage, Receive, PagePackets, Settled, RequestOf, Kept, Genuine, PayloadCrc;
    var n := step.node;
    var s := net.nodes[n];
    match step
    case Deliver(_, m, suppressed) =>
      DeliverKeeps(net, r, n, m, suppressed);
      OldMessages(net, r, n, Receive(s, m, suppressed));
    case Ask(_) =>
      RequestOk(s, r);
      AskedOk(s, r);
      assert StartMessage(RequestOf(s), r) by { RequestIsStart(RequestOf(s), r); }
      HarmlessEmpty(RequestOf(s), net.nodes, r);
      NewMessages(net, r, {RequestOf(s)});
      OldMessages(Net(net.nodes, net.msgs + {RequestOf(s)}), r, n, AfterRequest(s));
    case Transmit(_) =>
      var more := set m | m in PagePackets(s, s.txPage, 0);
      forall m | m in more
        ensures MessageOk(m, net.nodes, r)
      {
        TransmitSafe(s, r, m);
      }
      TransmittedOk(s, r);
      NewMessages(net, r, more);
      OldMessages(Net(net.nodes, net.msgs + more), r, n, AfterTransmit(s));
    case Advertise(_) =>
      assert StartMessage(SummaryOf(s), r) by { SummaryIsStart(s, r); }
      NewMessages(net, r, {SummaryOf(s)});
    case SendProfile(_) =>
      ProfileIsStart(s, r);
      NewMessages(net, r, {ProfileOf(s)});
  }

  lemma RequestIsStart(m: Message, r: Round)
    requires m.Request?
    ensures StartMessage(m, r)
  {
  }

  lemma SummaryIsStart(s: Node, r: Round)
    ensures StartMessage(SummaryOf(s), r)
  {
  }

  lemma ProfileIsStart(s: Node, r: Round)
    requires NodeOk(s, r) && ValidRound(r)
    ensures StartMessage(ProfileOf(s), r)
  {
  }

  lemma HarmlessEmpty(m: Message, nodes: seq<Node>, r: Round)
    requires m.Request? && (m.version == r.before ==> m.requestSet !! ALL_PACKETS)
    ensures Harmless(m, nodes, r)
  {
    assert forall c: nat :: c < N_PKT ==> c in ALL_PACKETS;
  }

  lemma AskedOk(s: Node, r: Round)
    requires NodeOk(s, r)
    ensures Kept(s, AfterRequest(s), r)
  {
  }

  lemma TransmittedOk(s: Node, r: Round)
    requires NodeOk(s, r)
    ensures Kept(s, AfterTransmit(s), r)
  {
  }

  lemma {:induction false} RunKeeps(net: Net, r: Round, steps: seq<Step>)
    requires NetOk(net, r) && CanRun(net, steps)
    ensures NetOk(Run(net, steps), r)
    decreases steps
  {
    hide NetOk, Next, Enabled;
    if steps != [] {
      StepKeeps(net, r, steps[0]);
      RunKeeps(Next(net, steps[0]), r, steps[1..]);
    }
  }

  /** Safety over all runs of a round that starts without a stale request and without a damaging packet. */
  lemma EveryRunSafe(net: Net, r: Round, steps: seq<Step>)
    requires Start(net, r) && NoStaleRequest(net, r) && NoDamage(net, r) && CanRun(net, steps)
    ensures Safe(Run(net, steps), r)
  {
    StartOk(net, r);
    RunKeeps(net, r, steps);
    OkIsSafe(Run(net, steps), r);
  }
}
