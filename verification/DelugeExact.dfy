/**
 When an update round is safe: runs that carry out the update, and the run in which a request left over
 from the old version makes a node send old bytes under the new version.
*/
module DelugeExact {
  import opened Deluge
  import opened DelugeNetwork

  /** A node that has the whole new content. */
  ghost predicate Serving(s: Node, r: Round) {
    && |s.pages| == |r.image| && s.file == r.image && s.version == r.after
    && forall i :: 0 <= i < |s.pages| ==> s.pages[i].complete && s.pages[i].version == r.after
  }

  /** A node that has received the first j pages and nothing of page j; the rest of its file is as before. */
  ghost predicate Fetching(s: Node, r: Round, j: nat, file: seq<PageData>) {
    && |s.pages| == |s.file| == |file| == |r.image| && j < |r.image|
    && s.version == r.before && s.updateVersion == r.after && s.rxPage == j
    && (forall i :: 0 <= i < j ==> s.pages[i] == Page(ALL_PACKETS, true, r.after) && s.file[i] == r.image[i])
    && (forall i :: j <= i < |file| ==> s.pages[i] == Page({}, false, r.after) && s.file[i] == file[i])
  }

  /** A node that has just received its last page. */
  ghost predicate Updated(s: Node, r: Round) {
    Serving(s, r) && s.updateVersion == r.after
  }

  ghost predicate Pair(net: Net, r: Round, src: nat, n: nat, j: nat, file: seq<PageData>) {
    && src < |net.nodes| && n < |net.nodes| && src != n
    && Serving(net.nodes[src], r) && Fetching(net.nodes[n], r, j, file)
  }

  lemma {:induction false} RunAppend(net: Net, a: seq<Step>, b: seq<Step>)
    requires CanRun(net, a) && CanRun(Run(net, a), b)
    ensures CanRun(net, a + b) && Run(net, a + b) == Run(Run(net, a), b)
    decreases a
  {
    hide Next, Enabled;
    if a == [] {
      assert a + b == b;
    } else {
      assert (a + b)[1..] == a[1..] + b;
      RunAppend(Next(net, a[0]), a[1..], b);
    }
  }

  lemma OneStep(net: Net, step: Step)
    requires Enabled(net, step)
    ensures CanRun(net, [step]) && Run(net, [step]) == Next(net, step)
  {
    hide Next, Enabled;
    assert [step][1..] == [];
    assert CanRun(Next(net, step), []);
  }

  lemma AllComplete(pages: seq<Page>)
    requires forall i :: 0 <= i < |pages| ==> pages[i].complete
    ensures HighestAvailable(pages) == |pages|
  {
  }

  // ---------------------------------------------------------------- fetching one page

  lemma AskStep(net: Net, r: Round, src: nat, n: nat, j: nat, file: seq<PageData>)
    requires ValidRound(r) && Pair(net, r, src, n, j, file)
    ensures Enabled(net, Ask(n))
    ensures var next := Next(net, Ask(n));
            && Pair(next, r, src, n, j, file) && net.msgs <= next.msgs
            && Request(r.after, j, {0, 1, 2, 3, 4, 5, 6, 7}) in next.msgs
  {
    assert {0, 1, 2, 3, 4, 5, 6, 7} - {} == {0, 1, 2, 3, 4, 5, 6, 7};
    assert RequestOf(net.nodes[n]) == Request(r.after, j, {0, 1, 2, 3, 4, 5, 6, 7});
  }

  ghost predicate ToSend(s: Node, j: nat) {
    s.txPage == j && ALL_PACKETS <= s.txSet
  }

  lemma RequestStep(net: Net, r: Round, src: nat, n: nat, j: nat, file: seq<PageData>)
    requires ValidRound(r) && Pair(net, r, src, n, j, file)
    requires Request(r.after, j, {0, 1, 2, 3, 4, 5, 6, 7}) in net.msgs
    ensures var step := Deliver(src, Request(r.after, j, {0, 1, 2, 3, 4, 5, 6, 7}), false);
            && Enabled(net, step)
            && var next := Next(net, step);
               Pair(next, r, src, n, j, file) && next.msgs == net.msgs && ToSend(next.nodes[src], j)
  {
    AllComplete(net.nodes[src].pages);
  }

  ghost predicate PageSent(net: Net, r: Round, j: nat) {
    j < |r.image| && forall c: nat :: c < N_PKT ==> NewPacket(r, j, c) in net.msgs
  }

  function NewPacket(r: Round, j: nat, c: nat): Message
    requires j < |r.image| && c < N_PKT
  {
    Packet(r.after, j, c, PayloadCrc(r.image[j][c]), r.image[j][c])
  }

  lemma {:induction false} PacketIncluded(s: Node, pagenum: nat, k: nat, c: nat)
    requires ValidNode(s) && pagenum < |s.pages| && k <= c < N_PKT && c in s.txSet
    ensures PacketOf(s, pagenum, c) in PagePackets(s, pagenum, k)
    decreases N_PKT - k
  {
    hide PacketOf;
    if k < c {
      PacketIncluded(s, pagenum, k + 1, c);
    }
  }

  lemma TransmitStep(net: Net, r: Round, src: nat, n: nat, j: nat, file: seq<PageData>)
    requires ValidRound(r) && Pair(net, r, src, n, j, file) && ToSend(net.nodes[src], j)
    ensures Enabled(net, Transmit(src))
    ensures var next := Next(net, Transmit(src));
            Pair(next, r, src, n, j, file) && net.msgs <= next.msgs && PageSent(next, r, j)
  {
    hide PayloadCrc, PagePackets;
    var s := net.nodes[src];
    assert 0 in s.txSet;
    var next := Next(net, Transmit(src));
    forall c: nat | c < N_PKT
      ensures NewPacket(r, j, c) in next.msgs
    {
      assert c in ALL_PACKETS;
      PacketIncluded(s, j, 0, c);
      assert PacketOf(s, j, c) == NewPacket(r, j, c);
    }
  }

  function FirstPackets(k: nat): set<nat> {
    if k == 0 then {} else FirstPackets(k - 1) + {k - 1}
  }

  lemma {:induction false} FirstPacketsAre(k: nat)
    ensures forall c: nat :: c in FirstPackets(k) <==> c < k
  {
    if k > 0 {
      FirstPacketsAre(k - 1);
    }
  }

  /** The receiver with the first k packets of page j in its buffer. */
  ghost predicate Partial(s: Node, r: Round, j: nat, k: nat, file: seq<PageData>) {
    && k < N_PKT
    && |s.pages| == |s.file| == |file| == |r.image| && j < |r.image|
    && s.version == r.before && s.updateVersion == r.after && s.rxPage == j
    && (forall i :: 0 <= i < j ==> s.pages[i] == Page(ALL_PACKETS, true, r.after) && s.file[i] == r.image[i])
    && (forall i :: j <= i < |file| ==> s.file[i] == file[i])
    && (forall i :: j < i < |file| ==> s.pages[i] == Page({}, false, r.after))
    && s.pages[j] == Page(FirstPackets(k), false, r.after)
    && forall c: nat :: c < k ==> s.currentPage[c] == r.image[j][c]
  }

  lemma PacketStep(s: Node, r: Round, j: nat, k: nat, file: seq<PageData>)
    requires ValidRound(r) && Partial(s, r, j, k, file)
    ensures var m := NewPacket(r, j, k);
            var t := HandlePacket(s, m.version, m.pagenum, m.packetnum, m.crc, m.payload);
            && (k + 1 < N_PKT ==> Partial(t, r, j, k + 1, file))
            && (k + 1 == N_PKT && j + 1 < |r.image| ==> Fetching(t, r, j + 1, file))
            && (k + 1 == N_PKT && j + 1 == |r.image| ==> Updated(t, r))
  {
    hide PayloadCrc;
    var got := FirstPackets(k) + {k};
    FirstPacketsAre(k + 1);
    if k + 1 < N_PKT {
      assert 3 !in got && 3 in ALL_PACKETS;
    } else {
      assert forall c: nat :: c in got <==> c < N_PKT;
      assert got == ALL_PACKETS;
      var buffer := s.currentPage[k := r.image[j][k]];
      assert buffer == r.image[j];
      if j + 1 == |r.image| {
        var t := HandlePacket(s, r.after, j, k, PayloadCrc(r.image[j][k]), r.image[j][k]);
        assert forall i :: 0 <= i < |r.image| ==> t.file[i] == r.image[i];
      }
    }
  }

  lemma {:induction false} DeliverPackets(net: Net, r: Round, src: nat, n: nat, j: nat, k: nat, file: seq<PageData>)
    returns (steps: seq<Step>)
    requires ValidRound(r) && src < |net.nodes| && n < |net.nodes| && src != n
    requires Serving(net.nodes[src], r) && Partial(net.nodes[n], r, j, k, file) && PageSent(net, r, j)
    ensures CanRun(net, steps)
    ensures var last := Run(net, steps);
            && last.msgs == net.msgs && |last.nodes| == |net.nodes| && Serving(last.nodes[src], r)
            && (j + 1 < |r.image| ==> Fetching(last.nodes[n], r, j + 1, file))
            && (j + 1 == |r.image| ==> Updated(last.nodes[n], r))
    decreases N_PKT - k
  {
    hide Fetching, Updated, Serving, HandlePacket;
    var step := Deliver(n, NewPacket(r, j, k), false);
    PacketStep(net.nodes[n], r, j, k, file);
    OneStep(net, step);
    var next := Next(net, step);
    steps := [step];
    if k + 1 < N_PKT {
      var more := DeliverPackets(next, r, src, n, j, k + 1, file);
      RunAppend(net, steps, more);
      steps := steps + more;
    }
  }

  /** Some run brings all packets of page j from the serving node on their way. */
  lemma SendPage(net: Net, r: Round, src: nat, n: nat, j: nat, file: seq<PageData>) returns (steps: seq<Step>)
    requires ValidRound(r) && Pair(net, r, src, n, j, file)
    ensures CanRun(net, steps)
    ensures var last := Run(net, steps);
            net.msgs <= last.msgs && |last.nodes| == |net.nodes| && Pair(last, r, src, n, j, file)
                && PageSent(last, r, j)
  {
    hide Next, Enabled, Serving, Fetching;
    var request := Deliver(src, Request(r.after, j, {0, 1, 2, 3, 4, 5, 6, 7}), false);
    AskStep(net, r, src, n, j, file);
    OneStep(net, Ask(n));
    var net1 := Next(net, Ask(n));
    RequestStep(net1, r, src, n, j, file);
    OneStep(net1, request);
    var net2 := Next(net1, request);
    TransmitStep(net2, r, src, n, j, file);
    OneStep(net2, Transmit(src));
    RunAppend(net1, [request], [Transmit(src)]);
    RunAppend(net, [Ask(n)], [request] + [Transmit(src)]);
    steps := [Ask(n)] + ([request] + [Transmit(src)]);
    SameSize(net, Ask(n));
    SameSize(net1, request);
    SameSize(net2, Transmit(src));
  }

  /** Some run of the network transfers page j from the serving node to the fetching node. */
  lemma TransferPage(net: Net, r: Round, src: nat, n: nat, j: nat, file: seq<PageData>) returns (steps: seq<Step>)
    requires ValidRound(r) && Pair(net, r, src, n, j, file)
    ensures CanRun(net, steps)
    ensures var last := Run(net, steps);
            && net.msgs <= last.msgs && |last.nodes| == |net.nodes| && Serving(last.nodes[src], r)
            && (j + 1 < |r.image| ==> Fetching(last.nodes[n], r, j + 1, file))
            && (j + 1 == |r.image| ==> Updated(last.nodes[n], r))
  {
    hide Next, Enabled, Serving;
    steps := SendPage(net, r, src, n, j, file);
    var last := Run(net, steps);
    var more := DeliverPackets(last, r, src, n, j, 0, file);
    RunAppend(net, steps, more);
    steps := steps + more;
  }

  lemma SameSize(net: Net, step: Step)
    requires Enabled(net, step)
    ensures |Next(net, step).nodes| == |net.nodes|
  {
  }

  // ---------------------------------------------------------------- the whole update

  lemma ProfileStarts(net: Net, r: Round, src: nat, n: nat) returns (steps: seq<Step>)
    requires ValidRound(r) && src < |net.nodes| && n < |net.nodes| && src != n
    requires Serving(net.nodes[src], r) && CompleteAt(net.nodes[n], r.before, |r.image|)
    ensures CanRun(net, steps)
    ensures var last := Run(net, steps);
            net.msgs <= last.msgs && |last.nodes| == |net.nodes| && Pair(last, r, src, n, 0, net.nodes[n].file)
  {
    var profile := ProfileOf(net.nodes[src]);
    OneStep(net, SendProfile(src));
    var net1 := Next(net, SendProfile(src));
    var step := Deliver(n, profile, false);
    OneStep(net1, step);
    RunAppend(net, [SendProfile(src)], [step]);
    steps := [SendProfile(src)] + [step];
    var t := Next(net1, step).nodes[n];
    assert forall i :: 0 <= i < |t.pages| ==> t.pages[i] == Page({}, false, r.after);
    assert !t.pages[0].complete;
  }

  /** Some run brings a node of the old version to the point where it has the first j pages. */
  lemma {:induction false} ReachPage(net: Net, r: Round, src: nat, n: nat, j: nat) returns (steps: seq<Step>)
    requires ValidRound(r) && src < |net.nodes| && n < |net.nodes| && src != n && j < |r.image|
    requires Serving(net.nodes[src], r) && CompleteAt(net.nodes[n], r.before, |r.image|)
    ensures CanRun(net, steps)
    ensures var last := Run(net, steps);
            net.msgs <= last.msgs && |last.nodes| == |net.nodes| && Pair(last, r, src, n, j, net.nodes[n].file)
  {
    hide Next, Enabled, Serving, Fetching;
    if j == 0 {
      steps := ProfileStarts(net, r, src, n);
    } else {
      steps := ReachPage(net, r, src, n, j - 1);
      var more := TransferPage(Run(net, steps), r, src, n, j - 1, net.nodes[n].file);
      RunAppend(net, steps, more);
      steps := steps + more;
    }
  }

  /** The protocol can do its job: in some run the node ends up at the new version with the new content. */
  lemma UpdatePossible(net: Net, r: Round, src: nat, n: nat) returns (steps: seq<Step>)
    requires Start(net, r) && src < |net.nodes| && n < |net.nodes|
    requires IsSource(net.nodes[src], r) && CompleteAt(net.nodes[n], r.before, |r.image|)
    ensures CanRun(net, steps)
    ensures n < |Run(net, steps).nodes| && Updated(Run(net, steps).nodes[n], r)
  {
    var last := |r.image| - 1;
    steps := ReachPage(net, r, src, n, last);
    var more := TransferPage(Run(net, steps), r, src, n, last, net.nodes[n].file);
    RunAppend(net, steps, more);
    steps := steps + more;
  }

  /**
   A leftover request for a packet the update changes makes node n send its old bytes as a packet of the new
   version.
  */
  lemma StaleRequestBreaks(net: Net, r: Round, src: nat, n: nat, m: Message, c: nat)
    returns (steps: seq<Step>, sent: Message)
    requires Start(net, r) && src < |net.nodes| && n < |net.nodes| && m in net.msgs
    requires IsSource(net.nodes[src], r) && CompleteAt(net.nodes[n], r.before, |r.image|)
    requires m.Request? && m.version == r.before && m.pagenum < |r.image| && c in m.requestSet && c < N_PKT
    requires !Settled(net.nodes[n], r, m.pagenum, c)
    ensures CanRun(net, steps) && sent in Run(net, steps).msgs
    ensures sent.Packet? && sent.version == r.after && sent.crc == PayloadCrc(sent.payload)
    ensures sent.pagenum == m.pagenum && sent.packetnum == c && sent.payload == net.nodes[n].file[m.pagenum][c]
    ensures !SafeMessage(sent, r)
  {
    hide PagePackets, PayloadCrc;
    var j, file := m.pagenum, net.nodes[n].file;
    steps := ReachPage(net, r, src, n, j);
    var net1 := Run(net, steps);
    var s := net1.nodes[n];
    FetchingHighest(s, r, j, file);
    var request := Deliver(n, m, false);
    OneStep(net1, request);
    var net2 := Next(net1, request);
    var t := net2.nodes[n];
    assert t.txPage == j && c in t.txSet;
    OneStep(net2, Transmit(n));
    var net3 := Next(net2, Transmit(n));
    PacketIncluded(t, j, 0, c);
    assert PacketOf(t, j, c) in net3.msgs;
    sent := PacketOf(t, j, c);
    RunAppend(net1, [request], [Transmit(n)]);
    RunAppend(net, steps, [request] + [Transmit(n)]);
    steps := steps + ([request] + [Transmit(n)]);
  }

  lemma {:induction false} FetchingHighest(s: Node, r: Round, j: nat, file: seq<PageData>)
    requires Fetching(s, r, j, file)
    ensures HighestAvailable(s.pages) == j
  {
    assert !s.pages[j].complete;
  }

  // ---------------------------------------------------------------- corrupted packets

  /** Page j is being received by a node whose buffer has wrong bytes for packet c, which it takes for received. */
  ghost predicate Spoiled(s: Node, r: Round, j: nat, got: set<nat>, c: nat) {
    && |s.pages| == |s.file| == |r.image| && j < |r.image| && c < N_PKT
    && s.rxPage == j && s.pages[j] == Page(got, false, r.after) && s.currentPage[c] != r.image[j][c]
  }

  /** Page j is complete at the new version with wrong bytes in it. */
  ghost predicate WrongPage(s: Node, r: Round, j: nat) {
    j < |s.pages| == |s.file| == |r.image| && s.pages[j].complete && s.pages[j].version == r.after
        && s.file[j] != r.image[j]
  }

  /** Packets 0 to k - 1, and packet c. */
  function Got(k: nat, c: nat): set<nat> {
    FirstPackets(k) + {c}
  }

  lemma GotAll(k: nat, c: nat)
    requires c < N_PKT && k <= N_PKT
    ensures Got(k, c) == ALL_PACKETS <==> k == N_PKT || (k == N_PKT - 1 && c == k)
    ensures k < N_PKT ==> Got(k + 1, c) == Got(k, c) + {k}
    ensures k == c ==> Got(k + 1, c) == Got(k, c)
  {
    FirstPacketsAre(k);
    FirstPacketsAre(k + 1);
    assert forall i: nat :: i in ALL_PACKETS <==> i < N_PKT;
    if k < N_PKT - 1 {
      var missing := if c == k then k + 1 else k;
      assert missing !in Got(k, c) && missing in ALL_PACKETS;
    } else if k == N_PKT - 1 && c != k {
      assert k !in Got(k, c) && k in ALL_PACKETS;
    }
  }

  /** A packet received well and then received corrupted leaves the node with the corrupted bytes. */
  lemma SpoilFirst(s: Node, r: Round, j: nat, m: Message, file: seq<PageData>)
    requires Fetching(s, r, j, file) && m.Packet? && m.version == r.after && m.pagenum == j && m.packetnum < N_PKT
    requires m.payload != r.image[j][m.packetnum] && m.crc != PayloadCrc(m.payload)
    ensures var g := NewPacket(r, j, m.packetnum);
            var t := HandlePacket(s, g.version, j, g.packetnum, g.crc, g.payload);
            |t.pages| == |t.file| == |r.image|
            && var u := HandlePacket(t, m.version, j, m.packetnum, m.crc, m.payload);
               Spoiled(u, r, j, Got(0, m.packetnum), m.packetnum)
  {
    hide PayloadCrc;
    GotAll(0, m.packetnum);
    assert {} + {m.packetnum} == Got(0, m.packetnum);
  }

  /** The other packets complete the page with the corrupted bytes in it. */
  lemma SpoilStep(s: Node, r: Round, j: nat, k: nat, c: nat)
    requires Spoiled(s, r, j, Got(k, c), c) && k < N_PKT && k != c
    ensures var g := NewPacket(r, j, k);
            var t := HandlePacket(s, g.version, j, k, g.crc, g.payload);
            if Got(k + 1, c) == ALL_PACKETS then WrongPage(t, r, j) else Spoiled(t, r, j, Got(k + 1, c), c)
  {
    hide PayloadCrc;
    GotAll(k, c);
  }

  lemma {:induction false} DeliverRest(net: Net, r: Round, n: nat, j: nat, k: nat, c: nat) returns (steps: seq<Step>)
    requires n < |net.nodes| && PageSent(net, r, j) && c < N_PKT && k < N_PKT
    requires Spoiled(net.nodes[n], r, j, Got(k, c), c) && Got(k, c) != ALL_PACKETS
    ensures CanRun(net, steps) && n < |Run(net, steps).nodes| && WrongPage(Run(net, steps).nodes[n], r, j)
    decreases N_PKT - k
  {
    hide HandlePacket, WrongPage, PayloadCrc, Got;
    GotAll(k, c);
    GotAll(k + 1, c);
    if k == c {
      steps := DeliverRest(net, r, n, j, k + 1, c);
    } else {
      var step := Deliver(n, NewPacket(r, j, k), false);
      SpoilStep(net.nodes[n], r, j, k, c);
      OneStep(net, step);
      var next := Next(net, step);
      steps := [step];
      if Got(k + 1, c) != ALL_PACKETS {
        var more := DeliverRest(next, r, n, j, k + 1, c);
        RunAppend(net, steps, more);
        steps := steps + more;
      }
    }
  }

  /**
   A packet with a wrong checksum is dropped only after its bytes have replaced those of the packet received before.
   A node of the old version that receives the good copy, the corrupted one and then the other packets has a wrong
   page.
  */
  lemma CorruptionBreaks(net: Net, r: Round, src: nat, n: nat, m: Message) returns (steps: seq<Step>)
    requires Start(net, r) && src < |net.nodes| && n < |net.nodes| && m in net.msgs
    requires IsSource(net.nodes[src], r) && CompleteAt(net.nodes[n], r.before, |r.image|)
    requires m.Packet? && m.version == r.after && m.crc != PayloadCrc(m.payload) && !Genuine(m, r)
    ensures CanRun(net, steps) && n < |Run(net, steps).nodes| && WrongPage(Run(net, steps).nodes[n], r, m.pagenum)
  {
    hide PayloadCrc, HandlePacket, Got, Serving, Fetching, WrongPage, Spoiled;
    assert StartMessage(m, r);
    SourceServes(net.nodes[src], r);
    var j, c, file := m.pagenum, m.packetnum, net.nodes[n].file;
    steps := ReachPage(net, r, src, n, j);
    var net1 := Run(net, steps);
    var send := SendPage(net1, r, src, n, j, file);
    RunAppend(net, steps, send);
    steps := steps + send;
    var net2 := Run(net1, send);
    assert m in net2.msgs && Fetching(net2.nodes[n], r, j, file);
    var more := SpoilPage(net2, r, n, m, file);
    RunAppend(net, steps, more);
    steps := steps + more;
  }

  lemma SourceServes(s: Node, r: Round)
    requires IsSource(s, r)
    ensures Serving(s, r)
  {
  }

  lemma SpoilPage(net: Net, r: Round, n: nat, m: Message, file: seq<PageData>) returns (steps: seq<Step>)
    requires n < |net.nodes| && m in net.msgs && m.Packet? && m.pagenum < |r.image| && m.packetnum < N_PKT
    requires m.version == r.after && m.crc != PayloadCrc(m.payload) && !Genuine(m, r)
    requires Fetching(net.nodes[n], r, m.pagenum, file) && PageSent(net, r, m.pagenum)
    ensures CanRun(net, steps) && n < |Run(net, steps).nodes| && WrongPage(Run(net, steps).nodes[n], r, m.pagenum)
  {
    hide PayloadCrc, HandlePacket, Got, WrongPage, Spoiled;
    var j, c := m.pagenum, m.packetnum;
    var good, bad := Deliver(n, NewPacket(r, j, c), false), Deliver(n, m, false);
    SpoilFirst(net.nodes[n], r, j, m, file);
    OneStep(net, good);
    var net1 := Next(net, good);
    OneStep(net1, bad);
    var net2 := Next(net1, bad);
    GotAll(0, c);
    var more := DeliverRest(net2, r, n, j, 0, c);
    RunAppend(net1, [bad], more);
    RunAppend(net, [good], [bad] + more);
    steps := [good] + ([bad] + more);
  }

  /** A node that is not at the new version when the round starts is at the old one. */
  lemma DamageBreaks(net: Net, r: Round, src: nat) returns (steps: seq<Step>)
    requires Start(net, r) && src < |net.nodes| && IsSource(net.nodes[src], r) && !NoDamage(net, r)
    ensures CanRun(net, steps) && !Safe(Run(net, steps), r)
  {
    hide PayloadCrc;
    var m :| m in net.msgs && !Undamaging(m, net.nodes, r);
    if m.crc == PayloadCrc(m.payload) {
      steps := [];
      assert !SafeMessage(m, r);
    } else {
      var n :| 0 <= n < |net.nodes| && net.nodes[n].version != r.after;
      steps := CorruptionBreaks(net, r, src, n, m);
      WrongIsUnsafe(Run(net, steps), r, n, m.pagenum);
    }
  }

  lemma WrongIsUnsafe(net: Net, r: Round, n: nat, j: nat)
    requires n < |net.nodes| && WrongPage(net.nodes[n], r, j)
    ensures !Safe(net, r)
  {
    assert !SafeNode(net.nodes[n], r);
  }

  // ---------------------------------------------------------------- the exact condition

  /**
   The round is safe in every run if and only if no request left over from the old version asks for a packet that the
   update changes on some node, and every packet of the new version on its way has the new bytes, or a wrong checksum
   while no node is at the old version.
  */
  lemma RoundSafeExactly(net: Net, r: Round, src: nat)
    requires Start(net, r) && src < |net.nodes| && IsSource(net.nodes[src], r)
    ensures (forall steps :: CanRun(net, steps) ==>
              Safe(Run(net, steps), r)) <==> NoStaleRequest(net, r) && NoDamage(net, r)
  {
    if NoStaleRequest(net, r) && NoDamage(net, r) {
      forall steps | CanRun(net, steps)
        ensures Safe(Run(net, steps), r)
      {
        EveryRunSafe(net, r, steps);
      }
    } else if !NoDamage(net, r) {
      var steps := DamageBreaks(net, r, src);
    } else {
      var m :| m in net.msgs && !Harmless(m, net.nodes, r);
      var c, n :| c in m.requestSet && c < N_PKT && 0 <= n < |net.nodes| && !Settled(net.nodes[n], r, m.pagenum, c);
      if IsSource(net.nodes[n], r) {
        assert Settled(net.nodes[n], r, m.pagenum, c);
      } else {
        var steps, sent := StaleRequestBreaks(net, r, src, n, m, c);
        assert !Safe(Run(net, steps), r);
      }
    }
  }
}
