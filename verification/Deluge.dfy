/**
 One Deluge node: its message handlers as functions on the node state
 (cc2530/contiki_os/apps/deluge/deluge.c). A page is modelled as its N_PKT packets of S_PKT bytes.
*/
module Deluge {
  const N_PKT := 4
  const ALL_PACKETS: set<nat> := {0, 1, 2, 3}

  type Octet = bv8
  type Chunk = seq<Octet>

  /** A page: the bytes of its four packets. */
  type PageData = p: seq<Chunk> | |p| == N_PKT witness [[], [], [], []]

  // The four statements of crc16_add (cc2530/contiki_os/core/lib/crc16.c) behind the first.

  function Swapped(a: bv16): bv16 {
    (a >> 8) | (a << 8)
  }

  function Folded4(a: bv16): bv16 {
    a ^ ((a & 0xff00) << 4)
  }

  function Folded12(a: bv16): bv16 {
    a ^ ((a >> 8) >> 4)
  }

  function Folded5(a: bv16): bv16 {
    a ^ ((a & 0xff00) >> 5)
  }

  /** crc16_add */
  function Crc16Add(b: Octet, acc: bv16): bv16 {
    Folded5(Folded12(Folded4(Swapped(acc ^ (b as bv16)))))
  }

  function PayloadCrc(data: Chunk): bv16 {
    if data == [] then 0 else Crc16Add(data[|data| - 1], PayloadCrc(data[..|data| - 1]))
  }

  datatype Page = Page(packetSet: set<nat>, complete: bool, version: nat)

  datatype Mode = Maintain | Rx | Tx

  /** struct deluge_object, the file behind cfs_fd, and deluge_state. */
  datatype Node = Node(
    version: nat, updateVersion: nat,
    pages: seq<Page>, file: seq<PageData>,
    rxPage: nat, txPage: int, nrequests: nat,
    currentPage: PageData, txSet: set<nat>, mode: Mode)

  predicate ValidNode(s: Node) {
    |s.file| == |s.pages|
  }

  datatype Message =
    | Summary(version: nat, highest: nat)
    | Request(version: nat, pagenum: nat, requestSet: set<nat>)
    | Packet(version: nat, pagenum: nat, packetnum: nat, crc: bv16, payload: Chunk)
    | Profile(version: nat, vector: seq<nat>)

  /** highest_available_page: the length of the complete prefix. */
  function HighestAvailable(pages: seq<Page>): (h: nat)
    ensures h <= |pages|
    ensures forall i :: 0 <= i < h ==> pages[i].complete
    ensures h < |pages| ==> !pages[h].complete
  {
    if pages == [] || !pages[0].complete then 0 else 1 + HighestAvailable(pages[1..])
  }

  // ---------------------------------------------------------------- sending

  function RequestOf(s: Node): Message
    requires s.rxPage < |s.pages|
  {
    Request(s.pages[s.rxPage].version, s.rxPage, {0, 1, 2, 3, 4, 5, 6, 7} - s.pages[s.rxPage].packetSet)
  }

  const CONST_LAMBDA := 2

  /** Deluge R.2: give up after CONST_LAMBDA requests. */
  function AfterRequest(s: Node): Node {
    if s.nrequests + 1 == CONST_LAMBDA then s.(nrequests := 0, mode := Maintain) else s.(nrequests := s.nrequests + 1)
  }

  function PacketOf(s: Node, pagenum: nat, packetnum: nat): Message
    requires ValidNode(s) && pagenum < |s.pages| && packetnum < N_PKT
  {
    var payload := s.file[pagenum][packetnum];
    Packet(s.pages[pagenum].version, pagenum, packetnum, PayloadCrc(payload), payload)
  }

  /** The packets that send_page broadcasts, from packet k on. */
  function PagePackets(s: Node, pagenum: nat, k: nat): seq<Message>
    requires ValidNode(s) && pagenum < |s.pages| && k <= N_PKT
    decreases N_PKT - k
  {
    if k == N_PKT then []
    else (if k in s.txSet then [PacketOf(s, pagenum, k)] else []) + PagePackets(s, pagenum, k + 1)
  }

  /** tx_callback fires only with a page to send and requested packets. */
  predicate CanTransmit(s: Node) {
    0 <= s.txPage < |s.pages| && s.txSet != {}
  }

  function AfterTransmit(s: Node): Node {
    s.(txSet := {}, txPage := -1, mode := Maintain)
  }

  function Versions(pages: seq<Page>): (v: seq<nat>)
    ensures |v| == |pages|
    ensures forall i :: 0 <= i < |v| ==> v[i] == pages[i].version
  {
    seq(|pages|, i requires 0 <= i < |pages| => pages[i].version)
  }

  function ProfileOf(s: Node): Message {
    Profile(s.version, Versions(s.pages))
  }

  function SummaryOf(s: Node): Message {
    Summary(s.updateVersion, HighestAvailable(s.pages))
  }

  // ---------------------------------------------------------------- receiving

  function UpdatedPage(page: Page, version: nat): Page {
    if version > page.version then Page({}, false, version) else page
  }

  /**
   The page table after a profile: known pages are invalidated when the profile has a newer version of
   them, pages beyond the old count start at version 0.
  */
  function UpdatedPages(pages: seq<Page>, vector: seq<nat>): (r: seq<Page>)
    ensures |r| == |vector|
    ensures forall i :: 0 <= i < |vector| ==>
              r[i] == if i < |pages| then UpdatedPage(pages[i], vector[i]) else Page({}, false, 0)
  {
    seq(|vector|, i requires 0 <= i < |vector| =>
      if i < |pages| then UpdatedPage(pages[i], vector[i]) else Page({}, false, 0))
  }

  const EMPTY_PAGE: PageData := [[], [], [], []]

  /** The file read back at the new size: unwritten pages read as empty. */
  function ResizedFile(file: seq<PageData>, n: nat): (r: seq<PageData>)
    ensures |r| == n
    ensures forall i :: 0 <= i < n && i < |file| ==> r[i] == file[i]
  {
    seq(n, i requires 0 <= i < n => if i < |file| then file[i] else EMPTY_PAGE)
  }

  function HandleProfile(s: Node, version: nat, vector: seq<nat>): Node {
    if version <= s.updateVersion then s
    else
      var pages := UpdatedPages(s.pages, vector);
      s.(txSet := {}, pages := pages, file := ResizedFile(s.file, |vector|),
         rxPage := HighestAvailable(pages), updateVersion := version, mode := Rx)
  }

  function HandleRequest(s: Node, version: nat, pagenum: nat, requestSet: set<nat>): Node {
    if pagenum >= |s.pages| || version != s.version || pagenum > HighestAvailable(s.pages) then s
    else if pagenum == s.txPage then s.(txSet := s.txSet + requestSet, mode := Tx)
    else s.(txPage := pagenum, txSet := requestSet, mode := Tx)
  }

  /** The payload is copied before the checksum is looked at. */
  function HandlePacket(s: Node, version: nat, pagenum: nat, packetnum: nat, crc: bv16, payload: Chunk): Node
    requires ValidNode(s) && pagenum < |s.pages| && packetnum < N_PKT
  {
    if pagenum != s.rxPage || version != s.pages[pagenum].version || s.pages[pagenum].complete then s
    else
      var buffer: PageData := s.currentPage[packetnum := payload];
      if crc != PayloadCrc(payload) then s.(currentPage := buffer)
      else
        var page := s.pages[pagenum];
        var got := page.packetSet + {packetnum};
        if got != ALL_PACKETS then s.(currentPage := buffer, pages := s.pages[pagenum := page.(packetSet := got)])
        else
          s.(currentPage := buffer, file := s.file[pagenum := buffer],
             pages := s.pages[pagenum := Page(got, true, version)],
             rxPage := s.rxPage + 1,
             version := if pagenum == |s.pages| - 1 then s.updateVersion else s.version,
             mode := Maintain)
  }

  /** Deluge M.5: a summary can only move the node into the receiving mode. */
  function HandleSummary(s: Node, version: nat, highest: nat, suppressed: bool): Node {
    if version == s.updateVersion && highest > HighestAvailable(s.pages) && highest <= |s.pages| && !suppressed
    then s.(mode := Rx) else s
  }
}
