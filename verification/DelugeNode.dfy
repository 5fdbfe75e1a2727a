/** The Deluge handlers as the node runs them, updating the current object in place. */
module DelugeNode {
  import opened Deluge

  class DelugeObject {
    var version: nat
    var updateVersion: nat
    var pages: array<Page>
    var file: seq<PageData>
    var rxPage: nat
    var txPage: int
    var nrequests: nat
    var currentPage: PageData
    var txSet: set<nat>
    var mode: Mode

    ghost predicate Valid()
      reads this
    {
      |file| == pages.Length
    }

    ghost function State(): (s: Node)
      reads this, pages
    {
      Node(version, updateVersion, pages[..], file, rxPage, txPage, nrequests, currentPage, txSet, mode)
    }

    /** init_object: the disseminating node starts with every page complete. */
    constructor (version: nat, file: seq<PageData>)
      ensures Valid() && fresh(pages)
      ensures State().version == version && State().updateVersion == version && State().file == file
      ensures forall i :: 0 <= i < |file| ==> State().pages[i] == Page(ALL_PACKETS, true, version)
      ensures State().txSet == {} && State().rxPage == 0
    {
      this.version, updateVersion, this.file := version, version, file;
      pages := new Page[|file|](i => Page(ALL_PACKETS, true, version));
      rxPage, txPage, nrequests, txSet, mode := 0, 0, 0, {}, Maintain;
      currentPage := [[], [], [], []];
    }

    method HighestAvailablePage() returns (h: nat)
      ensures h == HighestAvailable(pages[..])
    {
      h := 0;
      while h < pages.Length && pages[h].complete
        invariant h <= pages.Length
        invariant forall i :: 0 <= i < h ==> pages[i].complete
      {
        h := h + 1;
      }
      PrefixUnique(pages[..], h);
    }

    method SendRequest() returns (request: Message)
      requires rxPage < pages.Length
      modifies this
      ensures request == RequestOf(old(State())) && State() == AfterRequest(old(State()))
      ensures pages == old(pages)
    {
      request := Request(pages[rxPage].version, rxPage, {0, 1, 2, 3, 4, 5, 6, 7} - pages[rxPage].packetSet);
      nrequests := nrequests + 1;
      if nrequests == CONST_LAMBDA {
        nrequests := 0;
        mode := Maintain;
      }
    }

    /** tx_callback with send_page: the requested packets of the page, in order. */
    method TransmitPage() returns (packets: seq<Message>)
      requires Valid() && CanTransmit(State())
      modifies this
      ensures packets == PagePackets(old(State()), old(txPage), 0)
      ensures State() == AfterTransmit(old(State())) && pages == old(pages)
    {
      hide PayloadCrc, PagePackets;
      ghost var s, all := State(), PagePackets(State(), txPage, 0);
      assert 0 <= s.txPage < |s.pages|;
      packets := [];
      var page := file[txPage];
      var packetnum := 0;
      while packetnum < N_PKT
        invariant packetnum <= N_PKT && 0 <= txPage < pages.Length && s == State() && pages == old(pages)
        invariant packets + PagePackets(s, txPage, packetnum) == all
      {
        ghost var more := PagePackets(s, txPage, packetnum + 1);
        PacketStep(s, txPage, packetnum);
        if packetnum in txSet {
          var packet := Packet(pages[txPage].version, txPage, packetnum, PayloadCrc(page[packetnum]), page[packetnum]);
          assert packets + ([packet] + more) == (packets + [packet]) + more;
          packets := packets + [packet];
        } else {
          assert [] + more == more;
        }
        packetnum := packetnum + 1;
      }
      PacketsEnd(s, txPage);
      assert packets + [] == packets;
      txSet := {};
      txPage := -1;
      mode := Maintain;
    }

    /** The reallocated page table: memcpy of the old entries, then the two loops over the version vector. */
    method UpdatedTable(vector: seq<nat>) returns (p: array<Page>)
      ensures fresh(p) && p[..] == UpdatedPages(pages[..], vector)
    {
      var npages := if |vector| < pages.Length then |vector| else pages.Length;
      p := new Page[|vector|](_ => Page({}, false, 0));
      forall k | 0 <= k < npages {
        p[k] := pages[k];
      }
      for i := 0 to npages
        invariant forall k :: 0 <= k < i ==> p[k] == UpdatedPage(pages[k], vector[k])
        invariant forall k :: i <= k < npages ==> p[k] == pages[k]
      {
        if vector[i] > p[i].version {
          p[i] := Page({}, false, vector[i]);
        }
      }
      for i := npages to |vector|
        invariant forall k :: 0 <= k < npages ==> p[k] == UpdatedPage(pages[k], vector[k])
        invariant forall k :: npages <= k < i ==> p[k] == Page({}, false, 0)
      {
        p[i] := Page({}, false, 0);
      }
    }

    method ReceiveProfile(msgVersion: nat, vector: seq<nat>)
      requires Valid()
      modifies this
      ensures Valid() && State() == HandleProfile(old(State()), msgVersion, vector)
      ensures pages == old(pages) || fresh(pages)
    {
      hide UpdatedPages, ResizedFile, HighestAvailable;
      if msgVersion <= updateVersion {
        return;
      }
      txSet := {};
      pages := UpdatedTable(vector);
      file := ResizedFile(file, |vector|);
      rxPage := HighestAvailablePage();
      updateVersion := msgVersion;
      mode := Rx;
    }

    method ReceiveRequest(msgVersion: nat, pagenum: nat, requestSet: set<nat>)
      requires Valid()
      modifies this
      ensures Valid() && State() == HandleRequest(old(State()), msgVersion, pagenum, requestSet)
      ensures pages == old(pages)
    {
      if pagenum >= pages.Length {
        return;
      }
      var highest := HighestAvailablePage();
      if msgVersion == version && pagenum <= highest {
        if pagenum == txPage {
          txSet := txSet + requestSet;
        } else {
          txPage := pagenum;
          txSet := requestSet;
        }
        mode := Tx;
      }
    }

    method ReceivePacket(msgVersion: nat, pagenum: nat, packetnum: nat, crc: bv16, payload: Chunk)
      requires Valid() && pagenum < pages.Length && packetnum < N_PKT
      modifies this, pages
      ensures Valid() && State() == HandlePacket(old(State()), msgVersion, pagenum, packetnum, crc, payload)
      ensures pages == old(pages)
    {
      if pagenum != rxPage {
        return;
      }
      if msgVersion == pages[pagenum].version && !pages[pagenum].complete {
        currentPage := currentPage[packetnum := payload];
        if crc != PayloadCrc(payload) {
          return;
        }
        pages[pagenum] := pages[pagenum].(packetSet := pages[pagenum].packetSet + {packetnum});
        if pages[pagenum].packetSet == ALL_PACKETS {
          file := file[pagenum := currentPage];
          pages[pagenum] := Page(pages[pagenum].packetSet, true, msgVersion);
          rxPage := rxPage + 1;
          if pagenum == pages.Length - 1 {
            version := updateVersion;
          }
          mode := Maintain;
        }
      }
    }
  }

  lemma {:induction false} PrefixUnique(pages: seq<Page>, h: nat)
    requires h <= |pages| && (forall i :: 0 <= i < h ==> pages[i].complete)
    requires h < |pages| ==> !pages[h].complete
    ensures HighestAvailable(pages) == h
  {
    if pages != [] && pages[0].complete && h > 0 {
      PrefixUnique(pages[1..], h - 1);
    }
  }

  lemma PacketStep(s: Node, pagenum: nat, k: nat)
    requires ValidNode(s) && pagenum < |s.pages| && k < N_PKT
    ensures PagePackets(s, pagenum, k)
         == (if k in s.txSet then [PacketOf(s, pagenum, k)] else []) + PagePackets(s, pagenum, k + 1)
  {
  }

  lemma PacketsEnd(s: Node, pagenum: nat)
    requires ValidNode(s) && pagenum < |s.pages|
    ensures PagePackets(s, pagenum, N_PKT) == []
  {
  }
}
