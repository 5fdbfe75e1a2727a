/**
 Messages that come more than once: several requests for a page before it is sent, a profile again, and the requests
 that a node itself repeats.
*/
module DelugeRequests {
  import opened Deluge

  /** The node after requests for one page, one after the other. */
  function AfterRequests(s: Node, pagenum: nat, sets: seq<set<nat>>): Node
    decreases |sets|
  {
    if sets == [] then s
    else
      var last := |sets| - 1;
      HandleRequest(AfterRequests(s, pagenum, sets[..last]), s.version, pagenum, sets[last])
  }

  function Union(sets: seq<set<nat>>): (r: set<nat>)
    ensures forall k :: k in r <==> exists i :: 0 <= i < |sets| && k in sets[i]
  {
    set i, k | 0 <= i < |sets| && k in sets[i] :: k
  }

  lemma UnionLast(sets: seq<set<nat>>)
    requires sets != []
    ensures Union(sets) == Union(sets[..|sets| - 1]) + sets[|sets| - 1]
  {
  }

  /** What is still to be sent when the requests come. */
  function Pending(s: Node, pagenum: nat): set<nat> {
    if s.txPage == pagenum then s.txSet else {}
  }

  lemma {:induction false} RequestsAdd(s: Node, pagenum: nat, sets: seq<set<nat>>)
    requires pagenum < |s.pages| && pagenum <= HighestAvailable(s.pages) && sets != []
    ensures AfterRequests(s, pagenum, sets)
         == s.(txPage := pagenum, txSet := Pending(s, pagenum) + Union(sets), mode := Tx)
    decreases |sets|
  {
    hide HighestAvailable, Union;
    var last := |sets| - 1;
    UnionLast(sets);
    if last == 0 {
      assert sets[..last] == [];
      NothingUnited();
    } else {
      RequestsAdd(s, pagenum, sets[..last]);
    }
  }

  lemma NothingUnited()
    ensures Union([]) == {}
  {
  }

  /** Packet k is among those that send_page broadcasts exactly if it is asked for. */
  lemma {:induction false} PacketSent(s: Node, pagenum: nat, from: nat, k: nat)
    requires ValidNode(s) && pagenum < |s.pages| && from <= k < N_PKT
    ensures PacketOf(s, pagenum, k) in PagePackets(s, pagenum, from) <==> k in s.txSet
    decreases k - from
  {
    hide PayloadCrc;
    if from < k {
      PacketSent(s, pagenum, from + 1, k);
    } else {
      LaterPackets(s, pagenum, k + 1, k);
    }
  }

  lemma {:induction false} LaterPackets(s: Node, pagenum: nat, from: nat, k: nat)
    requires ValidNode(s) && pagenum < |s.pages| && k < from <= N_PKT
    ensures PacketOf(s, pagenum, k) !in PagePackets(s, pagenum, from)
    decreases N_PKT - from
  {
    hide PayloadCrc;
    if from < N_PKT {
      LaterPackets(s, pagenum, from + 1, k);
    }
  }

  /** After several requests for a page exactly the packets of it are sent that they, or an earlier one, ask for. */
  lemma AllRequestsServed(s: Node, pagenum: nat, sets: seq<set<nat>>, k: nat)
    requires ValidNode(s) && pagenum < |s.pages| && pagenum <= HighestAvailable(s.pages) && sets != [] && k < N_PKT
    ensures var after := AfterRequests(s, pagenum, sets);
            && ValidNode(after) && pagenum < |after.pages| && after.txPage == pagenum
            && PacketOf(after, pagenum, k) == PacketOf(s, pagenum, k)
            && (PacketOf(s, pagenum, k) in PagePackets(after, pagenum, 0)
                <==> k in Pending(s, pagenum) || exists i :: 0 <= i < |sets| && k in sets[i])
  {
    hide HighestAvailable, PayloadCrc, PagePackets;
    RequestsAdd(s, pagenum, sets);
    PacketSent(AfterRequests(s, pagenum, sets), pagenum, 0, k);
  }

  /** A profile that was handled, and any older one, changes nothing more. */
  lemma ProfileOnce(s: Node, version: nat, vector: seq<nat>, older: nat, other: seq<nat>)
    requires older <= version
    ensures var after := HandleProfile(s, version, vector);
            HandleProfile(after, version, vector) == after && HandleProfile(after, older, other) == after
  {
    hide UpdatedPages, ResizedFile, HighestAvailable;
  }

  function Requesting(s: Node, n: nat): Node {
    if n == 0 then s else AfterRequest(Requesting(s, n - 1))
  }

  /** A node that gets no answer asks twice and then waits for the next summary. */
  lemma AsksTwice(s: Node)
    requires s.nrequests == 0 && s.mode == Rx
    ensures Requesting(s, 1).mode == Rx && Requesting(s, 2) == s.(mode := Maintain)
  {
    assert Requesting(s, 1) == AfterRequest(s);
  }

  // ---------------------------------------------------------------- what stays and what is dropped

  /** A profile takes away no page that it has no newer version of, and leaves the bytes of all pages. */
  lemma ProfileLosesNothing(s: Node, version: nat, vector: seq<nat>, i: nat)
    requires ValidNode(s) && i < |s.pages| && i < |vector| && vector[i] <= s.pages[i].version
    ensures var after := HandleProfile(s, version, vector);
            i < |after.pages| == |after.file| && after.pages[i] == s.pages[i] && after.file[i] == s.file[i]
  {
  }

  /** A new profile starts the fetching of the first page that is not complete, and drops what was still to be sent. */
  lemma ProfileStartsFetching(s: Node, version: nat, vector: seq<nat>)
    requires version > s.updateVersion
    ensures var after := HandleProfile(s, version, vector);
            && after.mode == Rx && after.updateVersion == version && !CanTransmit(after)
            && after.rxPage <= |after.pages| && (forall i | 0 <= i < after.rxPage :: after.pages[i].complete)
            && (after.rxPage < |after.pages| ==> !after.pages[after.rxPage].complete)
  {
  }

  /** A summary makes a node fetch exactly when it announces a page of the node's version that the node lacks. */
  lemma SummaryExact(s: Node, version: nat, highest: nat, suppressed: bool)
    requires highest <= |s.pages|
    ensures var after := HandleSummary(s, version, highest, suppressed);
            && after == s.(mode := after.mode)
            && (after.mode == Rx <==>
                 s.mode == Rx
                 || (!suppressed && version == s.updateVersion && exists i :: 0 <= i < highest && !s.pages[i].complete))
  {
    var own := HighestAvailable(s.pages);
    if own < highest {
      assert !s.pages[own].complete;
    }
  }

  /** It does nothing when it announces more pages than the object has. */
  lemma SummaryTooHigh(s: Node, version: nat, highest: nat, suppressed: bool)
    requires highest > |s.pages|
    ensures HandleSummary(s, version, highest, suppressed) == s
  {
  }

  /** What was sent is not sent again: the next request for the page is served with what it asks for. */
  lemma SentOnce(s: Node, pagenum: nat, requestSet: set<nat>)
    requires pagenum < |s.pages| && pagenum <= HighestAvailable(s.pages)
    ensures !CanTransmit(AfterTransmit(s)) && AfterTransmit(s).mode == Maintain
    ensures HandleRequest(AfterTransmit(s), s.version, pagenum, requestSet)
         == s.(txPage := pagenum, txSet := requestSet, mode := Tx)
  {
    hide HighestAvailable;
  }
}
