/**
 The discovery resource: one window of the link-format listing of all resources, produced without building the listing
 (well_known_core_handler in cc2530/contiki_os/apps/er-coap-07/er-coap-07-engine.c).
*/
module CoapDiscovery {
  import opened Numbers
  import opened Bytes

  datatype Resource = Resource(url: string, attributes: string)

  // ---------------------------------------------------------------- the filter

  /** C strings end with a zero character. */
  function CharAt(s: string, i: nat): char {
    if i < |s| then s[i] else '\0'
  }

  const RT := "rt=\""

  /** The text behind the first rt=" of the attributes. */
  function ResourceTypeFrom(attributes: string, i: nat): (r: (bool, string))
    decreases |attributes| - i
  {
    if i + |RT| > |attributes| then (false, "")
    else if attributes[i..i + |RT|] == RT then (true, attributes[i + |RT|..])
    else ResourceTypeFrom(attributes, i + 1)
  }

  /** The source's test on the filter of a query rt=...; the empty filter lets everything pass. */
  predicate Selected(r: Resource, filter: string) {
    if filter == "" then true
    else
      var (present, rt) := ResourceTypeFrom(r.attributes, 0);
      var n := |filter|;
      && present
      && n - 1 <= |rt| && rt[..n - 1] == filter[..n - 1]
      && (filter[n - 1] == '*' || (filter[n - 1] == CharAt(rt, n - 1) && CharAt(rt, n) == '"'))
  }

  // ---------------------------------------------------------------- the listing

  function Tail(r: Resource): string {
    if r.attributes == "" then "" else [';'] + r.attributes
  }

  /** One link of the link format. */
  function Link(r: Resource): string {
    ['<', '/'] + r.url + ['>'] + Tail(r)
  }

  /** The links of the selected resources from i on. */
  function Links(rs: seq<Resource>, filter: string, i: nat): seq<string>
    decreases |rs| - i
  {
    if i >= |rs| then []
    else if Selected(rs[i], filter) then [Link(rs[i])] + Links(rs, filter, i + 1)
    else Links(rs, filter, i + 1)
  }

  /** A well-formed listing: links with commas between them. */
  function Joined(links: seq<string>): string {
    if links == [] then "" else if |links| == 1 then links[0] else links[0] + "," + Joined(links[1..])
  }

  /** What the loop produces from resource i on: a comma follows every selected resource but the last of the list. */
  function Listing(rs: seq<Resource>, filter: string, i: nat): string
    decreases |rs| - i
  {
    if i >= |rs| then ""
    else if !Selected(rs[i], filter) then Listing(rs, filter, i + 1)
    else Link(rs[i]) + Comma(rs, i) + Listing(rs, filter, i + 1)
  }

  /** The listing is the joined links, with a comma too many when something is selected but not the last resource. */
  lemma {:induction false} ListingJoined(rs: seq<Resource>, filter: string, i: nat)
    requires i <= |rs|
    ensures Listing(rs, filter, i)
         == Joined(Links(rs, filter, i))
            + if Links(rs, filter, i) != [] && !Selected(rs[|rs| - 1], filter) then "," else ""
    decreases |rs| - i
  {
    hide Selected, Link;
    if i < |rs| {
      ListingJoined(rs, filter, i + 1);
      LinksNonempty(rs, filter, i + 1);
      var rest := Links(rs, filter, i + 1);
      if Selected(rs[i], filter) {
        assert Links(rs, filter, i)[1..] == rest;
      }
    }
  }

  lemma {:induction false} LinksNonempty(rs: seq<Resource>, filter: string, i: nat)
    requires i <= |rs|
    ensures Links(rs, filter, i) == [] <==> forall k | i <= k < |rs| :: !Selected(rs[k], filter)
    decreases |rs| - i
  {
    hide Selected, Link;
    if i < |rs| {
      LinksNonempty(rs, filter, i + 1);
    }
  }

  /** The listing is well formed: nothing is selected, or the last resource of the list is. */
  predicate EndsSelected(rs: seq<Resource>, filter: string) {
    (forall k | 0 <= k < |rs| :: !Selected(rs[k], filter)) || Selected(rs[|rs| - 1], filter)
  }

  lemma ListingExact(rs: seq<Resource>, filter: string)
    ensures Listing(rs, filter, 0) == Joined(Links(rs, filter, 0)) <==> EndsSelected(rs, filter)
  {
    hide Selected, Listing, Joined, Links;
    ListingJoined(rs, filter, 0);
    LinksNonempty(rs, filter, 0);
  }

  /** Two resources of which the filter takes the first only. */
  function Commas(): seq<Resource> {
    [Resource("A", "rt=\"x\""), Resource("B", "rt=\"y\"")]
  }

  /** Their listing ends in a comma. */
  lemma TrailingComma()
    ensures Listing(Commas(), "x", 0) == "</A>;rt=\"x\"," && Joined(Links(Commas(), "x", 0)) == "</A>;rt=\"x\""
  {
    var a, b := Commas()[0], Commas()[1];
    assert a.attributes[0..4] == RT && b.attributes[0..4] == RT;
    assert a.attributes[4..] == "x\"" && b.attributes[4..] == "y\"";
    assert ResourceTypeFrom(a.attributes, 0) == (true, "x\"") && ResourceTypeFrom(b.attributes, 0) == (true, "y\"");
    assert Selected(a, "x") && !Selected(b, "x");
    assert Listing(Commas(), "x", 1) == "" && Links(Commas(), "x", 1) == [];
    assert Links(Commas(), "x", 0) == [Link(a)];
  }

  function Comma(rs: seq<Resource>, i: nat): string {
    if i + 1 < |rs| then "," else ""
  }

  /** The listing ends with the attributes of a resource. */
  predicate EndsInAttributes(rs: seq<Resource>, filter: string) {
    rs != [] && Selected(rs[|rs| - 1], filter) && rs[|rs| - 1].attributes != ""
  }

  /** How many characters of a text of length n fall into the window. */
  function Covered(n: nat, offset: nat, size: nat): nat {
    if n <= offset then 0 else Min(n - offset, size)
  }

  /** The buffer holds the part of text that falls into the window. */
  ghost predicate Filled(buffer: seq<char>, text: string, offset: nat, size: nat, bufpos: nat) {
    && bufpos == Covered(|text|, offset, size) <= size <= |buffer|
    && forall k | 0 <= k < bufpos :: offset + k < |text| && buffer[k] == text[offset + k]
  }

  /** One character at position strpos of the listing. */
  method PutChar(buffer: array<char>, offset: nat, size: nat, strpos: nat, pos: nat, c: char, ghost text: string)
    returns (bufpos: nat)
    requires Filled(buffer[..], text, offset, size, pos) && strpos == |text|
    modifies buffer
    ensures Filled(buffer[..], text + [c], offset, size, bufpos)
  {
    bufpos := pos;
    if strpos >= offset && bufpos < size {
      buffer[bufpos] := c;
      bufpos := bufpos + 1;
    }
  }

  /** snprintf of the part of s behind the offset; the position moves by the whole length even when the text is cut. */
  method PutString(buffer: array<char>, offset: nat, size: nat, strpos: nat, pos: nat, s: string, ghost text: string)
    returns (bufpos: nat)
    requires Filled(buffer[..], text, offset, size, pos) && strpos == |text| && 0 < size < buffer.Length
    modifies buffer
    ensures bufpos < size ==> Filled(buffer[..], text + s, offset, size, bufpos)
    ensures bufpos >= size <==> |text| + |s| >= offset + size
    ensures bufpos >= size ==> Filled(buffer[..], text + s, offset, size, size)
  {
    bufpos := pos;
    if strpos + |s| > offset {
      var skip := if offset > strpos then offset - strpos else 0;
      var n := Min(|s| - skip, size - bufpos);
      forall k | 0 <= k < n {
        buffer[bufpos + k] := s[skip + k];
      }
      buffer[bufpos + n] := '\0';
      bufpos := bufpos + |s| - skip;
    }
  }

  function Entry(rs: seq<Resource>, i: nat): string
    requires i < |rs|
  {
    Link(rs[i]) + Comma(rs, i)
  }

  /** The listing goes on behind the window, or ends with it inside the attributes of the last resource. */
  predicate Overfull(rs: seq<Resource>, i: nat, length: nat, offset: nat, size: nat)
    requires i < |rs|
  {
    length > offset + size || (length == offset + size && rs[i].attributes != "" && i + 1 == |rs|)
  }

  lemma FilledLonger(buffer: seq<char>, text: string, more: string, offset: nat, size: nat)
    requires Filled(buffer, text, offset, size, size) && 0 < size
    ensures Filled(buffer, text + more, offset, size, size) && |text| >= offset + size
  {
  }

  /** The path of a resource in angle brackets: a full buffer ends the loop in the path. */
  method PutLink(buffer: array<char>, offset: nat, size: nat, strpos: nat, pos: nat, url: string, ghost text: string)
    returns (full: bool, newStrpos: nat, bufpos: nat)
    requires Filled(buffer[..], text, offset, size, pos) && strpos == |text| && 0 < size < buffer.Length
    modifies buffer
    ensures full ==> bufpos >= size && Filled(buffer[..], text + (['<', '/'] + url + ['>']), offset, size, size)
                     && |text| + |url| + 3 > offset + size
    ensures !full ==> Filled(buffer[..], text + (['<', '/'] + url + ['>']), offset, size, bufpos)
                      && newStrpos == |text| + |url| + 3 <= offset + size
  {
    hide Filled;
    bufpos := PutChar(buffer, offset, size, strpos, pos, '<', text);
    bufpos := PutChar(buffer, offset, size, strpos + 1, bufpos, '/', text + ['<']);
    ghost var head := text + ['<'] + ['/'];
    newStrpos := strpos + 2;
    bufpos := PutString(buffer, offset, size, newStrpos, bufpos, url, head);
    assert head + url + ['>'] == text + (['<', '/'] + url + ['>']);
    if newStrpos + |url| > offset && bufpos >= size {
      FilledLonger(buffer[..], head + url, ['>'], offset, size);
      return true, newStrpos, bufpos;
    }
    newStrpos := newStrpos + |url|;
    bufpos := PutChar(buffer, offset, size, newStrpos, bufpos, '>', head + url);
    full, newStrpos := false, newStrpos + 1;
  }

  /** The attributes of a resource: a full buffer ends the loop in them, even where they end with it. */
  method PutAttributes(buffer: array<char>, offset: nat, size: nat, strpos: nat, pos: nat, r: Resource,
      ghost text: string)
    returns (full: bool, newStrpos: nat, bufpos: nat)
    requires Filled(buffer[..], text, offset, size, pos) && strpos == |text| && 0 < size < buffer.Length
    modifies buffer
    ensures full <==> r.attributes != "" && |text| + |Tail(r)| >= offset + size
    ensures full ==> bufpos >= size && Filled(buffer[..], text + Tail(r), offset, size, size)
    ensures !full ==> Filled(buffer[..], text + Tail(r), offset, size, bufpos) && newStrpos == |text| + |Tail(r)|
  {
    hide Filled;
    newStrpos, bufpos := strpos, pos;
    assert text + "" == text;
    if r.attributes != "" {
      bufpos := PutChar(buffer, offset, size, strpos, bufpos, ';', text);
      newStrpos := newStrpos + 1;
      assert text + [';'] + r.attributes == text + Tail(r);
      bufpos := PutString(buffer, offset, size, newStrpos, bufpos, r.attributes, text + [';']);
      if newStrpos + |r.attributes| > offset && bufpos >= size {
        return true, newStrpos, bufpos;
      }
      newStrpos := newStrpos + |r.attributes|;
    }
    full := false;
  }

  /** One round of the loop. */
  method PutResource(buffer: array<char>, offset: nat, size: nat, strpos: nat, pos: nat, rs: seq<Resource>,
      i: nat, ghost text: string)
    returns (full: bool, newStrpos: nat, bufpos: nat)
    requires i < |rs| && Filled(buffer[..], text, offset, size, pos) && strpos == |text| && 0 < size < buffer.Length
    modifies buffer
    ensures full <==> Overfull(rs, i, |text| + |Entry(rs, i)|, offset, size)
    ensures full ==> bufpos >= size && Filled(buffer[..], text + Entry(rs, i), offset, size, size)
    ensures !full ==>
              Filled(buffer[..], text + Entry(rs, i), offset, size, bufpos) && newStrpos == |text| + |Entry(rs, i)|
  {
    var r := rs[i];
    ghost var link := ['<', '/'] + r.url + ['>'];
    ghost var entry := Entry(rs, i);
    assert entry == link + (Tail(r) + Comma(rs, i));
    assert text + link + Tail(r) + Comma(rs, i) == text + entry;
    hide Entry, Filled;
    full, newStrpos, bufpos := PutLink(buffer, offset, size, strpos, pos, r.url, text);
    if full {
      FilledLonger(buffer[..], text + link, Tail(r) + Comma(rs, i), offset, size);
      assert text + link + (Tail(r) + Comma(rs, i)) == text + entry;
      return;
    }
    full, newStrpos, bufpos := PutAttributes(buffer, offset, size, newStrpos, bufpos, r, text + link);
    if full {
      FilledLonger(buffer[..], text + link + Tail(r), Comma(rs, i), offset, size);
      return;
    }
    assert text + link + Tail(r) + "" == text + link + Tail(r);
    if i + 1 < |rs| {
      bufpos := PutChar(buffer, offset, size, newStrpos, bufpos, ',', text + link + Tail(r));
      newStrpos := newStrpos + 1;
    }
    FilledLength(buffer[..], text + entry, offset, size, bufpos);
    full := bufpos >= size && newStrpos - bufpos > offset;
  }

  lemma FilledLength(buffer: seq<char>, text: string, offset: nat, size: nat, bufpos: nat)
    requires Filled(buffer, text, offset, size, bufpos)
    ensures bufpos == Covered(|text|, offset, size)
  {
  }

  /** After the window at offset, the handler says that there is more. */
  predicate Pending(rs: seq<Resource>, filter: string, offset: nat, size: nat) {
    var n := |Listing(rs, filter, 0)|;
    n > offset + size || (n == offset + size && EndsInAttributes(rs, filter))
  }

  /** The window of the listing at offset stands at the front of the buffer. */
  ghost predicate HoldsWindow(buffer: seq<char>, listing: string, offset: nat, size: nat, length: nat) {
    && Min(length, size) == Covered(|listing|, offset, size) <= |buffer|
    && forall k | 0 <= k < Min(length, size) :: offset + k < |listing| && buffer[k] == listing[offset + k]
  }

  /**
   well_known_core_handler. The buffer has one byte more than the window for the zero that snprintf writes. The
   length is the source's write position, which may lie behind the window; newOffset is -1 when the listing is
   finished.
  */
  method Handle(rs: seq<Resource>, filter: string, buffer: array<char>, size: nat, offset: nat)
    returns (length: nat, outOfScope: bool, newOffset: int)
    requires 0 < size < buffer.Length
    modifies buffer
    ensures HoldsWindow(buffer[..], Listing(rs, filter, 0), offset, size, length)
    ensures outOfScope <==> 0 < |Listing(rs, filter, 0)| <= offset
    ensures newOffset == if Pending(rs, filter, offset, size) then offset + size else -1
  {
    hide Selected, Entry, Filled;
    var strpos, bufpos, full := 0, 0, false;
    ghost var text: string := "";
    FilledEmpty(buffer[..], offset, size);
    assert "" + Listing(rs, filter, 0) == Listing(rs, filter, 0);
    var i := 0;
    while i < |rs|
      invariant i <= |rs| && Filled(buffer[..], text, offset, size, bufpos) && strpos == |text| <= offset + size
      invariant text + Listing(rs, filter, i) == Listing(rs, filter, 0)
      invariant i == |rs| && EndsInAttributes(rs, filter) ==> |text| < offset + size
      invariant !full
    {
      ListingStep(rs, filter, i);
      if Selected(rs[i], filter) {
        ghost var entry := Entry(rs, i);
        assert text + (entry + Listing(rs, filter, i + 1)) == text + entry + Listing(rs, filter, i + 1);
        full, strpos, bufpos := PutResource(buffer, offset, size, strpos, bufpos, rs, i, text);
        if full {
          FilledLonger(buffer[..], text + entry, Listing(rs, filter, i + 1), offset, size);
          break;
        }
        text := text + entry;
      }
      i := i + 1;
    }
    assert !full ==> text + "" == text;
    WindowFilled(buffer[..], Listing(rs, filter, 0), offset, size, bufpos, full);
    length := bufpos;
    outOfScope := bufpos == 0 && strpos > 0;
    newOffset := if i == |rs| then -1 else offset + size;
  }

  lemma FilledEmpty(buffer: seq<char>, offset: nat, size: nat)
    requires size <= |buffer|
    ensures Filled(buffer, "", offset, size, 0)
  {
  }

  lemma ListingStep(rs: seq<Resource>, filter: string, i: nat)
    requires i < |rs|
    ensures Listing(rs, filter, i)
         == if Selected(rs[i], filter) then Entry(rs, i) + Listing(rs, filter, i + 1) else Listing(rs, filter, i + 1)
    ensures i + 1 == |rs| ==> Listing(rs, filter, i + 1) == ""
  {
  }

  lemma WindowFilled(buffer: seq<char>, listing: string, offset: nat, size: nat, bufpos: nat, full: bool)
    requires full ==> bufpos >= size && Filled(buffer, listing, offset, size, size)
    requires !full ==> Filled(buffer, listing, offset, size, bufpos)
    ensures HoldsWindow(buffer, listing, offset, size, bufpos)
  {
  }

  /**
   A block-wise transfer of the whole listing: the windows joined are the listing, which is the links with commas
   between them exactly when nothing or the last resource is selected. One window too many, answered with
   BlockOutOfScope, is asked for exactly when the listing fills its last window and ends in attributes.
  */
  method Transfer(rs: seq<Resource>, filter: string, size: nat) returns (text: string, failed: bool)
    requires size > 0
    ensures text == Listing(rs, filter, 0)
    ensures text == Joined(Links(rs, filter, 0)) <==> EndsSelected(rs, filter)
    ensures failed <==> EndsInAttributes(rs, filter) && |Listing(rs, filter, 0)| % size == 0
  {
    hide Listing, Selected, Joined, Links;
    ListingExact(rs, filter);
    ghost var all := Listing(rs, filter, 0);
    EndsNonempty(rs, filter);
    var buffer := new char[size + 1](i => '\0');
    var offset := 0;
    ghost var calls := 0;
    text, failed := "", false;
    while true
      invariant 0 <= offset <= |all| && offset == calls * size && !failed
      invariant text == all[..offset]
      invariant offset > 0 && offset == |all| ==> EndsInAttributes(rs, filter)
      decreases |all| - offset
    {
      var length, outOfScope, next := Handle(rs, filter, buffer, size, offset);
      var n := Min(length, size);
      assert buffer[..n] == all[offset..offset + n];
      text := text + buffer[..n];
      if next == -1 {
        failed := outOfScope;
        Remainder(|all|, calls, size);
        return;
      }
      offset := next;
      calls := calls + 1;
    }
  }

  lemma Remainder(n: nat, calls: nat, size: nat)
    requires size > 0 && calls * size <= n <= calls * size + size
    ensures n % size == 0 <==> n == calls * size || n == calls * size + size
  {
    var d := n - calls * size;
    assert n == calls * size + d;
    if d < size {
      ModOf(calls, size, d);
    } else {
      assert n == (calls + 1) * size;
      ModOf(calls + 1, size, 0);
    }
  }

  lemma ModOf(k: nat, size: nat, d: nat)
    requires d < size
    ensures (k * size + d) % size == d
  {
    var n := k * size + d;
    var q, r := n / size, n % size;
    assert q * size + r == n;
    assert (q - k) * size == d - r && (k - q) * size == r - d;
    if q > k {
      Grows(q - k, size);
    } else if q < k {
      Grows(k - q, size);
    }
  }

  lemma Grows(k: nat, size: nat)
    requires k > 0
    ensures k * size >= size
  {
    assert k * size == (k - 1) * size + size;
  }

  lemma EndsNonempty(rs: seq<Resource>, filter: string)
    ensures EndsInAttributes(rs, filter) ==> Listing(rs, filter, 0) != ""
  {
    if EndsInAttributes(rs, filter) {
      NonemptyFrom(rs, filter, 0);
    }
  }

  lemma {:induction false} NonemptyFrom(rs: seq<Resource>, filter: string, i: nat)
    requires EndsInAttributes(rs, filter) && i < |rs|
    ensures Listing(rs, filter, i) != ""
    decreases |rs| - i
  {
    if !Selected(rs[i], filter) {
      NonemptyFrom(rs, filter, i + 1);
    }
  }
}
