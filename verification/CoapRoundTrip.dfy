/**
 Serialize-then-parse: exactly which packets come back unchanged.
*/
module CoapRoundTrip {
  import opened Bytes
  import opened CoapPacket
  import opened CoapWire
  import opened CoapSplit
  import opened CoapMessage
  import opened CoapFold

  // ---------------------------------------------------------------- what comes back

  function EchoPath(v: seq<byte>, sep: byte): seq<byte> {
    MergeAll([], Split(v, sep), sep)
  }

  function EchoBlock(b: Block): Block {
    ParseBlock(IntBytes(BlockWord(b)))
  }

  predicate Has(p: Packet, number: nat, n: nat) {
    number in p.options && number < n
  }

  /** The packet as parsed from its options below n; `fenced` tells whether a fence post was among them. */
  function Echo(p: Packet, n: nat, fenced: bool): Packet {
    Packet(p.kind, p.code, p.mid,
           (set k | k in p.options && k < n) + (if fenced then {FENCE_POST} else {}),
           if Has(p, CONTENT_TYPE, n) then p.contentType else 0,
           if Has(p, MAX_AGE, n) then p.maxAge else 0,
           [],
           if Has(p, ETAG, n) then p.etag else [],
           if Has(p, URI_HOST, n) then p.uriHost else [],
           if Has(p, LOCATION_PATH, n) then EchoPath(p.locationPath, SLASH) else [],
           if Has(p, URI_PORT, n) then p.uriPort else 0,
           if Has(p, LOCATION_QUERY, n) then EchoPath(p.locationQuery, AMPERSAND) else [],
           if Has(p, URI_PATH, n) then EchoPath(p.uriPath, SLASH) else [],
           if Has(p, OBSERVE, n) then p.observe else 0,
           if Has(p, TOKEN, n) then p.token else [],
           if Has(p, ACCEPT, n) then p.accept else [],
           if Has(p, IF_MATCH, n) then p.ifMatch else [],
           if Has(p, BLOCK2, n) then EchoBlock(p.block2) else NO_BLOCK,
           if Has(p, BLOCK1, n) then EchoBlock(p.block1) else NO_BLOCK,
           if Has(p, URI_QUERY, n) then EchoPath(p.uriQuery, AMPERSAND) else [],
           [])
  }

  function Restrict(p: Packet, n: nat): set<nat> {
    set k | k in p.options && k < n
  }

  predicate FencedBefore(p: Packet, n: nat)
    decreases n
  {
    n > 0 && (FencedBefore(p, n - 1)
              || (Values(p, n - 1) != [] && n - 1 > LastNumber(0, Options(p, n - 1)) + 15))
  }

  // ---------------------------------------------------------------- one option number

  /** Options of one number: fold and growth, from a packet on which the fence bit is already right. */
  lemma SingleFold(q: Packet, current: nat, n: nat, value: seq<byte>, r: Packet)
    requires Apply(Fenced(q, current, n), n, value) == Continue(r)
    requires n !in q.options && n != FENCE_POST
    requires Content(Fenced(q, current, n)) < Content(r)
    ensures FoldOptions(q, current, Numbered(n, [value])) == Continue(r)
    ensures Growing(q, current, Numbered(n, [value]))
  {
    hide Apply;
    assert [value][1..] == [];
    assert Numbered(n, [value][1..]) == [];
    var opts := Numbered(n, [value]);
    assert opts == [RawOption(n, value)];
    assert opts[1..] == [];
    FencedContent(q, current, n);
    assert FoldOptions(r, n, []) == Continue(r);
    assert Growing(r, n, []);
  }

  lemma NewOptionContent(o: set<nat>, n: nat)
    requires n !in o && n != FENCE_POST
    ensures |(o + {n}) - {FENCE_POST}| == |o - {FENCE_POST}| + 1
  {
    assert (o + {n}) - {FENCE_POST} == (o - {FENCE_POST}) + {n};
  }

  /** The set of options of an echo grows by n. */
  lemma EchoOptions(p: Packet, n: nat, fenced: bool, current: nat)
    requires n in p.options && Known(n)
    ensures Fenced(Echo(p, n, fenced), current, n).options + {n}
         == Echo(p, n + 1, fenced || n > current + 15).options
    ensures n !in Fenced(Echo(p, n, fenced), current, n).options
  {
  }

  lemma EchoSkip(p: Packet, n: nat, fenced: bool)
    requires n !in p.options
    ensures Echo(p, n + 1, fenced) == Echo(p, n, fenced)
  {
    assert Restrict(p, n + 1) == Restrict(p, n);
  }

  predicate Single(n: nat) {
    n in {CONTENT_TYPE, MAX_AGE, ETAG, URI_HOST, URI_PORT, OBSERVE, TOKEN, IF_MATCH, BLOCK2, BLOCK1, IF_NONE_MATCH}
  }

  lemma SingleValue(p: Packet, n: nat)
    requires ValidPacket(p) && n in p.options && Single(n)
    ensures |Values(p, n)| == 1
    ensures n == CONTENT_TYPE ==> ParseInt(Values(p, n)[0]) == p.contentType
    ensures n == MAX_AGE ==> ParseInt(Values(p, n)[0]) == p.maxAge
    ensures n == URI_PORT ==> ParseInt(Values(p, n)[0]) == p.uriPort
    ensures n == OBSERVE ==> ParseInt(Values(p, n)[0]) == p.observe
  {
    IntRoundTrip(p.contentType);
    IntRoundTrip(p.maxAge);
    IntRoundTrip(p.uriPort);
    IntRoundTrip(p.observe);
  }

  lemma SingleApply(p: Packet, n: nat, fenced: bool, current: nat)
    requires ValidPacket(p) && n in p.options && Single(n)
    ensures |Values(p, n)| == 1
    ensures Apply(Fenced(Echo(p, n, fenced), current, n), n, Values(p, n)[0])
         == Continue(Echo(p, n + 1, fenced || n > current + 15))
  {
    hide *;
    if n in {ETAG, TOKEN, IF_MATCH} {
      OpaqueApply(p, n, fenced, current);
    } else {
      PlainApply(p, n, fenced, current);
    }
  }

  lemma OpaqueApply(p: Packet, n: nat, fenced: bool, current: nat)
    requires ValidPacket(p) && n in p.options && n in {ETAG, TOKEN, IF_MATCH}
    ensures |Values(p, n)| == 1
    ensures Apply(Fenced(Echo(p, n, fenced), current, n), n, Values(p, n)[0])
         == Continue(Echo(p, n + 1, fenced || n > current + 15))
  {
    SingleValue(p, n);
    EchoOptions(p, n, fenced, current);
    var value := Values(p, n)[0];
    assert value[..|value|] == value;
  }

  lemma PlainApply(p: Packet, n: nat, fenced: bool, current: nat)
    requires ValidPacket(p) && n in p.options && Single(n) && n !in {ETAG, TOKEN, IF_MATCH}
    ensures |Values(p, n)| == 1
    ensures Apply(Fenced(Echo(p, n, fenced), current, n), n, Values(p, n)[0])
         == Continue(Echo(p, n + 1, fenced || n > current + 15))
  {
    SingleValue(p, n);
    EchoOptions(p, n, fenced, current);
  }

  // ---------------------------------------------------------------- text options

  predicate Multipart(n: nat) {
    n == LOCATION_PATH || n == LOCATION_QUERY || n == URI_PATH || n == URI_QUERY
  }

  function Text(p: Packet, n: nat): seq<byte>
    requires Multipart(n)
  {
    if n == LOCATION_PATH then p.locationPath
    else if n == LOCATION_QUERY then p.locationQuery
    else if n == URI_PATH then p.uriPath
    else p.uriQuery
  }

  function WithText(p: Packet, n: nat, v: seq<byte>): (q: Packet)
    requires Multipart(n)
  {
    if n == LOCATION_PATH then p.(locationPath := v)
    else if n == LOCATION_QUERY then p.(locationQuery := v)
    else if n == URI_PATH then p.(uriPath := v)
    else p.(uriQuery := v)
  }

  lemma WithTextProps(p: Packet, n: nat, v: seq<byte>, w: seq<byte>)
    requires Multipart(n)
    ensures Text(WithText(p, n, v), n) == v
    ensures WithText(p, n, v).options == p.options
    ensures WithText(WithText(p, n, v), n, w) == WithText(p, n, w)
    ensures WithText(p, n, Text(p, n)) == p
    ensures Content(WithText(p, n, v)) == Content(p) - |Text(p, n)| + |v|
  {
  }

  lemma TextApply(q: Packet, n: nat, value: seq<byte>)
    requires Multipart(n)
    ensures Apply(q, n, value)
         == Continue(WithText(q.(options := q.options + {n}), n, Merge(Text(q, n), value, Separator(n))))
  {
  }

  /** Further parts of a text option are appended, and nonempty parts add content. */
  lemma {:induction false} TextFold(q: Packet, n: nat, parts: seq<seq<byte>>)
    requires Multipart(n) && n in q.options
    ensures FoldOptions(q, n, Numbered(n, parts)) == Continue(WithText(q, n, MergeAll(Text(q, n), parts, Separator(n))))
    ensures (forall i :: 0 <= i < |parts| ==> parts[i] != []) ==> Growing(q, n, Numbered(n, parts))
    decreases parts
  {
    hide Apply;
    if parts == [] {
      WithTextProps(q, n, [], []);
    } else {
      assert q.options + {n} == q.options;
      var v := Merge(Text(q, n), parts[0], Separator(n));
      TextApply(q, n, parts[0]);
      WithTextProps(q, n, v, MergeAll(v, parts[1..], Separator(n)));
      assert Numbered(n, parts)[1..] == Numbered(n, parts[1..]);
      TextFold(WithText(q, n, v), n, parts[1..]);
    }
  }

  /** A whole text option, starting from a packet that does not have it yet. */
  lemma TextPiece(q: Packet, current: nat, n: nat, v: seq<byte>)
    requires Multipart(n) && n !in q.options && Text(q, n) == []
    ensures var f := Fenced(q, current, n);
            FoldOptions(q, current, Numbered(n, Split(v, Separator(n))))
                == Continue(WithText(f.(options := f.options + {n}), n, EchoPath(v, Separator(n))))
    ensures Growing(q, current, Numbered(n, Split(v, Separator(n))))
    ensures Split(v, Separator(n)) != []
  {
    hide Apply;
    var sep := Separator(n);
    var parts := Split(v, sep);
    SplitHead(v, sep, 0);
    var f := Fenced(q, current, n);
    var g := f.(options := f.options + {n});
    TextApply(f, n, parts[0]);
    var h := WithText(g, n, parts[0]);
    WithTextProps(g, n, parts[0], MergeAll(parts[0], parts[1..], sep));
    assert Numbered(n, parts)[1..] == Numbered(n, parts[1..]);
    TextFold(h, n, parts[1..]);
    FencedContent(q, current, n);
    NewOptionContent(f.options, n);
  }

  lemma TextEcho(p: Packet, n: nat, fenced: bool, current: nat)
    requires Multipart(n) && n in p.options
    ensures Text(Echo(p, n, fenced), n) == [] && n !in Echo(p, n, fenced).options
    ensures var f := Fenced(Echo(p, n, fenced), current, n);
            WithText(f.(options := f.options + {n}), n, EchoPath(Text(p, n), Separator(n)))
                == Echo(p, n + 1, fenced || n > current + 15)
    ensures Values(p, n) == Split(Text(p, n), Separator(n))
  {
    EchoOptions(p, n, fenced, current);
  }

  // ---------------------------------------------------------------- accept

  lemma FoldCons(q: Packet, current: nat, n: nat, values: seq<seq<byte>>, r: Packet)
    requires values != [] && Apply(Fenced(q, current, n), n, values[0]) == Continue(r)
    ensures FoldOptions(q, current, Numbered(n, values)) == FoldOptions(r, n, Numbered(n, values[1..]))
    ensures Growing(q, current, Numbered(n, values)) <==>
            Content(q) < Content(r) && Growing(r, n, Numbered(n, values[1..]))
  {
    hide Apply;
    assert Numbered(n, values)[1..] == Numbered(n, values[1..]);
  }

  lemma AcceptApply(q: Packet, value: seq<byte>)
    requires |q.accept| < COAP_MAX_ACCEPT_NUM
    ensures Apply(q, ACCEPT, value)
         == Continue(q.(options := q.options + {ACCEPT}, accept := q.accept + [ParseInt(value) % U16]))
  {
  }

  lemma {:induction false} IntValuesProps(values: seq<nat>)
    requires forall i :: 0 <= i < |values| ==> values[i] < U16
    ensures |IntValues(values)| == |values|
    ensures forall i :: 0 <= i < |values| ==> ParseInt(IntValues(values)[i]) % U16 == values[i]
  {
    if values != [] {
      IntRoundTrip(values[0]);
      IntValuesProps(values[1..]);
    }
  }

  lemma AcceptPiece(p: Packet, fenced: bool, current: nat)
    requires ValidPacket(p) && ACCEPT in p.options && current < ACCEPT
    ensures FoldOptions(Echo(p, ACCEPT, fenced), current, Piece(p, ACCEPT)) == Continue(Echo(p, ACCEPT + 1, fenced))
    ensures Growing(Echo(p, ACCEPT, fenced), current, Piece(p, ACCEPT))
    ensures Values(p, ACCEPT) != []
  {
    hide Apply, ParseInt, Content, IntBytes;
    var q := Echo(p, ACCEPT, fenced);
    IntValuesProps(p.accept);
    EchoOptions(p, ACCEPT, fenced, current);
    assert p.accept == if |p.accept| == 1 then [p.accept[0]] else [p.accept[0], p.accept[1]];
    assert q.(options := q.options + {ACCEPT}, accept := p.accept) == Echo(p, ACCEPT + 1, fenced);
    AcceptFold(q, current, IntValues(p.accept), p.accept);
  }

  lemma AcceptFold(q: Packet, current: nat, values: seq<seq<byte>>, accept: seq<nat>)
    requires 1 <= |values| == |accept| <= 2 && current < ACCEPT
    requires forall i :: 0 <= i < |values| ==> ParseInt(values[i]) % U16 == accept[i]
    requires ACCEPT !in q.options && q.accept == []
    ensures FoldOptions(q, current, Numbered(ACCEPT, values))
         == Continue(q.(options := q.options + {ACCEPT}, accept := accept))
    ensures Growing(q, current, Numbered(ACCEPT, values))
  {
    hide Apply, ParseInt;
    AcceptApply(q, values[0]);
    var q1 := q.(options := q.options + {ACCEPT}, accept := [accept[0]]);
    assert q.accept + [accept[0]] == [accept[0]];
    FoldCons(q, current, ACCEPT, values, q1);
    NewOptionContent(q.options, ACCEPT);
    if |values| == 1 {
      assert Numbered(ACCEPT, values[1..]) == [];
      assert accept == [accept[0]];
    } else {
      SecondAccept(q1, values[1..], accept);
    }
  }

  lemma SecondAccept(q: Packet, values: seq<seq<byte>>, accept: seq<nat>)
    requires |values| == 1 && |accept| == 2 && ParseInt(values[0]) % U16 == accept[1]
    requires ACCEPT in q.options && q.accept == [accept[0]]
    ensures FoldOptions(q, ACCEPT, Numbered(ACCEPT, values)) == Continue(q.(accept := accept))
    ensures Growing(q, ACCEPT, Numbered(ACCEPT, values))
  {
    hide Apply, ParseInt;
    AcceptApply(q, values[0]);
    assert q.options + {ACCEPT} == q.options;
    assert q.accept + [accept[1]] == accept;
    FoldCons(q, ACCEPT, ACCEPT, values, q.(accept := accept));
    assert values[1..] == [];
    assert Numbered(ACCEPT, values[1..]) == [];
  }

  // ---------------------------------------------------------------- all options

  /** One step of the serializer's order, as the parser sees it. */
  lemma PieceStep(p: Packet, n: nat, fenced: bool, current: nat)
    requires ValidPacket(p) && PROXY_URI !in p.options && current <= n && (n > 0 ==> current < n)
    ensures var fenced' := fenced || (Values(p, n) != [] && n > current + 15);
            && FoldOptions(Echo(p, n, fenced), current, Piece(p, n)) == Continue(Echo(p, n + 1, fenced'))
            && Growing(Echo(p, n, fenced), current, Piece(p, n))
  {
    hide Apply, Content;
    var q := Echo(p, n, fenced);
    if n !in p.options {
      EchoSkip(p, n, fenced);
    } else if Multipart(n) {
      TextEcho(p, n, fenced, current);
      TextPiece(q, current, n, Text(p, n));
    } else if n == ACCEPT {
      AcceptPiece(p, fenced, current);
    } else {
      SingleApply(p, n, fenced, current);
      EchoGrows(p, n, fenced, current);
      var values := Values(p, n);
      assert values == [values[0]];
      SingleFold(q, current, n, values[0], Echo(p, n + 1, fenced || n > current + 15));
    }
  }

  lemma EchoGrows(p: Packet, n: nat, fenced: bool, current: nat)
    requires ValidPacket(p) && n in p.options && Single(n)
    ensures Content(Fenced(Echo(p, n, fenced), current, n)) < Content(Echo(p, n + 1, fenced || n > current + 15))
  {
    hide EchoPath, EchoBlock;
    EchoOptions(p, n, fenced, current);
    NewOptionContent(Fenced(Echo(p, n, fenced), current, n).options, n);
  }

  /** Folding one list and then another. */
  lemma FoldsOn(start: Packet, before: seq<RawOption>, q: Packet, current: nat, more: seq<RawOption>)
    requires FoldOptions(start, 0, before) == Continue(q) && Growing(start, 0, before)
    requires current == LastNumber(0, before) && Growing(q, current, more)
    ensures FoldOptions(start, 0, before + more) == FoldOptions(q, current, more) && Growing(start, 0, before + more)
  {
    hide Apply, Content, FoldOptions, Growing, LastNumber;
    FoldAppend(start, 0, before, more);
    GrowingAppend(start, 0, before, more);
  }

  lemma {:induction false} OptionsFold(p: Packet, n: nat)
    requires ValidPacket(p) && PROXY_URI !in p.options
    ensures FoldOptions(Blank(p.kind, p.code, p.mid), 0, Options(p, n)) == Continue(Echo(p, n, FencedBefore(p, n)))
    ensures Growing(Blank(p.kind, p.code, p.mid), 0, Options(p, n))
    decreases n
  {
    hide Apply, Content, FoldOptions, Growing, Echo, FencedBefore, Piece, ValidPacket, LastNumber, Blank;
    var blank := Blank(p.kind, p.code, p.mid);
    if n == 0 {
      NothingFolded(p);
    } else {
      OptionsFold(p, n - 1);
      OptionsAscending(p, n - 1);
      var before, current := Options(p, n - 1), LastNumber(0, Options(p, n - 1));
      PieceStep(p, n - 1, FencedBefore(p, n - 1), current);
      FencedNext(p, n);
      FoldsOn(blank, before, Echo(p, n - 1, FencedBefore(p, n - 1)), current, Piece(p, n - 1));
    }
  }

  lemma FencedNext(p: Packet, n: nat)
    requires n > 0
    ensures FencedBefore(p, n)
       <==> FencedBefore(p, n - 1) || (Values(p, n - 1) != [] && n - 1 > LastNumber(0, Options(p, n - 1)) + 15)
  {
    hide Values, Options, LastNumber;
  }

  lemma NothingFolded(p: Packet)
    ensures FoldOptions(Blank(p.kind, p.code, p.mid), 0, Options(p, 0))
         == Continue(Echo(p, 0, FencedBefore(p, 0)))
    ensures Growing(Blank(p.kind, p.code, p.mid), 0, Options(p, 0))
  {
    assert Restrict(p, 0) == {};
  }
}
