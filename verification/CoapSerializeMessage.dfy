/** coap_serialize_message: the options in number order, then payload and header fields. */
module CoapSerializeMessage {
  import opened Numbers
  import opened Bytes
  import opened Slices
  import opened CoapPacket
  import opened CoapWire
  import opened CoapSplit
  import opened CoapMessage
  import opened CoapSerializer
  import CoapExact

  /** The write position, current_number and option_count. */
  datatype Cursor = Cursor(at: nat, current: nat, count: nat)

  /** All options below n are in the buffer and the cursor stands behind them. */
  ghost predicate Written(before: seq<byte>, now: seq<byte>, p: Packet, n: nat, c: Cursor) {
    && COAP_HEADER_LEN + |OptionBytes(p, n)| <= |before|
    && now == Overwrite(before, COAP_HEADER_LEN, OptionBytes(p, n))
    && c == Cursor(COAP_HEADER_LEN + |OptionBytes(p, n)|, LastNumber(0, Options(p, n)), OptionCount(p, n))
  }

  function PieceBytes(p: Packet, n: nat): seq<byte> {
    PieceAscending(p, n);
    EncodeOptions(LastNumber(0, Options(p, n)), Piece(p, n))
  }

  lemma PieceAscending(p: Packet, n: nat)
    ensures LastNumber(0, Options(p, n)) <= n
    ensures Ascending(LastNumber(0, Options(p, n)), Piece(p, n))
  {
    OptionsAscending(p, n);
    AscendingNumbered(LastNumber(0, Options(p, n)), n, Values(p, n));
  }

  lemma OptionBytesStep(p: Packet, n: nat)
    ensures OptionBytes(p, n + 1) == OptionBytes(p, n) + PieceBytes(p, n)
    ensures LastNumber(0, Options(p, n + 1)) == if Values(p, n) == [] then LastNumber(0, Options(p, n)) else n
  {
    hide Values, EncodeOptions, Ascending, LastNumber, Numbered;
    PieceAscending(p, n);
    OptionsAscending(p, n);
    EncodeAppend(0, Options(p, n), Piece(p, n));
    AscendingAppend(0, Options(p, n), Piece(p, n));
    AscendingNumbered(LastNumber(0, Options(p, n)), n, Values(p, n));
  }

  lemma {:induction false} OptionBytesGrow(p: Packet, n: nat, m: nat)
    requires n <= m
    ensures |OptionBytes(p, n)| <= |OptionBytes(p, m)|
    decreases m - n
  {
    hide OptionBytes, Options, PieceBytes, Values, LastNumber;
    if n < m {
      OptionBytesStep(p, m - 1);
      OptionBytesGrow(p, n, m - 1);
    }
  }

  /** Appending the bytes of option n moves the state on by one number. */
  lemma Advance(before: seq<byte>, now: seq<byte>, p: Packet, n: nat, c: Cursor)
    requires Written(before, now, p, n, c)
    requires COAP_HEADER_LEN + |OptionBytes(p, n + 1)| <= |before|
    ensures c.at + |PieceBytes(p, n)| <= |now|
    ensures Written(before, Overwrite(now, c.at, PieceBytes(p, n)), p, n + 1,
                    Cursor(c.at + |PieceBytes(p, n)|, if Values(p, n) == [] then c.current else n,
                           c.count + CountIncrement(p, n, c.current)))
  {
    hide OptionBytes, PieceBytes, Values, CountIncrement, Options, LastNumber;
    OptionBytesStep(p, n);
    OverwriteAppend(before, COAP_HEADER_LEN, OptionBytes(p, n), PieceBytes(p, n));
  }

  lemma Skip(before: seq<byte>, now: seq<byte>, p: Packet, n: nat, c: Cursor)
    requires Written(before, now, p, n, c) && Values(p, n) == []
    requires n in p.options ==> n < 15
    ensures Written(before, now, p, n + 1, c)
  {
    OptionBytesStep(p, n);
    assert OptionBytes(p, n + 1) == OptionBytes(p, n);
  }

  lemma OneOption(current: nat, n: nat, value: seq<byte>)
    requires current <= n
    ensures Ascending(current, Numbered(n, [value]))
    ensures EncodeOptions(current, Numbered(n, [value])) == EncodeOption(current, RawOption(n, value))
  {
    hide EncodeOption;
    assert [value][1..] == [];
    assert Numbered(n, []) == [];
    assert Numbered(n, [value]) == [RawOption(n, value)];
    assert [RawOption(n, value)][1..] == [];
    assert EncodeOptions(n, []) == [];
  }

  ghost predicate Room(buffer: array<byte>, p: Packet) {
    COAP_HEADER_LEN + |OptionBytes(p, ALL)| <= buffer.Length
  }

  /** An integer option and its counting: plain below 15, with the fence-post increment from there on. */
  method PutInt(ghost before: seq<byte>, ghost p: Packet, n: nat, value: nat, buffer: array<byte>, c: Cursor)
    returns (d: Cursor)
    requires n in p.options && Values(p, n) == [IntBytes(value)] && value < U32 && n < ALL
    requires |before| == buffer.Length && Room(buffer, p)
    requires Written(before, buffer[..], p, n, c)
    modifies buffer
    ensures Written(before, buffer[..], p, n + 1, d)
  {
    hide Values, IntBytes, Options, OptionBytes, EncodeOption, OptionCount;
    PieceAscending(p, n);
    OneOption(c.current, n, IntBytes(value));
    OptionBytesGrow(p, n + 1, ALL);
    Advance(before, buffer[..], p, n, c);
    var s := SerializeIntOption(n, c.current, buffer, c.at, value);
    d := Cursor(c.at + s, n, c.count + 1 + if n >= 15 then (n - c.current) / 14 else 0);
  }

  method PutArray(ghost before: seq<byte>, ghost p: Packet, n: nat, value: seq<byte>, buffer: array<byte>, c: Cursor)
    returns (d: Cursor)
    requires n in p.options && Values(p, n) == [value] && n < 15
    requires |before| == buffer.Length && Room(buffer, p)
    requires Written(before, buffer[..], p, n, c)
    modifies buffer
    ensures Written(before, buffer[..], p, n + 1, d)
  {
    hide Values, Options, OptionBytes, EncodeOption, OptionCount;
    PieceAscending(p, n);
    OneOption(c.current, n, value);
    OptionBytesGrow(p, n + 1, ALL);
    Advance(before, buffer[..], p, n, c);
    var s := SerializeArrayOption(n, c.current, buffer, c.at, value);
    d := Cursor(c.at + s, n, c.count + 1);
  }

  method PutText(ghost before: seq<byte>, ghost p: Packet, n: nat, value: seq<byte>, sep: byte,
      buffer: array<byte>, c: Cursor)
    returns (d: Cursor)
    requires n in p.options && Values(p, n) == Split(value, sep) && n < ALL
    requires |before| == buffer.Length && Room(buffer, p)
    requires Written(before, buffer[..], p, n, c)
    modifies buffer
    ensures Written(before, buffer[..], p, n + 1, d)
  {
    hide Values, Options, OptionBytes, EncodeOptions, OptionCount, Split;
    PieceAscending(p, n);
    SplitHead(value, sep, 0);
    assert Split(value, sep) == SplitFrom(value, sep, 0, 0) by { SplitIsFrom(value, sep); }
    OptionBytesGrow(p, n + 1, ALL);
    Advance(before, buffer[..], p, n, c);
    var s, k := SerializeSplitOption(n, c.current, buffer, c.at, value, sep);
    d := Cursor(c.at + s, n, c.count + k + if n >= 15 then (n - c.current) / 14 else 0);
  }

  lemma SplitIsFrom(value: seq<byte>, sep: byte)
    ensures Split(value, sep) == SplitFrom(value, sep, 0, 0)
  {
  }

  lemma ConsOption(current: nat, n: nat, first: seq<byte>, more: seq<seq<byte>>)
    requires current <= n
    ensures Ascending(current, Numbered(n, [first] + more)) && Ascending(n, Numbered(n, more))
    ensures EncodeOptions(current, Numbered(n, [first] + more))
         == EncodeOption(current, RawOption(n, first)) + EncodeOptions(n, Numbered(n, more))
  {
    hide EncodeOption;
    AscendingNumbered(current, n, [first] + more);
    AscendingNumbered(n, n, more);
    NumberedCons(n, first, more);
    assert Numbered(n, [first] + more)[1..] == Numbered(n, more);
  }

  lemma NoOptions(current: nat, n: nat)
    ensures Numbered(n, []) == [] && EncodeOptions(current, []) == []
  {
  }

  /** The Accept loop: one integer option per entry. */
  method PutAccept(ghost before: seq<byte>, p: Packet, buffer: array<byte>, c: Cursor) returns (d: Cursor)
    requires ValidPacket(p) && ACCEPT in p.options
    requires |before| == buffer.Length && Room(buffer, p)
    requires Written(before, buffer[..], p, ACCEPT, c)
    modifies buffer
    ensures Written(before, buffer[..], p, ACCEPT + 1, d)
  {
    hide Options, OptionBytes, EncodeOptions, EncodeOption, OptionCount, Numbered, IntBytes, Overwrite, Ascending;
    PieceAscending(p, ACCEPT);
    OptionBytesGrow(p, ACCEPT + 1, ALL);
    Advance(before, buffer[..], p, ACCEPT, c);
    ghost var written: seq<byte> := [];
    ghost var all := PieceBytes(p, ACCEPT);
    IntValuesLength(p.accept);
    d := c;
    assert p.accept[0..] == p.accept;
    assert Overwrite(buffer[..], c.at, []) == buffer[..] by { OverwriteNothing(buffer[..], c.at); }
    for i := 0 to |p.accept|
      invariant d.current <= ACCEPT && (i > 0 ==> d.current == ACCEPT) && (i == 0 ==> d.current == c.current)
      invariant Ascending(d.current, Numbered(ACCEPT, IntValues(p.accept[i..])))
      invariant written + EncodeOptions(d.current, Numbered(ACCEPT, IntValues(p.accept[i..]))) == all
      invariant d.at == c.at + |written| && c.at + |all| <= buffer.Length && d.count == c.count + i
      invariant buffer[..] == Overwrite(old(buffer[..]), c.at, written)
    {
      ghost var more := IntValues(p.accept[i + 1..]);
      assert p.accept[i..][1..] == p.accept[i + 1..];
      assert IntValues(p.accept[i..]) == [IntBytes(p.accept[i])] + more;
      ConsOption(d.current, ACCEPT, IntBytes(p.accept[i]), more);
      ghost var bytes := EncodeOption(d.current, RawOption(ACCEPT, IntBytes(p.accept[i])));
      Regroup(written, bytes, EncodeOptions(ACCEPT, Numbered(ACCEPT, more)));
      var s := SerializeIntOption(ACCEPT, d.current, buffer, d.at, p.accept[i]);
      OverwriteAppend(old(buffer[..]), c.at, written, bytes);
      written := written + bytes;
      d := Cursor(d.at + s, ACCEPT, d.count + 1);
    }
    NoOptions(d.current, ACCEPT);
    assert written == all;
  }

  lemma OverwriteNothing(s: seq<byte>, at: nat)
    requires at <= |s|
    ensures Overwrite(s, at, []) == s
  {
  }

  lemma {:induction false} IntValuesLength(values: seq<nat>)
    ensures |IntValues(values)| == |values|
  {
    if values != [] {
      IntValuesLength(values[1..]);
    }
  }

  /** The Proxy-Uri loop: chunks of at most 270 bytes, none for an empty string. */
  method PutProxyUri(ghost before: seq<byte>, p: Packet, buffer: array<byte>, c: Cursor) returns (d: Cursor)
    requires PROXY_URI in p.options
    requires |before| == buffer.Length && Room(buffer, p)
    requires Written(before, buffer[..], p, PROXY_URI, c)
    modifies buffer
    ensures Written(before, buffer[..], p, PROXY_URI + 1, d)
  {
    hide Options, OptionBytes, EncodeOptions, EncodeOption, OptionCount, Numbered, Overwrite, Ascending;
    PieceAscending(p, PROXY_URI);
    OptionBytesGrow(p, PROXY_URI + 1, ALL);
    Advance(before, buffer[..], p, PROXY_URI, c);
    ghost var written: seq<byte> := [];
    ghost var all := PieceBytes(p, PROXY_URI);
    d := c;
    var rest := p.proxyUri;
    assert Overwrite(buffer[..], c.at, []) == buffer[..] by { OverwriteNothing(buffer[..], c.at); }
    while rest != []
      invariant d.current <= PROXY_URI
      invariant d.current == if rest == p.proxyUri then c.current else PROXY_URI
      invariant rest != p.proxyUri ==> |rest| < |p.proxyUri|
      invariant Ascending(d.current, Numbered(PROXY_URI, Chunks(rest)))
      invariant written + EncodeOptions(d.current, Numbered(PROXY_URI, Chunks(rest))) == all
      invariant d.at == c.at + |written| && c.at + |all| <= buffer.Length
      invariant d.count + |Chunks(rest)| == c.count + |Chunks(p.proxyUri)|
      invariant buffer[..] == Overwrite(old(buffer[..]), c.at, written)
      decreases |rest|
    {
      var chunk, more := rest[..Min(270, |rest|)], rest[Min(270, |rest|)..];
      ConsOption(d.current, PROXY_URI, chunk, Chunks(more));
      ghost var bytes := EncodeOption(d.current, RawOption(PROXY_URI, chunk));
      Regroup(written, bytes, EncodeOptions(PROXY_URI, Numbered(PROXY_URI, Chunks(more))));
      var s := SerializeArrayOption(PROXY_URI, d.current, buffer, d.at, chunk);
      OverwriteAppend(old(buffer[..]), c.at, written, bytes);
      written := written + bytes;
      d := Cursor(d.at + s, PROXY_URI, d.count + 1);
      rest := more;
    }
    NoOptions(d.current, PROXY_URI);
    assert written == all;
  }

  method PutBlock(ghost before: seq<byte>, ghost p: Packet, n: nat, b: Block, buffer: array<byte>, c: Cursor)
    returns (d: Cursor)
    requires n in p.options && Values(p, n) == [IntBytes(BlockWord(b))] && n < ALL && ValidBlock(b)
    requires |before| == buffer.Length && Room(buffer, p)
    requires Written(before, buffer[..], p, n, c)
    modifies buffer
    ensures Written(before, buffer[..], p, n + 1, d)
  {
    hide Values, IntBytes, Written, Room;
    var exponent := CoapLog2(b.size / 16);
    var block := (b.num * 16) % U32;
    if b.more {
      block := block + 8;
    }
    CoapExact.SizeExponent(b.size);
    block := block + exponent % 8;
    d := PutInt(before, p, n, block, buffer, c);
  }

  lemma LowValues(p: Packet)
    requires ValidPacket(p)
    ensures forall n :: n !in p.options ==> Values(p, n) == []
    ensures CONTENT_TYPE in p.options ==> Values(p, CONTENT_TYPE) == [IntBytes(p.contentType)] && p.contentType < U32
    ensures MAX_AGE in p.options ==> Values(p, MAX_AGE) == [IntBytes(p.maxAge)] && p.maxAge < U32
    ensures ETAG in p.options ==> Values(p, ETAG) == [p.etag]
    ensures URI_HOST in p.options ==> Values(p, URI_HOST) == [p.uriHost]
    ensures LOCATION_PATH in p.options ==> Values(p, LOCATION_PATH) == Split(p.locationPath, SLASH)
    ensures URI_PORT in p.options ==> Values(p, URI_PORT) == [IntBytes(p.uriPort)] && p.uriPort < U32
  {
    hide Split, IntBytes, Chunks;
  }

  /** The sequence of if-statements, options 1 to 7. */
  method PutLowOptions(ghost before: seq<byte>, p: Packet, buffer: array<byte>, c0: Cursor) returns (c: Cursor)
    requires ValidPacket(p) && |before| == buffer.Length && Room(buffer, p)
    requires Written(before, buffer[..], p, 1, c0)
    modifies buffer
    ensures Written(before, buffer[..], p, 8, c)
  {
    hide Written, Room, Split, IntBytes, Chunks, Values, ValidPacket;
    LowValues(p);
    c := c0;
    if CONTENT_TYPE in p.options {
      c := PutInt(before, p, CONTENT_TYPE, p.contentType, buffer, c);
    } else {
      Skip(before, buffer[..], p, 1, c);
    }
    if MAX_AGE in p.options {
      c := PutInt(before, p, MAX_AGE, p.maxAge, buffer, c);
    } else {
      Skip(before, buffer[..], p, 2, c);
    }
    if PROXY_URI in p.options {
      c := PutProxyUri(before, p, buffer, c);
    } else {
      Skip(before, buffer[..], p, 3, c);
    }
    if ETAG in p.options {
      c := PutArray(before, p, ETAG, p.etag, buffer, c);
    } else {
      Skip(before, buffer[..], p, 4, c);
    }
    if URI_HOST in p.options {
      c := PutArray(before, p, URI_HOST, p.uriHost, buffer, c);
    } else {
      Skip(before, buffer[..], p, 5, c);
    }
    if LOCATION_PATH in p.options {
      c := PutText(before, p, LOCATION_PATH, p.locationPath, SLASH, buffer, c);
    } else {
      Skip(before, buffer[..], p, 6, c);
    }
    if URI_PORT in p.options {
      c := PutInt(before, p, URI_PORT, p.uriPort, buffer, c);
    } else {
      Skip(before, buffer[..], p, 7, c);
    }
  }

  /** The sequence of if-statements, options 8 to 13. */
  method PutMiddleOptions(ghost before: seq<byte>, p: Packet, buffer: array<byte>, c0: Cursor) returns (c: Cursor)
    requires ValidPacket(p) && |before| == buffer.Length && Room(buffer, p)
    requires Written(before, buffer[..], p, 8, c0)
    modifies buffer
    ensures Written(before, buffer[..], p, 14, c)
  {
    hide Written, Room, Split, IntBytes, IntValues;
    c := c0;
    if LOCATION_QUERY in p.options {
      c := PutText(before, p, LOCATION_QUERY, p.locationQuery, AMPERSAND, buffer, c);
    } else {
      Skip(before, buffer[..], p, 8, c);
    }
    if URI_PATH in p.options {
      c := PutText(before, p, URI_PATH, p.uriPath, SLASH, buffer, c);
    } else {
      Skip(before, buffer[..], p, 9, c);
    }
    if OBSERVE in p.options {
      c := PutInt(before, p, OBSERVE, p.observe, buffer, c);
    } else {
      Skip(before, buffer[..], p, 10, c);
    }
    if TOKEN in p.options {
      c := PutArray(before, p, TOKEN, p.token, buffer, c);
    } else {
      Skip(before, buffer[..], p, 11, c);
    }
    if ACCEPT in p.options {
      c := PutAccept(before, p, buffer, c);
    } else {
      Skip(before, buffer[..], p, 12, c);
    }
    if IF_MATCH in p.options {
      c := PutArray(before, p, IF_MATCH, p.ifMatch, buffer, c);
    } else {
      Skip(before, buffer[..], p, 13, c);
    }
  }

  /** The sequence of if-statements, options 15 to 21. */
  method PutHighOptions(ghost before: seq<byte>, p: Packet, buffer: array<byte>, c0: Cursor) returns (c: Cursor)
    requires ValidPacket(p) && |before| == buffer.Length && Room(buffer, p)
    requires Written(before, buffer[..], p, 14, c0)
    modifies buffer
    ensures Written(before, buffer[..], p, ALL, c)
  {
    hide Written, Room, Split;
    c := c0;
    Skip(before, buffer[..], p, 14, c);
    if URI_QUERY in p.options {
      c := PutText(before, p, URI_QUERY, p.uriQuery, AMPERSAND, buffer, c);
    } else {
      Skip(before, buffer[..], p, 15, c);
    }
    Skip(before, buffer[..], p, 16, c);
    if BLOCK2 in p.options {
      c := PutBlock(before, p, BLOCK2, p.block2, buffer, c);
    } else {
      Skip(before, buffer[..], p, 17, c);
    }
    Skip(before, buffer[..], p, 18, c);
    if BLOCK1 in p.options {
      c := PutBlock(before, p, BLOCK1, p.block1, buffer, c);
    } else {
      Skip(before, buffer[..], p, 19, c);
    }
    Skip(before, buffer[..], p, 20, c);
    if IF_NONE_MATCH in p.options {
      assert IntBytes(0) == [];
      c := PutInt(before, p, IF_NONE_MATCH, 0, buffer, c);
    } else {
      Skip(before, buffer[..], p, 21, c);
    }
  }

  /** version, type and option count, code and message id. */
  method PutHeader(p: Packet, count: nat, buffer: array<byte>)
    requires ValidPacket(p) && count == OptionCount(p, ALL) && buffer.Length >= COAP_HEADER_LEN
    modifies buffer
    ensures buffer[..] == FixedHeader(p) + old(buffer[COAP_HEADER_LEN..])
  {
    hide OptionCount;
    buffer[0] := 64 + p.kind * 16 + count % 16;
    buffer[1] := p.code;
    buffer[2] := p.mid / 256;
    buffer[3] := p.mid % 256;
  }

  lemma Assembled(before: seq<byte>, options: seq<byte>, payload: seq<byte>, header: seq<byte>)
    requires |header| == COAP_HEADER_LEN && COAP_HEADER_LEN + |options| + |payload| <= |before|
    ensures var done := Overwrite(Overwrite(before, COAP_HEADER_LEN, options), COAP_HEADER_LEN + |options|, payload);
            (header + done[COAP_HEADER_LEN..])[..COAP_HEADER_LEN + |options| + |payload|] == header + options + payload
  {
    OverwriteAppend(before, COAP_HEADER_LEN, options, payload);
    var body := options + payload;
    var done := Overwrite(before, COAP_HEADER_LEN, body);
    assert done[COAP_HEADER_LEN..][..|body|] == body;
    assert (header + done[COAP_HEADER_LEN..])[..COAP_HEADER_LEN + |body|] == header + body;
    assert header + options + payload == header + body;
  }

  /** Returns the packet length, or 0 when the header exceeds COAP_MAX_HEADER_SIZE. */
  method SerializeMessage(p: Packet, buffer: array<byte>) returns (length: nat)
    requires ValidPacket(p)
    requires COAP_HEADER_LEN + |OptionBytes(p, ALL)| + |p.payload| <= buffer.Length
    modifies buffer
    ensures Serialize(p).Datagram? ==> length == |Serialize(p).data| && buffer[..length] == Serialize(p).data
    ensures Serialize(p).TooLong? ==> length == 0
  {
    hide Options, OptionBytes, EncodeOptions, OptionCount, Values, Overwrite, FixedHeader;
    ghost var before := buffer[..];
    var c := Cursor(COAP_HEADER_LEN, 0, 0);
    NothingWritten(before, p);
    c := PutLowOptions(before, p, buffer, c);
    c := PutMiddleOptions(before, p, buffer, c);
    c := PutHighOptions(before, p, buffer, c);
    if c.at <= COAP_MAX_HEADER_SIZE {
      CopyBytes(buffer, c.at, p.payload);
      PutHeader(p, c.count, buffer);
      length := c.at + |p.payload|;
      Assembled(before, OptionBytes(p, ALL), p.payload, FixedHeader(p));
    } else {
      length := 0;
    }
  }

  lemma NothingWritten(before: seq<byte>, p: Packet)
    requires |before| >= COAP_HEADER_LEN && ValidPacket(p)
    ensures Written(before, before, p, 1, Cursor(COAP_HEADER_LEN, 0, 0))
  {
    hide Written;
    EmptyWritten(before, p);
    Skip(before, before, p, 0, Cursor(COAP_HEADER_LEN, 0, 0));
  }

  lemma EmptyWritten(before: seq<byte>, p: Packet)
    requires |before| >= COAP_HEADER_LEN
    ensures Written(before, before, p, 0, Cursor(COAP_HEADER_LEN, 0, 0))
  {
    hide Values;
    assert OptionBytes(p, 0) == [] && OptionCount(p, 0) == 0;
    assert Overwrite(before, COAP_HEADER_LEN, []) == before;
  }
}
