/**
 What coap_serialize_message writes, as a function of the packet, and what a parse
 of those bytes yields.
*/
module CoapMessage {
  import opened Numbers
  import opened Bytes
  import opened Slices
  import opened CoapPacket
  import opened CoapWire
  import opened CoapSplit

  /** coap_log_2 */
  function Log2(value: nat): nat {
    if value < 2 then 0 else 1 + Log2(value / 2)
  }

  /** num << 4, the more flag in bit 3 and the size exponent below it. */
  function BlockWord(b: Block): nat {
    (b.num * 16) % U32 + (if b.more then 8 else 0) + Log2(b.size / 16) % 8
  }

  function Chunks(uri: seq<byte>): seq<seq<byte>>
    decreases |uri|
  {
    if uri == [] then [] else [uri[..Min(270, |uri|)]] + Chunks(uri[Min(270, |uri|)..])
  }

  function Numbered(number: nat, values: seq<seq<byte>>): seq<RawOption> {
    if values == [] then [] else [RawOption(number, values[0])] + Numbered(number, values[1..])
  }

  function IntValues(values: seq<nat>): seq<seq<byte>> {
    if values == [] then [] else [IntBytes(values[0])] + IntValues(values[1..])
  }

  /** The option values that the serializer writes for option number n. */
  function Values(p: Packet, n: nat): seq<seq<byte>> {
    if n !in p.options then []
    else if n == CONTENT_TYPE then [IntBytes(p.contentType)]
    else if n == MAX_AGE then [IntBytes(p.maxAge)]
    else if n == PROXY_URI then Chunks(p.proxyUri)
    else if n == ETAG then [p.etag]
    else if n == URI_HOST then [p.uriHost]
    else if n == LOCATION_PATH then Split(p.locationPath, SLASH)
    else if n == URI_PORT then [IntBytes(p.uriPort)]
    else if n == LOCATION_QUERY then Split(p.locationQuery, AMPERSAND)
    else if n == URI_PATH then Split(p.uriPath, SLASH)
    else if n == OBSERVE then [IntBytes(p.observe)]
    else if n == TOKEN then [p.token]
    else if n == ACCEPT then IntValues(p.accept)
    else if n == IF_MATCH then [p.ifMatch]
    else if n == URI_QUERY then Split(p.uriQuery, AMPERSAND)
    else if n == BLOCK2 then [IntBytes(BlockWord(p.block2))]
    else if n == BLOCK1 then [IntBytes(BlockWord(p.block1))]
    else if n == IF_NONE_MATCH then [[]]
    else []
  }

  function Piece(p: Packet, n: nat): seq<RawOption> {
    Numbered(n, Values(p, n))
  }

  /** All options with a number below n, in the order in which they are written. */
  function Options(p: Packet, n: nat): seq<RawOption> {
    if n == 0 then [] else Options(p, n - 1) + Piece(p, n - 1)
  }

  const ALL := 22

  /** The increments of option_count for option n, written when current_number is `current`. */
  function CountIncrement(p: Packet, n: nat, current: nat): nat {
    |Values(p, n)| + if n >= 15 && n in p.options && current <= n then (n - current) / 14 else 0
  }

  function OptionCount(p: Packet, n: nat): nat {
    if n == 0 then 0
    else OptionCount(p, n - 1) + CountIncrement(p, n - 1, LastNumber(0, Options(p, n - 1)))
  }

  // ---------------------------------------------------------------- order

  lemma {:induction false} NumberedProps(number: nat, values: seq<seq<byte>>)
    ensures |Numbered(number, values)| == |values|
    ensures forall i :: 0 <= i < |values| ==> Numbered(number, values)[i] == RawOption(number, values[i])
  {
    if values != [] {
      NumberedProps(number, values[1..]);
    }
  }

  lemma NumberedCons(number: nat, first: seq<byte>, more: seq<seq<byte>>)
    ensures Numbered(number, [first] + more) == [RawOption(number, first)] + Numbered(number, more)
  {
    assert ([first] + more)[1..] == more;
  }

  lemma {:induction false} AscendingAppend(current: nat, a: seq<RawOption>, b: seq<RawOption>)
    requires Ascending(current, a) && Ascending(LastNumber(current, a), b)
    ensures Ascending(current, a + b)
    ensures LastNumber(current, a + b) == LastNumber(LastNumber(current, a), b)
    decreases a
  {
    if a == [] {
      assert a + b == b;
    } else {
      assert (a + b)[1..] == a[1..] + b;
      assert LastNumber(a[0].number, a[1..]) == LastNumber(current, a);
      AscendingAppend(a[0].number, a[1..], b);
    }
  }

  lemma {:induction false} AscendingNumbered(current: nat, number: nat, values: seq<seq<byte>>)
    requires current <= number
    ensures Ascending(current, Numbered(number, values))
    ensures LastNumber(current, Numbered(number, values)) == if values == [] then current else number
    decreases values
  {
    if values != [] {
      AscendingNumbered(number, number, values[1..]);
      NumberedProps(number, values);
    }
  }

  lemma {:induction false} OptionsAscending(p: Packet, n: nat)
    ensures Ascending(0, Options(p, n))
    ensures n > 0 ==> LastNumber(0, Options(p, n)) < n
    ensures n == 0 ==> LastNumber(0, Options(p, n)) == 0
  {
    if n > 0 {
      OptionsAscending(p, n - 1);
      AscendingNumbered(LastNumber(0, Options(p, n - 1)), n - 1, Values(p, n - 1));
      AscendingAppend(0, Options(p, n - 1), Piece(p, n - 1));
    }
  }

  // ---------------------------------------------------------------- appending to the wire format

  lemma {:induction false} EncodeAppend(current: nat, a: seq<RawOption>, b: seq<RawOption>)
    requires Ascending(current, a) && Ascending(LastNumber(current, a), b)
    ensures Ascending(current, a + b)
    ensures EncodeOptions(current, a + b) == EncodeOptions(current, a) + EncodeOptions(LastNumber(current, a), b)
    decreases a
  {
    hide EncodeOption, EncodeOptions, Ascending, LastNumber;
    AscendingAppend(current, a, b);
    EncodeCons(current, a);
    EncodeCons(current, a + b);
    if a == [] {
      assert a + b == b;
    } else {
      var n := a[0].number;
      assert (a + b)[1..] == a[1..] + b && (a + b)[0] == a[0];
      EncodeAppend(n, a[1..], b);
      var first := EncodeOption(current, a[0]);
      Regroup(first, EncodeOptions(n, a[1..]), EncodeOptions(LastNumber(current, a), b));
    }
  }

  lemma {:induction false} HeaderCountAppend(current: nat, a: seq<RawOption>, b: seq<RawOption>)
    ensures HeaderCount(current, a + b) == HeaderCount(current, a) + HeaderCount(LastNumber(current, a), b)
    decreases a
  {
    if a == [] {
      assert a + b == b;
    } else {
      assert (a + b)[1..] == a[1..] + b && (a + b)[0] == a[0];
      assert LastNumber(a[0].number, a[1..]) == LastNumber(current, a);
      HeaderCountAppend(a[0].number, a[1..], b);
    }
  }

  /** The serialized header of a packet, or None when it does not fit. */
  datatype Wire = Datagram(data: seq<byte>) | TooLong

  function OptionBytes(p: Packet, n: nat): seq<byte> {
    OptionsAscending(p, n);
    EncodeOptions(0, Options(p, n))
  }

  function FixedHeader(p: Packet): seq<byte>
    requires p.kind < 4 && p.mid < U16
  {
    [64 + p.kind * 16 + OptionCount(p, ALL) % 16, p.code, p.mid / 256, p.mid % 256]
  }

  function Serialize(p: Packet): Wire
    requires p.kind < 4 && p.mid < U16
  {
    if COAP_HEADER_LEN + |OptionBytes(p, ALL)| <= COAP_MAX_HEADER_SIZE
    then Datagram(FixedHeader(p) + OptionBytes(p, ALL) + p.payload)
    else TooLong
  }
}
