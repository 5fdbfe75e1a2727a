/**
 coap_parse_message: the parser that leaves strings in the receive buffer and merges repeated
 options by moving their values down over consumed header bytes. It is proved to compute the pure
 parse of the bytes as they were received.
*/
module CoapParser {
  import opened Numbers
  import opened Bytes
  import opened Slices
  import opened CoapPacket
  import opened CoapWire

  /** A string field: pointer (as an offset into the buffer) and length. */
  datatype Region = Region(start: nat, length: nat) {
    function End(): nat { start + length }
  }

  datatype Regions = Regions(uriHost: Region, locationPath: Region, locationQuery: Region, uriPath: Region,
      uriQuery: Region)

  const NO_REGION := Region(0, 0)
  const NO_REGIONS := Regions(NO_REGION, NO_REGION, NO_REGION, NO_REGION, NO_REGION)

  predicate Textual(n: int) {
    n == URI_HOST || n == LOCATION_PATH || n == LOCATION_QUERY || n == URI_PATH || n == URI_QUERY
  }

  function At(r: Regions, n: nat): Region
    requires Textual(n)
  {
    if n == URI_HOST then r.uriHost
    else if n == LOCATION_PATH then r.locationPath
    else if n == LOCATION_QUERY then r.locationQuery
    else if n == URI_PATH then r.uriPath
    else r.uriQuery
  }

  function Put(r: Regions, n: nat, x: Region): Regions
    requires Textual(n)
  {
    if n == URI_HOST then r.(uriHost := x)
    else if n == LOCATION_PATH then r.(locationPath := x)
    else if n == LOCATION_QUERY then r.(locationQuery := x)
    else if n == URI_PATH then r.(uriPath := x)
    else r.(uriQuery := x)
  }

  function Slice(bytes: seq<byte>, r: Region): seq<byte>
    requires r.End() <= |bytes|
  {
    bytes[r.start..r.End()]
  }

  /** All regions end before `limit`; nonempty ones lie in the order of their option numbers, none above `number`. */
  ghost predicate Placed(r: Regions, number: nat, limit: nat) {
    && (forall n: nat | Textual(n) :: At(r, n).End() <= limit && (At(r, n).length > 0 ==> n <= number))
    && (forall m: nat, n: nat | Textual(m) && Textual(n) && m < n && At(r, m).length > 0 && At(r, n).length > 0 ::
          At(r, m).End() <= At(r, n).start)
  }

  /** The packet that the fields and the buffer stand for. */
  function View(fields: Packet, r: Regions, bytes: seq<byte>): Packet
    requires r.uriHost.End() <= |bytes| && r.locationPath.End() <= |bytes| && r.locationQuery.End() <= |bytes|
    requires r.uriPath.End() <= |bytes| && r.uriQuery.End() <= |bytes|
  {
    fields.(uriHost := Slice(bytes, r.uriHost), locationPath := Slice(bytes, r.locationPath),
            locationQuery := Slice(bytes, r.locationQuery), uriPath := Slice(bytes, r.uriPath),
            uriQuery := Slice(bytes, r.uriQuery))
  }

  // ---------------------------------------------------------------- in-place merging on values

  /** coap_merge_multi_option on the buffer contents. */
  function MergedBytes(bytes: seq<byte>, dst: Region, body: nat, length: nat, sep: byte): (r: seq<byte>)
    requires dst.End() < body && body + length <= |bytes|
    ensures |r| == |bytes|
  {
    if dst.length > 0 then Overwrite(bytes, dst.End(), [sep] + bytes[body..body + length]) else bytes
  }

  function MergedRegion(dst: Region, body: nat, length: nat): Region {
    if dst.length > 0 then Region(dst.start, dst.length + 1 + length) else Region(body, length)
  }

  lemma MovedSlices(bytes: seq<byte>, dst: Region, body: nat, length: nat, sep: byte, x: Region)
    requires dst.End() < body && body + length <= |bytes|
    requires x.length == 0 || x.End() <= dst.End()
    requires x.End() <= |bytes|
    ensures var moved := MergedBytes(bytes, dst, body, length, sep);
            moved[body + length..] == bytes[body + length..] && Slice(moved, x) == Slice(bytes, x)
  {
  }

  lemma MergedSlice(bytes: seq<byte>, dst: Region, body: nat, length: nat, sep: byte)
    requires dst.End() < body && body + length <= |bytes|
    ensures MergedRegion(dst, body, length).End() <= body + length
    ensures Slice(MergedBytes(bytes, dst, body, length, sep), MergedRegion(dst, body, length))
         == Merge(Slice(bytes, dst), bytes[body..body + length], sep)
  {
  }

  lemma Untouched(bytes: seq<byte>, at: nat, b: byte, body: nat, length: nat)
    requires at < body && body + length <= |bytes|
    ensures Overwrite(bytes, at, [b])[body..body + length] == bytes[body..body + length]
  {
  }

  lemma PutAt(r: Regions, n: nat, x: Region)
    requires Textual(n)
    ensures At(Put(r, n, x), n) == x
    ensures forall m: nat | Textual(m) && m != n :: At(Put(r, n, x), m) == At(r, m)
  {
  }

  lemma PutPlaced(r: Regions, n: nat, number: nat, position: nat, x: Region, limit: nat)
    requires Textual(n) && number <= n && Placed(r, number, position)
    requires position <= limit && x.End() <= limit
    requires forall m: nat | Textual(m) && m < n && At(r, m).length > 0 :: At(r, m).End() <= x.start
    ensures Placed(Put(r, n, x), n, limit)
  {
    hide At, Put, Region.End;
    PutAt(r, n, x);
  }

  lemma MergedPlaced(r: Regions, n: nat, number: nat, position: nat, body: nat, length: nat)
    requires Textual(n) && number <= n && Placed(r, number, position) && position < body
    ensures Placed(Put(r, n, MergedRegion(At(r, n), body, length)), n, body + length)
    ensures forall m: nat | Textual(m) && m != n :: At(Put(r, n, MergedRegion(At(r, n), body, length)), m) == At(r, m)
    ensures At(Put(r, n, MergedRegion(At(r, n), body, length)), n) == MergedRegion(At(r, n), body, length)
  {
    hide At, Put;
    var x := MergedRegion(At(r, n), body, length);
    PutAt(r, n, x);
    PutPlaced(r, n, number, position, x, body + length);
  }

  /** Moving a value down touches neither unread bytes nor another field. */
  lemma MergeInPlace(bytes: seq<byte>, r: Regions, n: nat, number: nat, position: nat, body: nat, length: nat)
    requires Textual(n) && number <= n && Placed(r, number, position)
    requires position < body && body + length <= |bytes|
    ensures var moved := MergedBytes(bytes, At(r, n), body, length, Separator(n));
            var r' := Put(r, n, MergedRegion(At(r, n), body, length));
            && moved[body + length..] == bytes[body + length..]
            && Placed(r', n, body + length)
            && Slice(moved, At(r', n)) == Merge(Slice(bytes, At(r, n)), bytes[body..body + length], Separator(n))
            && (forall m: nat | Textual(m) && m != n ::
                  At(r', m) == At(r, m) && Slice(moved, At(r, m)) == Slice(bytes, At(r, m)))
  {
    hide MergedBytes, MergedRegion, Slice, Put;
    var dst, sep := At(r, n), Separator(n);
    MergedPlaced(r, n, number, position, body, length);
    MergedSlice(bytes, dst, body, length, sep);
    MovedSlices(bytes, dst, body, length, sep, NO_REGION);
    forall m: nat | Textual(m) && m != n
      ensures Slice(MergedBytes(bytes, dst, body, length, sep), At(r, m)) == Slice(bytes, At(r, m))
    {
      if dst.length > 0 {
        MovedSlices(bytes, dst, body, length, sep, At(r, m));
      } else {
        UnmovedBytes(bytes, dst, body, length, sep);
      }
    }
  }

  lemma UnmovedBytes(bytes: seq<byte>, dst: Region, body: nat, length: nat, sep: byte)
    requires dst.End() < body && body + length <= |bytes| && dst.length == 0
    ensures MergedBytes(bytes, dst, body, length, sep) == bytes
  {
  }

  /** The same for Uri-Host, which is replaced and not merged. */
  lemma ReplaceHost(r: Regions, number: nat, position: nat, body: nat, length: nat)
    requires number <= URI_HOST && Placed(r, number, position) && position < body
    ensures Placed(r.(uriHost := Region(body, length)), URI_HOST, body + length)
  {
  }

  lemma PlacedLater(r: Regions, number: nat, position: nat, number': nat, position': nat)
    requires Placed(r, number, position) && number <= number' && position <= position'
    ensures Placed(r, number', position')
  {
  }

  /** The view depends on the buffer only through the regions, and those lie below `limit`. */
  lemma ViewKept(fields: Packet, r: Regions, number: nat, limit: nat, bytes: seq<byte>, bytes': seq<byte>)
    requires Placed(r, number, limit) && limit <= |bytes| && limit <= |bytes'| && bytes[..limit] == bytes'[..limit]
    ensures Bounded(r, bytes) && Bounded(r, bytes') && View(fields, r, bytes) == View(fields, r, bytes')
  {
    PlacedBounded(r, number, limit, bytes);
    PlacedBounded(r, number, limit, bytes');
    forall n: nat | Textual(n)
      ensures Slice(bytes, At(r, n)) == Slice(bytes', At(r, n))
    {
      var x := At(r, n);
      assert bytes[0..limit] == bytes[..limit] && bytes'[0..limit] == bytes'[..limit];
      SliceOfSlice(bytes, 0, limit, x.start, x.End());
      SliceOfSlice(bytes', 0, limit, x.start, x.End());
    }
    EachRegion(r);
  }

  ghost predicate Bounded(r: Regions, bytes: seq<byte>) {
    && r.uriHost.End() <= |bytes| && r.locationPath.End() <= |bytes| && r.locationQuery.End() <= |bytes|
    && r.uriPath.End() <= |bytes| && r.uriQuery.End() <= |bytes|
  }

  lemma EachRegion(r: Regions)
    ensures At(r, URI_HOST) == r.uriHost && At(r, LOCATION_PATH) == r.locationPath
    ensures At(r, LOCATION_QUERY) == r.locationQuery && At(r, URI_PATH) == r.uriPath && At(r, URI_QUERY) == r.uriQuery
  {
  }

  lemma PlacedBounded(r: Regions, number: nat, limit: nat, bytes: seq<byte>)
    requires Placed(r, number, limit) && limit <= |bytes|
    ensures Bounded(r, bytes)
  {
    EachRegion(r);
  }

  /** The effect of a text option on the view is the effect of Apply. */
  lemma TextView(fields: Packet, bytes: seq<byte>, r: Regions, n: nat, number: nat, position: nat, body: nat,
      length: nat)
    requires Textual(n) && n != URI_HOST && number <= n && Placed(r, number, position)
    requires position < body && body + length <= |bytes| && Bounded(r, bytes)
    ensures var moved := MergedBytes(bytes, At(r, n), body, length, Separator(n));
            var r' := Put(r, n, MergedRegion(At(r, n), body, length));
            Bounded(r', moved)
            && Continue(View(fields.(options := fields.options + {n}), r', moved))
               == Apply(View(fields, r, bytes), n, bytes[body..body + length])
  {
    hide MergedBytes, MergedRegion;
    MergeInPlace(bytes, r, n, number, position, body, length);
    var r' := Put(r, n, MergedRegion(At(r, n), body, length));
    EachRegion(r);
    EachRegion(r');
  }

  /** Any other option acts on the plain fields alone. */
  lemma FieldView(fields: Packet, bytes: seq<byte>, r: Regions, n: nat, value: seq<byte>)
    requires !Textual(n) && Bounded(r, bytes)
    ensures match Apply(fields, n, value)
            case Stop(status) => Apply(View(fields, r, bytes), n, value) == Stop(status)
            case Continue(f) => Apply(View(fields, r, bytes), n, value) == Continue(View(f, r, bytes))
  {
  }

  // ---------------------------------------------------------------- the parser

  class MessageParser {
    const data: array<byte>
    var fields: Packet
    var regions: Regions
    var payload: Region

    constructor (data: array<byte>)
      ensures this.data == data
    {
      this.data := data;
      fields, regions, payload := Blank(0, 0, 0), NO_REGIONS, NO_REGION;
    }

    ghost predicate Readable()
      reads this, data
    {
      Bounded(regions, data[..])
    }

    /** The message without its payload. */
    ghost function Message(): Packet
      requires Readable()
      reads this, data
    {
      View(fields, regions, data[..])
    }

    method ParseIntOption(at: nat, length: nat) returns (v: nat)
      requires at + length <= data.Length
      ensures v == ParseInt(data[at..at + length])
    {
      v := 0;
      for i := 0 to length
        invariant v == ParseInt(data[at..at + i])
      {
        assert data[at..at + i + 1][..i] == data[at..at + i];
        v := (v * 256) % U32 + data[at + i];
      }
    }

    /** memmove: the source bytes are read before any is written. */
    method MemMove(dst: nat, src: nat, length: nat)
      requires dst <= src && src + length <= data.Length
      modifies data
      ensures data[..] == Overwrite(old(data[..]), dst, old(data[src..src + length]))
    {
      forall k | 0 <= k < length {
        data[dst + k] := data[src + k];
      }
    }

    /** One byte. */
    method PutByte(at: nat, b: byte)
      requires at < data.Length
      modifies data
      ensures data[..] == Overwrite(old(data[..]), at, [b])
    {
      data[at] := b;
    }

    method MergeMultiOption(dst: Region, body: nat, length: nat, sep: byte) returns (r: Region)
      requires dst.End() < body && body + length <= data.Length
      modifies data
      ensures r == MergedRegion(dst, body, length)
      ensures data[..] == MergedBytes(old(data[..]), dst, body, length, sep)
    {
      hide Overwrite;
      if dst.length > 0 {
        ghost var bytes, value := data[..], data[body..body + length];
        PutByte(dst.End(), sep);
        Untouched(bytes, dst.End(), sep, body, length);
        OverwriteAppend(bytes, dst.End(), [sep], value);
        assert data[body..body + length] == data[..][body..body + length] == value;
        MemMove(dst.End() + 1, body, length);
        r := Region(dst.start, dst.length + 1 + length);
      } else {
        r := Region(body, length);
      }
    }

    /** The state in front of the next option: everything parsed so far lies below `position`. */
    ghost predicate Ready(number: nat, position: nat)
      reads this, data
    {
      position <= data.Length && Placed(regions, number, position)
    }

    method TextOption(number: nat, ghost before: nat, ghost position: nat, body: nat, length: nat)
      requires Textual(number) && before <= number && Ready(before, position)
      requires position < body && body + length <= data.Length
      modifies this, data
      ensures Ready(number, body + length) && Bounded(regions, data[..]) && Bounded(old(regions), old(data[..]))
      ensures data[body + length..] == old(data[body + length..])
      ensures Continue(View(fields, regions, data[..]))
           == Apply(View(old(fields), old(regions), old(data[..])), number, old(data[body..body + length]))
    {
      ghost var bytes := data[..];
      PlacedBounded(regions, before, position, bytes);
      if number == URI_HOST {
        ReplaceHost(regions, before, position, body, length);
        regions := regions.(uriHost := Region(body, length));
      } else {
        var dst := At(regions, number);
        MergeInPlace(bytes, regions, number, before, position, body, length);
        TextView(fields, bytes, regions, number, before, position, body, length);
        var r := MergeMultiOption(dst, body, length, Separator(number));
        regions := Put(regions, number, r);
      }
      fields := fields.(options := fields.options + {number});
    }

    method IntOption(number: nat, at: nat, length: nat)
      requires number in {CONTENT_TYPE, MAX_AGE, URI_PORT, OBSERVE, ACCEPT, BLOCK2, BLOCK1}
      requires at + length <= data.Length
      modifies this`fields
      ensures Apply(old(fields), number, data[at..at + length]) == Continue(fields)
    {
      var v := ParseIntOption(at, length);
      fields := fields.(options := fields.options + {number});
      if number == CONTENT_TYPE {
        fields := fields.(contentType := v);
      } else if number == MAX_AGE {
        fields := fields.(maxAge := v);
      } else if number == URI_PORT {
        fields := fields.(uriPort := v % U16);
      } else if number == OBSERVE {
        fields := fields.(observe := v % U16);
      } else if number == ACCEPT {
        if |fields.accept| < COAP_MAX_ACCEPT_NUM {
          fields := fields.(accept := fields.accept + [v % U16]);
        }
      } else {
        var more, size := (v / 8) % 2 == 1, 16 * Pow2(v % 8);
        var offset := ((v - v % 16) * Pow2(v % 8)) % U32;
        if number == BLOCK2 {
          fields := fields.(block2 := Block(v / 16, more, size, offset));
        } else {
          fields := fields.(block1 := Block(v / 16, more, size, offset));
        }
      }
    }

    method CopiedOption(number: nat, at: nat, length: nat)
      requires number in {ETAG, TOKEN, IF_MATCH} && at + length <= data.Length
      modifies this`fields
      ensures Apply(old(fields), number, data[at..at + length]) == Continue(fields)
    {
      var kept := Min(8, length);
      assert data[at..at + length][..kept] == data[at..at + kept];
      fields := fields.(options := fields.options + {number});
      if number == ETAG {
        fields := fields.(etag := data[at..at + kept]);
      } else if number == TOKEN {
        fields := fields.(token := data[at..at + kept]);
      } else {
        fields := fields.(ifMatch := data[at..at + kept]);
      }
    }

    /** The options whose values do not stay in the buffer; returns the error status, 0 to go on. */
    method FieldOption(number: nat, at: nat, length: nat) returns (status: nat)
      requires !Textual(number) && at + length <= data.Length
      modifies this`fields
      ensures match Apply(old(fields), number, data[at..at + length])
              case Stop(s) => status == s && s != 0
              case Continue(f) => status == 0 && fields == f
    {
      status := 0;
      if number in {CONTENT_TYPE, MAX_AGE, URI_PORT, OBSERVE, ACCEPT, BLOCK2, BLOCK1} {
        IntOption(number, at, length);
      } else if number in {ETAG, TOKEN, IF_MATCH} {
        CopiedOption(number, at, length);
      } else {
        fields := fields.(options := fields.options + {number});
        if number == PROXY_URI {
          status := PROXYING_NOT_SUPPORTED_5_05;
        } else if number != FENCE_POST && number != IF_NONE_MATCH && number % 2 == 1 {
          status := BAD_OPTION_4_02;
        }
      }
    }

    /** The body of the option loop behind the option header. */
    method ApplyOption(number: nat, ghost before: nat, ghost position: nat, body: nat, length: nat)
      returns (status: nat)
      requires before <= number && Ready(before, position)
      requires position < body && body + length <= data.Length
      modifies this, data
      ensures Bounded(old(regions), old(data[..]))
      ensures match Apply(View(old(fields), old(regions), old(data[..])), number, old(data[body..body + length]))
              case Stop(s) => status == s && s != 0
              case Continue(p) => status == 0 && Ready(number, body + length) && Readable() && Message() == p
                                  && data[body + length..] == old(data[body + length..])
    {
      hide Apply, View, Placed, Bounded, At;
      ghost var bytes := data[..];
      PlacedBounded(regions, before, position, bytes);
      if Textual(number) {
        TextOption(number, before, position, body, length);
        status := 0;
      } else {
        FieldView(fields, bytes, regions, number, data[body..body + length]);
        PlacedLater(regions, before, position, number, body + length);
        status := FieldOption(number, body, length);
      }
    }

    /** The option loop: it ends with the outcome of the pure parser on the bytes as they were. */
    method ParseOptionLoop(count: nat, dataLen: nat) returns (status: nat, position: nat)
      requires COAP_HEADER_LEN <= dataLen <= data.Length && Ready(0, COAP_HEADER_LEN) && Readable() && count <= 15
      requires !ParseOptions(data[COAP_HEADER_LEN..dataLen], count, 0, Message()).Overrun?
      modifies this, data
      ensures COAP_HEADER_LEN <= position <= dataLen
      ensures Bounded(old(regions), old(data[..]))
      ensures var r := ParseOptions(old(data[COAP_HEADER_LEN..dataLen]), count, 0, old(Message()));
              if status != 0 then r == Failed(status)
              else Ready(255, position) && Readable() && r == ParseOptions(data[position..dataLen], 0, 0, Message())
    {
      hide Apply, View, Placed, Bounded, ParseOptions;
      ghost var r := ParseOptions(data[COAP_HEADER_LEN..dataLen], count, 0, Message());
      var number: nat := 0;
      position := COAP_HEADER_LEN;
      for index := 0 to count
        invariant COAP_HEADER_LEN <= position <= dataLen
        invariant Ready(number, position) && Readable() && number <= 15 * index
        invariant r == ParseOptions(data[position..dataLen], count - index, number, Message())
      {
        ghost var bytes, m := data[..], Message();
        OptionInside(bytes, position, dataLen, count - index, number, m);
        number := (number + data[position] / 16) % 256;
        var body, length: nat;
        if data[position] % 16 < 15 {
          length, body := data[position] % 16, position + 1;
        } else {
          length, body := data[position + 1] as int + 15, position + 2;
        }
        assert bytes[body..body + length] == data[body..body + length];
        status := ApplyOption(number, number - data[position] / 16, position, body, length);
        if status != 0 {
          return;
        }
        position := body + length;
        TailPart(bytes, data[..], position, dataLen);
      }
      status := 0;
      PlacedLater(regions, number, position, 255, position);
      NumberIgnored(data[position..dataLen], number, Message());
    }

    /** Clamps the payload to REST_MAX_CHUNK_SIZE and terminates it with a zero byte. */
    method TakePayload(position: nat, dataLen: nat)
      requires position <= dataLen < data.Length && Ready(255, position) && Readable()
      modifies this`payload, data
      ensures Readable() && payload.End() < data.Length && data[payload.End()] == 0
      ensures Parsed(Message().(payload := Slice(data[..], payload)))
           == ParseOptions(old(data[position..dataLen]), 0, 0, old(Message()))
    {
      hide View, Placed, Bounded;
      ghost var bytes := data[..];
      payload := Region(position, Min(dataLen - position, REST_MAX_CHUNK_SIZE));
      data[payload.End()] := 0;
      assert data[..position] == bytes[..position];
      ViewKept(fields, regions, 255, position, bytes, data[..]);
      assert Slice(data[..], payload) == bytes[position..dataLen][..payload.length];
    }

    method ResetFields()
      requires data.Length >= COAP_HEADER_LEN
      modifies this
      ensures Ready(0, COAP_HEADER_LEN) && Readable()
      ensures Message() == Blank(data[0] / 16 % 4, data[1], data[2] as int * 256 + data[3])
      ensures payload.End() == 0
    {
      hide View, Slice, Placed;
      regions, payload := NO_REGIONS, NO_REGION;
      fields := Blank(data[0] / 16 % 4, data[1], data[2] as int * 256 + data[3]);
      NothingPlaced();
      EmptyView(fields, data[..]);
    }

    /**
     Parses in place. The source checks no bounds, so the caller has to bring a message whose options lie
     within dataLen, and one more byte for the terminator. Returns 0 for NO_ERROR.
    */
    method ParseMessage(dataLen: nat) returns (status: nat)
      requires dataLen < data.Length
      requires !CoapWire.ParseMessage(data[..dataLen]).Overrun?
      modifies this, data
      ensures status != 0 ==> CoapWire.ParseMessage(old(data[..dataLen])) == Failed(status)
      ensures status == 0 ==> Readable() && payload.End() < data.Length && data[payload.End()] == 0
      ensures status == 0 ==>
                CoapWire.ParseMessage(old(data[..dataLen])) == Parsed(Message().(payload := Slice(data[..], payload)))
    {
      hide Apply, Placed, ParseOptions, View, Bounded, Slice;
      hide CoapWire.ParseMessage, Blank, Ready, Readable, Message, OptionFits;
      ghost var wire := data[..dataLen];
      assert |wire| >= COAP_HEADER_LEN by { TooShort(wire); }
      HeaderUnfolded(wire);
      ResetFields();
      if data[0] / 64 != 1 {
        return BAD_REQUEST_4_00;
      }
      var optionCount := data[0] % 16;
      assert wire[COAP_HEADER_LEN..] == data[COAP_HEADER_LEN..dataLen];
      var position;
      status, position := ParseOptionLoop(optionCount, dataLen);
      if status == 0 {
        TakePayload(position, dataLen);
      }
    }
  }

  lemma NothingPlaced()
    ensures Placed(NO_REGIONS, 0, COAP_HEADER_LEN)
  {
  }

  lemma NumberIgnored(rest: seq<byte>, number: nat, pkt: Packet)
    ensures ParseOptions(rest, 0, number, pkt) == ParseOptions(rest, 0, 0, pkt)
  {
  }

  lemma EmptyView(fields: Packet, bytes: seq<byte>)
    requires fields.uriHost == [] && fields.locationPath == [] && fields.locationQuery == []
    requires fields.uriPath == [] && fields.uriQuery == []
    ensures Bounded(NO_REGIONS, bytes) && View(fields, NO_REGIONS, bytes) == fields
  {
    assert bytes[0..0] == [];
  }

  lemma TooShort(wire: seq<byte>)
    ensures |wire| < COAP_HEADER_LEN ==> CoapWire.ParseMessage(wire).Overrun?
  {
  }

  lemma HeaderUnfolded(wire: seq<byte>)
    requires |wire| >= COAP_HEADER_LEN
    ensures CoapWire.ParseMessage(wire)
         == if wire[0] / 64 != 1 then Failed(BAD_REQUEST_4_00)
            else ParseOptions(wire[COAP_HEADER_LEN..], wire[0] % 16, 0,
                              Blank(wire[0] / 16 % 4, wire[1], wire[2] as int * 256 + wire[3]))
  {
  }

  /** Unfolding the pure parser at a position of the buffer. */
  lemma TailPart(a: seq<byte>, b: seq<byte>, from: nat, to: nat)
    requires |a| == |b| && from <= to <= |a| && a[from..] == b[from..]
    ensures a[from..to] == b[from..to]
  {
    SliceOfSlice(a, from, |a|, 0, to - from);
    SliceOfSlice(b, from, |b|, 0, to - from);
    assert a[from..] == a[from..|a|] && b[from..] == b[from..|b|];
  }

  lemma OptionInside(bytes: seq<byte>, position: nat, end: nat, count: nat, number: nat, pkt: Packet)
    requires position <= end <= |bytes| && count > 0
    requires !ParseOptions(bytes[position..end], count, number, pkt).Overrun?
    ensures position < end
    ensures bytes[position] % 16 == 15 ==> position + 1 < end
    ensures var body := position + if bytes[position] % 16 < 15 then 1 else 2;
            var length := if bytes[position] % 16 < 15 then bytes[position] as int % 16
                else bytes[position + 1] as int + 15;
            var next := (number + bytes[position] / 16) % 256;
            && body + length <= end
            && ParseOptions(bytes[position..end], count, number, pkt)
               == match Apply(pkt, next, bytes[body..body + length])
                  case Stop(status) => Failed(status)
                  case Continue(p) => ParseOptions(bytes[body + length..end], count - 1, next, p)
  {
    hide Apply;
    var rest := bytes[position..end];
    assert OptionFits(rest);
    assert rest[0] == bytes[position];
    var body := HeaderSize(rest);
    assert body == 2 ==> rest[1] == bytes[position + 1];
    var length := ValueSize(rest);
    SliceOfSlice(bytes, position, end, body, body + length);
    SliceOfSlice(bytes, position, end, body + length, |rest|);
    assert rest[body + length..|rest|] == rest[body + length..];
  }
}
