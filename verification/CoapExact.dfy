/**
 The codec theorem: a packet survives serialization and parsing if and only if it is representable.
*/
module CoapExact {
  import opened Numbers
  import opened Bytes
  import opened CoapPacket
  import opened CoapWire
  import opened CoapSplit
  import opened CoapMessage
  import opened CoapFold
  import opened CoapRoundTrip

  // ---------------------------------------------------------------- fence posts and option_count

  /** Fence posts in general: every inserted delta is 1..14 and the last number reached is a multiple of 14. */
  lemma {:induction false} FencePostBytes(number: nat, current: nat)
    requires current <= number
    ensures |FencePosts(number, current)| == FenceCount(number, current)
    ensures forall i :: 0 <= i < |FencePosts(number, current)| ==>
              16 <= FencePosts(number, current)[i] <= 14 * 16 && FencePosts(number, current)[i] % 16 == 0
    ensures AfterFences(number, current) == current + DeltaSum(FencePosts(number, current))
    ensures FenceCount(number, current) > 0 ==> AfterFences(number, current) % 14 == 0
    decreases number - current
  {
    if number > current + 15 {
      var delta := 14 - current % 14;
      var header := delta * 16;
      assert (current + delta) % 14 == 0;
      assert OptionHeader(delta, 0) == [header] && header / 16 == delta && header % 16 == 0;
      FencePostBytes(number, current + delta);
      assert FencePosts(number, current) == [header] + FencePosts(number, current + delta);
    }
  }

  function DeltaSum(headers: seq<byte>): nat {
    if headers == [] then 0 else headers[0] / 16 + DeltaSum(headers[1..])
  }

  /** The option_count increment n/14 equals the fence posts emitted unless the gap is 14 or 15. */
  lemma FenceCountExact(number: nat, current: nat)
    requires current <= number < ALL
    ensures FenceCount(number, current) == (if number > current + 15 then 1 else 0)
    ensures FenceCount(number, current) == (number - current) / 14 <==> number - current != 14 && number - current != 15
    ensures (number - current) / 14 <= FenceCount(number, current) + 1
  {
    if number > current + 15 {
      assert FenceCount(number, current + 14 - current % 14) == 0;
    }
  }

  /** The highest option below k, 0 if there is none. */
  function Previous(p: Packet, k: nat): nat {
    if k == 0 then 0 else if k - 1 in p.options then k - 1 else Previous(p, k - 1)
  }

  /** No option from Uri-Query on follows its predecessor at a distance of 14 or 15. */
  ghost predicate GapsCounted(p: Packet, n: nat) {
    forall k :: k in p.options && 15 <= k < n ==> k - Previous(p, k) != 14 && k - Previous(p, k) != 15
  }

  lemma ValuesNonempty(p: Packet, n: nat)
    requires ValidPacket(p) && n in p.options && n != PROXY_URI
    ensures Values(p, n) != []
  {
    if Multipart(n) {
      SplitHead(Text(p, n), Separator(n), 0);
    }
  }

  lemma {:induction false} PreviousIsLast(p: Packet, n: nat)
    requires ValidPacket(p) && PROXY_URI !in p.options
    ensures LastNumber(0, Options(p, n)) == Previous(p, n)
  {
    if n > 0 {
      PreviousIsLast(p, n - 1);
      NumberedProps(n - 1, Values(p, n - 1));
      if n - 1 in p.options {
        ValuesNonempty(p, n - 1);
      }
    }
  }

  lemma {:induction false} NumberedHeaders(current: nat, number: nat, values: seq<seq<byte>>)
    requires current <= number
    ensures HeaderCount(current, Numbered(number, values))
         == |values| + if values == [] then 0 else FenceCount(number, current)
    decreases values
  {
    if values != [] {
      NumberedHeaders(number, number, values[1..]);
    }
  }

  lemma {:induction false} PreviousHigh(p: Packet, k: nat, n: nat)
    requires k in p.options && k < n
    ensures k <= Previous(p, n)
  {
    if k < n - 1 {
      PreviousHigh(p, k, n - 1);
    }
  }

  ghost predicate Miscounted(p: Packet, k: nat) {
    k in p.options && k >= 15 && 14 <= k - Previous(p, k) <= 15
  }

  lemma CountStep(p: Packet, k: nat, current: nat)
    requires ValidPacket(p) && PROXY_URI !in p.options && k < ALL
    requires current == Previous(p, k) && current <= k
    ensures CountIncrement(p, k, current) == HeaderCount(current, Piece(p, k)) + if Miscounted(p, k) then 1 else 0
  {
    hide FenceCount, Numbered, Previous;
    NumberedHeaders(current, k, Values(p, k));
    FenceCountExact(k, current);
    if k in p.options {
      ValuesNonempty(p, k);
    }
  }

  /** option_count is the number of emitted headers, one too many exactly when some gap is miscounted. */
  lemma {:induction false} OptionCountExact(p: Packet, n: nat)
    requires ValidPacket(p) && PROXY_URI !in p.options && n <= ALL
    ensures OptionCount(p, n) == HeaderCount(0, Options(p, n)) + if GapsCounted(p, n) then 0 else 1
  {
    hide Piece, CountIncrement, HeaderCount;
    if n == 0 {
      assert HeaderCount(0, Options(p, 0)) == 0 by { NoHeaders(); }
    } else {
      var k := n - 1;
      OptionCountExact(p, k);
      OptionsAscending(p, k);
      PreviousIsLast(p, k);
      HeaderCountAppend(0, Options(p, k), Piece(p, k));
      CountStep(p, k, Previous(p, k));
      MiscountedOnce(p, k);
    }
  }

  lemma NoHeaders()
    ensures HeaderCount(0, []) == 0
  {
  }

  /** After a miscounted gap every later gap is short. */
  lemma MiscountedOnce(p: Packet, k: nat)
    requires k < ALL
    ensures GapsCounted(p, k + 1) <==> GapsCounted(p, k) && !Miscounted(p, k)
    ensures !(!GapsCounted(p, k) && Miscounted(p, k))
  {
    if !GapsCounted(p, k) {
      var j :| j in p.options && 15 <= j < k && 14 <= j - Previous(p, j) <= 15;
      PreviousHigh(p, j, k);
    }
  }

  // ---------------------------------------------------------------- bounds from the header limit

  lemma {:induction false} EncodeBounds(current: nat, opts: seq<RawOption>)
    requires Ascending(current, opts)
    ensures HeaderCount(current, opts) <= |EncodeOptions(current, opts)|
    ensures forall i :: 0 <= i < |opts| ==> |opts[i].value| <= |EncodeOptions(current, opts)|
    decreases opts
  {
    if opts != [] {
      EncodeBounds(opts[0].number, opts[1..]);
      FencePostBytes(opts[0].number, current);
    }
  }

  lemma {:induction false} OptionNumbers(p: Packet, n: nat)
    ensures forall i :: 0 <= i < |Options(p, n)| ==> Options(p, n)[i].number < n
  {
    if n > 0 {
      OptionNumbers(p, n - 1);
      NumberedProps(n - 1, Values(p, n - 1));
    }
  }

  predicate HeaderFits(p: Packet) {
    COAP_HEADER_LEN + |OptionBytes(p, ALL)| <= COAP_MAX_HEADER_SIZE
  }

  lemma FittingOptions(p: Packet)
    requires HeaderFits(p)
    ensures Ascending(0, Options(p, ALL)) && Encodable(Options(p, ALL))
    ensures HeaderCount(0, Options(p, ALL)) <= 46
  {
    OptionsAscending(p, ALL);
    EncodeBounds(0, Options(p, ALL));
    OptionNumbers(p, ALL);
  }

  // ---------------------------------------------------------------- blocks

  predicate BlockSize(size: nat) {
    size in {16, 32, 64, 128, 256, 512, 1024, 2048}
  }

  lemma SizeExponent(size: nat)
    requires 16 <= size <= 2048
    ensures Log2(size / 16) <= 7
    ensures 16 * Pow2(Log2(size / 16)) == size <==> BlockSize(size)
    ensures 16 * Pow2(Log2(size / 16)) <= 2048
  {
    LogBounds(size / 16, 7);
    var k := Log2(size / 16);
    assert Pow2(1) == 2 && Pow2(2) == 4 && Pow2(3) == 8;
    assert Pow2(4) == 16 && Pow2(5) == 32;
    assert Pow2(6) == 64 && Pow2(7) == 128;
    assert k == 0 || k == 1 || k == 2 || k == 3 || k == 4 || k == 5 || k == 6 || k == 7;
  }

  lemma {:induction false} LogBounds(v: nat, bound: nat)
    requires 1 <= v <= Pow2(bound)
    ensures Log2(v) <= bound && Pow2(Log2(v)) <= v < 2 * Pow2(Log2(v))
  {
    if v >= 2 {
      LogBounds(v / 2, bound - 1);
    }
  }

  /** The packed block option unpacks to the same number and flag, the size rounded down to a power of two. */
  lemma BlockUnpacks(b: Block)
    requires ValidBlock(b)
    ensures EchoBlock(b).num == b.num && EchoBlock(b).more == b.more
    ensures EchoBlock(b).size == b.size <==> BlockSize(b.size)
    ensures EchoBlock(b).offset == b.num * EchoBlock(b).size
  {
    hide Pow2, Log2, IntBytes, ParseInt, UnpackBlock;
    SizeExponent(b.size);
    var k := Log2(b.size / 16);
    var word := b.num * 16 + (if b.more then 8 else 0) + k;
    assert (b.num * 16) % U32 == b.num * 16;
    assert BlockWord(b) == word;
    IntRoundTrip(word);
    UnpackExact(b.num, b.more, k);
  }

  lemma UnpackExact(num: nat, more: bool, k: nat)
    requires num <= 0xFFFFF && k <= 7 && 16 * Pow2(k) <= 2048
    ensures UnpackBlock(num * 16 + (if more then 8 else 0) + k) == Block(num, more, 16 * Pow2(k), num * (16 * Pow2(k)))
  {
    hide Pow2;
    BlockBits(num, more, k);
    OffsetFits(num, Pow2(k));
  }

  lemma BlockBits(num: nat, more: bool, k: nat)
    requires k <= 7
    ensures var word := num * 16 + (if more then 8 else 0) + k;
            word / 16 == num && word % 8 == k && ((word / 8) % 2 == 1 <==> more) && word - word % 16 == num * 16
  {
    var low := (if more then 8 else 0) + k;
    assert low < 16 && (num * 16 + low) / 16 == num && (num * 16 + low) % 16 == low;
    assert (num * 16 + low) / 8 == 2 * num + low / 8 && (num * 16 + low) % 8 == low % 8;
  }

  lemma OffsetFits(num: nat, scale: nat)
    requires num <= 0xFFFFF && 16 * scale <= 2048
    ensures (num * 16 * scale) % U32 == num * (16 * scale)
  {
    assert num * 16 * scale == num * (16 * scale) <= 0xFFFFF * 2048;
  }

  // ---------------------------------------------------------------- the theorem

  ghost predicate SameBlock(b: Block, parsed: Block) {
    parsed.num == b.num && parsed.more == b.more && parsed.size == b.size && parsed.offset == b.num * b.size
  }

  /** The parsed packet carries the header fields, the payload, the bitmap (fence posts aside) and every set option. */
  ghost predicate Agrees(p: Packet, q: Packet) {
    && q.kind == p.kind && q.code == p.code && q.mid == p.mid && q.payload == p.payload
    && q.options - {FENCE_POST} == p.options
    && (CONTENT_TYPE in p.options ==> q.contentType == p.contentType)
    && (MAX_AGE in p.options ==> q.maxAge == p.maxAge)
    && (PROXY_URI in p.options ==> q.proxyUri == p.proxyUri)
    && (ETAG in p.options ==> q.etag == p.etag)
    && (URI_HOST in p.options ==> q.uriHost == p.uriHost)
    && (LOCATION_PATH in p.options ==> q.locationPath == p.locationPath)
    && (URI_PORT in p.options ==> q.uriPort == p.uriPort)
    && (LOCATION_QUERY in p.options ==> q.locationQuery == p.locationQuery)
    && (URI_PATH in p.options ==> q.uriPath == p.uriPath)
    && (OBSERVE in p.options ==> q.observe == p.observe)
    && (TOKEN in p.options ==> q.token == p.token)
    && (ACCEPT in p.options ==> q.accept == p.accept)
    && (IF_MATCH in p.options ==> q.ifMatch == p.ifMatch)
    && (URI_QUERY in p.options ==> q.uriQuery == p.uriQuery)
    && (BLOCK2 in p.options ==> SameBlock(p.block2, q.block2))
    && (BLOCK1 in p.options ==> SameBlock(p.block1, q.block1))
  }

  ghost predicate FieldsRepresentable(p: Packet) {
    && (LOCATION_PATH in p.options ==> Splittable(p.locationPath, SLASH))
    && (LOCATION_QUERY in p.options ==> Splittable(p.locationQuery, AMPERSAND))
    && (URI_PATH in p.options ==> Splittable(p.uriPath, SLASH))
    && (URI_QUERY in p.options ==> Splittable(p.uriQuery, AMPERSAND))
    && (BLOCK2 in p.options ==> BlockSize(p.block2.size))
    && (BLOCK1 in p.options ==> BlockSize(p.block1.size))
  }

  /** What a caller can check before serializing. */
  ghost predicate Representable(p: Packet) {
    && HeaderFits(p)
    && PROXY_URI !in p.options
    && FieldsRepresentable(p)
    && GapsCounted(p, ALL)
    && HeaderCount(0, Options(p, ALL)) <= 15
  }

  ghost predicate Survives(p: Packet)
    requires ValidPacket(p)
  {
    var wire := Serialize(p);
    wire.Datagram? && var r := ParseMessage(wire.data); r.Parsed? && Agrees(p, r.pkt)
  }

  function WithPayload(q: Packet, payload: seq<byte>): Packet {
    q.(payload := payload)
  }

  /** The header bytes carry version, type, code and message id; what remains is the option loop. */
  lemma HeaderParses(p: Packet)
    requires ValidPacket(p) && HeaderFits(p)
    ensures ParseMessage(Serialize(p).data)
         == ParseOptions(OptionBytes(p, ALL) + p.payload, OptionCount(p, ALL) % 16, 0, Blank(p.kind, p.code, p.mid))
  {
    hide OptionBytes, OptionCount, ParseOptions;
    var data := Serialize(p).data;
    var first := 64 + p.kind * 16 + OptionCount(p, ALL) % 16;
    assert data[0] == first && data[1] == p.code && data[2] == p.mid / 256 && data[3] == p.mid % 256;
    assert first / 64 == 1 && first / 16 % 4 == p.kind && first % 16 == OptionCount(p, ALL) % 16;
    assert data[COAP_HEADER_LEN..] == OptionBytes(p, ALL) + p.payload;
  }

  lemma {:induction false} NeverProxy(data: seq<byte>, count: nat, number: nat, pkt: Packet)
    requires PROXY_URI !in pkt.options
    ensures var r := ParseOptions(data, count, number, pkt); r.Parsed? ==> PROXY_URI !in r.pkt.options
    decreases count
  {
    if count > 0 && OptionFits(data) {
      var next := (number + data[0] / 16) % 256;
      var body := HeaderSize(data);
      var end := body + ValueSize(data);
      var s := Apply(pkt, next, data[body..end]);
      assert s.Continue? ==> s.pkt.options == pkt.options + {next} && next != PROXY_URI;
      if s.Continue? {
        NeverProxy(data[end..], count - 1, next, s.pkt);
      }
    }
  }

  lemma EchoAgrees(p: Packet, fenced: bool)
    requires ValidPacket(p) && PROXY_URI !in p.options
    ensures Agrees(p, WithPayload(Echo(p, ALL, fenced), p.payload)) <==> FieldsRepresentable(p)
  {
    hide EchoPath, EchoBlock;
    var q := Echo(p, ALL, fenced);
    EchoBitmap(p, fenced);
    EchoPathExact(p.locationPath, SLASH);
    EchoPathExact(p.locationQuery, AMPERSAND);
    EchoPathExact(p.uriPath, SLASH);
    EchoPathExact(p.uriQuery, AMPERSAND);
    if BLOCK2 in p.options {
      BlockUnpacks(p.block2);
    }
    if BLOCK1 in p.options {
      BlockUnpacks(p.block1);
    }
  }

  lemma EchoBitmap(p: Packet, fenced: bool)
    requires ValidPacket(p)
    ensures Echo(p, ALL, fenced).options - {FENCE_POST} == p.options
  {
    assert Restrict(p, ALL) == p.options;
    assert FENCE_POST !in p.options;
    assert Echo(p, ALL, fenced).options == p.options + if fenced then {FENCE_POST} else {};
  }

  lemma EchoPathExact(v: seq<byte>, sep: byte)
    ensures EchoPath(v, sep) == v <==> Splittable(v, sep)
    ensures |EchoPath(v, sep)| <= |v|
  {
    SplitMergeExact(v, sep);
  }

  /** An agreeing packet holds at least the content of the full echo. */
  lemma AgreeingContent(p: Packet, q: Packet, fenced: bool)
    requires ValidPacket(p) && Agrees(p, q)
    ensures Content(Echo(p, ALL, fenced)) <= Content(q)
  {
    hide EchoPath, EchoBlock;
    EchoBitmap(p, fenced);
    EchoPathExact(p.locationPath, SLASH);
    EchoPathExact(p.locationQuery, AMPERSAND);
    EchoPathExact(p.uriPath, SLASH);
    EchoPathExact(p.uriQuery, AMPERSAND);
  }

  /** One option more than was written: it is cut out of the payload, which then comes back shorter. */
  lemma PayloadEaten(payload: seq<byte>, number: nat, pkt: Packet)
    requires |payload| <= REST_MAX_CHUNK_SIZE
    ensures var r := ParseOptions(payload, 1, number, pkt); r.Parsed? ==> r.pkt.payload != payload
  {
    if OptionFits(payload) {
      var next := (number + payload[0] / 16) % 256;
      var end := HeaderSize(payload) + ValueSize(payload);
      var s := Apply(pkt, next, payload[HeaderSize(payload)..end]);
      if s.Continue? {
        PayloadTail(payload[end..], next, s.pkt);
      }
    }
  }

  lemma PayloadTail(rest: seq<byte>, number: nat, pkt: Packet)
    ensures ParseOptions(rest, 0, number, pkt).Parsed?
    ensures |ParseOptions(rest, 0, number, pkt).pkt.payload| <= |rest|
  {
  }

  lemma ExactCount(p: Packet)
    requires ValidPacket(p) && HeaderFits(p) && PROXY_URI !in p.options
    requires OptionCount(p, ALL) == HeaderCount(0, Options(p, ALL)) <= 15
    ensures ParseMessage(Serialize(p).data) == Parsed(WithPayload(Echo(p, ALL, FencedBefore(p, ALL)), p.payload))
  {
    hide Apply, Content, Echo, FencedBefore, OptionCount, Options, EncodeOptions, HeaderCount, FoldOptions, Serialize,
      ParseMessage, ParseOptions, OptionFits, Growing, Ascending, ValidPacket, HeaderFits, LastNumber;
    FittingOptions(p);
    HeaderParses(p);
    OptionsFold(p, ALL);
    var opts, echo := Options(p, ALL), Echo(p, ALL, FencedBefore(p, ALL));
    ParseFolds(0, opts, p.payload, OptionCount(p, ALL), Blank(p.kind, p.code, p.mid));
    PayloadKept(p, LastNumber(0, opts), echo);
  }

  lemma PayloadKept(p: Packet, number: nat, pkt: Packet)
    requires ValidPacket(p)
    ensures ParseOptions(p.payload, 0, number, pkt) == Parsed(WithPayload(pkt, p.payload))
  {
    assert p.payload[..|p.payload|] == p.payload;
  }

  lemma CountTooSmall(p: Packet, q: Packet)
    requires ValidPacket(p) && HeaderFits(p) && PROXY_URI !in p.options
    requires OptionCount(p, ALL) % 16 < HeaderCount(0, Options(p, ALL))
    requires ParseMessage(Serialize(p).data) == Parsed(q)
    ensures !Agrees(p, q)
  {
    hide Apply, Content, Echo, FencedBefore, OptionCount, Options, EncodeOptions, HeaderCount, FoldOptions, Serialize,
      ParseMessage, ParseOptions, Agrees, Growing;
    FittingOptions(p);
    HeaderParses(p);
    OptionsFold(p, ALL);
    ShortParse(0, Options(p, ALL), p.payload, OptionCount(p, ALL) % 16, Blank(p.kind, p.code, p.mid));
    if Agrees(p, q) {
      AgreeingContent(p, q, FencedBefore(p, ALL));
    }
  }

  lemma CountTooLarge(p: Packet, q: Packet)
    requires ValidPacket(p) && HeaderFits(p) && PROXY_URI !in p.options
    requires OptionCount(p, ALL) % 16 == HeaderCount(0, Options(p, ALL)) + 1
    requires ParseMessage(Serialize(p).data) == Parsed(q)
    ensures q.payload != p.payload
  {
    hide Apply, Content, Echo, FencedBefore, OptionCount, Options, EncodeOptions, HeaderCount, FoldOptions, Serialize,
      ParseMessage, ParseOptions, Growing;
    var opts := Options(p, ALL);
    FittingOptions(p);
    HeaderParses(p);
    OptionsFold(p, ALL);
    ParseFolds(0, opts, p.payload, OptionCount(p, ALL) % 16, Blank(p.kind, p.code, p.mid));
    PayloadEaten(p.payload, LastNumber(0, opts), Echo(p, ALL, FencedBefore(p, ALL)));
  }

  lemma WrongCount(p: Packet)
    requires ValidPacket(p) && HeaderFits(p) && PROXY_URI !in p.options
    requires !(GapsCounted(p, ALL) && HeaderCount(0, Options(p, ALL)) <= 15)
    ensures !Survives(p)
  {
    hide OptionCount, Options, HeaderCount, GapsCounted, ParseMessage;
    FittingOptions(p);
    OptionCountExact(p, ALL);
    var r := ParseMessage(Serialize(p).data);
    if r.Parsed? {
      if OptionCount(p, ALL) % 16 < HeaderCount(0, Options(p, ALL)) {
        CountTooSmall(p, r.pkt);
      } else {
        CountTooLarge(p, r.pkt);
      }
    }
  }

  /** The codec theorem, for every packet the setters can build. */
  lemma RoundTrip(p: Packet)
    requires ValidPacket(p)
    ensures Survives(p) <==> Representable(p)
  {
    hide Apply, Content, Echo, FencedBefore, OptionCount, Options, GapsCounted, Agrees, FieldsRepresentable;
    if HeaderFits(p) {
      if PROXY_URI in p.options {
        HeaderParses(p);
        NeverProxy(OptionBytes(p, ALL) + p.payload, OptionCount(p, ALL) % 16, 0, Blank(p.kind, p.code, p.mid));
        AgreeingBitmap(p);
      } else if GapsCounted(p, ALL) && HeaderCount(0, Options(p, ALL)) <= 15 {
        OptionCountExact(p, ALL);
        ExactCount(p);
        EchoAgrees(p, FencedBefore(p, ALL));
      } else {
        WrongCount(p);
      }
    }
  }

  lemma AgreeingBitmap(p: Packet)
    requires PROXY_URI in p.options
    ensures forall q :: Agrees(p, q) ==> PROXY_URI in q.options
  {
    forall q | Agrees(p, q)
      ensures PROXY_URI in q.options
    {
      assert PROXY_URI in q.options - {FENCE_POST};
    }
  }

  // ---------------------------------------------------------------- the option number counter

  /** The option loop with an unbounded option number in place of the uint8_t. */
  function ParseWide(data: seq<byte>, count: nat, number: nat, pkt: Packet): Outcome {
    if count == 0 then Parsed(WithPayload(pkt, data[..Min(|data|, REST_MAX_CHUNK_SIZE)]))
    else if !OptionFits(data) then Overrun
    else
      var next := number + data[0] / 16;
      var body := HeaderSize(data);
      var end := body + ValueSize(data);
      match Apply(pkt, next, data[body..end])
      case Stop(status) => Failed(status)
      case Continue(p) => ParseWide(data[end..], count - 1, next, p)
  }

  /** A four-bit option count and four-bit deltas cannot overflow the eight-bit option number. */
  lemma {:induction false} NumbersNeverWrap(data: seq<byte>, count: nat, number: nat, pkt: Packet)
    requires number + 15 * count < 256
    ensures ParseOptions(data, count, number, pkt) == ParseWide(data, count, number, pkt)
    decreases count
  {
    hide Apply;
    if count > 0 && OptionFits(data) {
      var next := number + data[0] / 16;
      var body := HeaderSize(data);
      var end := body + ValueSize(data);
      var s := Apply(pkt, next, data[body..end]);
      if s.Continue? {
        NumbersNeverWrap(data[end..], count - 1, next, s.pkt);
      }
    }
  }

  lemma MessageNumbersNeverWrap(data: seq<byte>)
    requires |data| >= COAP_HEADER_LEN && data[0] / 64 == 1
    ensures ParseMessage(data) == ParseWide(data[COAP_HEADER_LEN..], data[0] % 16, 0,
                                            Blank(data[0] / 16 % 4, data[1], data[2] as int * 256 + data[3]))
  {
    NumbersNeverWrap(data[COAP_HEADER_LEN..], data[0] % 16, 0,
                     Blank(data[0] / 16 % 4, data[1], data[2] as int * 256 + data[3]));
  }

  // ---------------------------------------------------------------- Proxy-Uri

  function JoinedChunks(chunks: seq<seq<byte>>): seq<byte> {
    if chunks == [] then [] else chunks[0] + JoinedChunks(chunks[1..])
  }

  /** Every option value has 270 bytes, but the last, which has at least one. */
  predicate FullChunks(chunks: seq<seq<byte>>) {
    forall i | 0 <= i < |chunks| :: 0 < |chunks[i]| <= 270 && (i < |chunks| - 1 ==> |chunks[i]| == 270)
  }

  /** A Proxy-Uri of any length is spread over options of at most 270 bytes, which together are the Proxy-Uri. */
  lemma {:induction false} ProxyChunks(uri: seq<byte>)
    ensures JoinedChunks(Chunks(uri)) == uri && FullChunks(Chunks(uri))
    ensures |Chunks(uri)| == (|uri| + 269) / 270
    decreases |uri|
  {
    if uri != [] {
      var n := Min(270, |uri|);
      ProxyChunks(uri[n..]);
      assert Chunks(uri)[1..] == Chunks(uri[n..]);
      assert uri == uri[..n] + uri[n..];
      forall i | 0 <= i < |Chunks(uri)|
        ensures 0 < |Chunks(uri)[i]| <= 270 && (i < |Chunks(uri)| - 1 ==> |Chunks(uri)[i]| == 270)
      {
        if i > 0 {
          assert Chunks(uri)[i] == Chunks(uri[n..])[i - 1];
        }
      }
    }
  }
}
