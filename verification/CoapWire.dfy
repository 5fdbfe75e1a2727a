/**
 The option wire format as functions on byte sequences: fence posts, option headers,
 minimal integers, path splitting, and the pure parser.
*/
module CoapWire {
  import opened Numbers
  import opened Bytes
  import opened CoapPacket

  // ---------------------------------------------------------------- integers

  /** coap_serialize_int_option writes only the significant bytes, high byte first. */
  function IntBytes(value: nat): seq<byte> {
    if value == 0 then [] else IntBytes(value / 256) + [value % 256]
  }

  /** coap_parse_int_option, in 32-bit unsigned arithmetic. */
  function ParseInt(bytes: seq<byte>): (v: nat)
    ensures v < U32
  {
    if bytes == [] then 0
    else (ParseInt(bytes[..|bytes| - 1]) * 256) % U32 + bytes[|bytes| - 1]
  }

  lemma {:induction false} IntRoundTrip(value: nat)
    requires value < U32
    ensures ParseInt(IntBytes(value)) == value
  {
    if value != 0 {
      var high, low := value / 256, value % 256;
      IntRoundTrip(high);
      ParseIntAppend(IntBytes(high), low);
      assert high * 256 + low == value;
    }
  }

  lemma ParseIntAppend(front: seq<byte>, last: byte)
    requires ParseInt(front) * 256 < U32
    ensures ParseInt(front + [last]) == ParseInt(front) * 256 + last
  {
    assert (front + [last])[..|front|] == front;
  }

  lemma IntLength(value: nat)
    requires value < U32
    ensures |IntBytes(value)| == if value == 0 then 0 else if value < 0x100 then 1
                                 else if value < 0x1_0000 then 2 else if value < 0x100_0000 then 3 else 4
  {
    if value >= 0x100_0000 {
      assert |IntBytes(value / 256 / 256 / 256)| == 1;
      assert |IntBytes(value / 256 / 256)| == 2;
    } else if value >= 0x1_0000 {
      assert |IntBytes(value / 256 / 256)| == 1;
    }
  }

  // ---------------------------------------------------------------- headers and fence posts

  /** coap_set_option_header: the masks keep the low four bits of delta and eight bits of the extra length. */
  function OptionHeader(delta: nat, length: nat): (h: seq<byte>)
    ensures 1 <= |h| <= 2
  {
    if length < 15 then [(delta * 16) % 256 + length]
    else [(delta * 16) % 256 + 15, (length - 15) % 256]
  }

  /** The option number at which coap_insert_option_fence_posts stops. */
  function AfterFences(number: nat, current: nat): nat
    decreases if number > current then number - current else 0
  {
    if number > current + 15 then AfterFences(number, current + 14 - current % 14) else current
  }

  function FencePosts(number: nat, current: nat): seq<byte>
    decreases if number > current then number - current else 0
  {
    if number > current + 15
    then OptionHeader(14 - current % 14, 0) + FencePosts(number, current + 14 - current % 14)
    else []
  }

  function FenceCount(number: nat, current: nat): nat
    decreases if number > current then number - current else 0
  {
    if number > current + 15 then 1 + FenceCount(number, current + 14 - current % 14) else 0
  }

  datatype RawOption = RawOption(number: nat, value: seq<byte>)

  function EncodeOption(current: nat, o: RawOption): seq<byte>
    requires current <= o.number
  {
    FencePosts(o.number, current) + TailHeader(current, o) + o.value
  }

  /** The delta that remains after the fence posts. */
  function Delta(number: nat, current: nat): (d: nat)
    requires current <= number
    ensures d <= 15
  {
    AfterFencesBound(number, current);
    number - AfterFences(number, current)
  }

  function TailHeader(current: nat, o: RawOption): (h: seq<byte>)
    requires current <= o.number
  {
    OptionHeader(Delta(o.number, current), |o.value|)
  }

  lemma {:induction false} AfterFencesBound(number: nat, current: nat)
    requires current <= number
    ensures current <= AfterFences(number, current) <= number
    ensures number - AfterFences(number, current) <= 15
    ensures AfterFences(number, current) == current || AfterFences(number, current) % 14 == 0
    decreases number - current
  {
    if number > current + 15 {
      AfterFencesBound(number, current + 14 - current % 14);
    }
  }

  ghost predicate Ascending(current: nat, opts: seq<RawOption>)
    decreases opts
  {
    opts == [] || (current <= opts[0].number && Ascending(opts[0].number, opts[1..]))
  }

  /** The option block of a packet, from option number `current` on. */
  function EncodeOptions(current: nat, opts: seq<RawOption>): seq<byte>
    requires Ascending(current, opts)
    decreases opts
  {
    if opts == [] then []
    else EncodeOption(current, opts[0]) + EncodeOptions(opts[0].number, opts[1..])
  }

  lemma EncodeCons(current: nat, opts: seq<RawOption>)
    requires Ascending(current, opts)
    ensures opts == [] ==> EncodeOptions(current, opts) == [] && LastNumber(current, opts) == current
    ensures opts != [] ==>
              && current <= opts[0].number && Ascending(opts[0].number, opts[1..])
              && LastNumber(opts[0].number, opts[1..]) == LastNumber(current, opts)
              && EncodeOptions(current, opts)
                 == EncodeOption(current, opts[0]) + EncodeOptions(opts[0].number, opts[1..])
  {
    hide EncodeOption;
  }

  /** How many option headers EncodeOptions emits, fence posts included. */
  function HeaderCount(current: nat, opts: seq<RawOption>): nat
    decreases opts
  {
    if opts == [] then 0
    else FenceCount(opts[0].number, current) + 1 + HeaderCount(opts[0].number, opts[1..])
  }

  function LastNumber(current: nat, opts: seq<RawOption>): nat {
    if opts == [] then current else opts[|opts| - 1].number
  }

  // ---------------------------------------------------------------- splitting and merging

  /** while(array[j]=='/') ++j */
  function SkipSlashes(v: seq<byte>, j: nat): (k: nat)
    ensures j <= k
    ensures k <= |v| || k == j
    decreases |v| - j
  {
    if j < |v| && v[j] == SLASH then SkipSlashes(v, j + 1) else j
  }

  /** The parts that coap_serialize_array_option still emits at loop index j, the open part starting at `start`. */
  function SplitFrom(v: seq<byte>, sep: byte, start: nat, j: nat): seq<seq<byte>>
    requires start <= j
    decreases |v| + 1 - j
  {
    if j > |v| then []
    else if j == |v| || v[j] == sep then
      var next := SkipSlashes(v, j + 1);
      [v[start..j]] + SplitFrom(v, sep, next, next + 1)
    else SplitFrom(v, sep, start, j + 1)
  }

  function Split(v: seq<byte>, sep: byte): seq<seq<byte>> {
    SplitFrom(v, sep, 0, 0)
  }

  /** The separator of the parts of a path or a query. */
  function Separator(n: nat): byte {
    if n == LOCATION_PATH || n == URI_PATH then SLASH else AMPERSAND
  }

  /** coap_merge_multi_option on values. */
  function Merge(dst: seq<byte>, value: seq<byte>, sep: byte): seq<byte> {
    if |dst| > 0 then dst + [sep] + value else value
  }

  function MergeAll(dst: seq<byte>, parts: seq<seq<byte>>, sep: byte): seq<byte>
    decreases parts
  {
    if parts == [] then dst else MergeAll(Merge(dst, parts[0], sep), parts[1..], sep)
  }

  // ---------------------------------------------------------------- the pure parser

  datatype Step = Continue(pkt: Packet) | Stop(status: nat)

  function ParseBlock(value: seq<byte>): Block {
    UnpackBlock(ParseInt(value))
  }

  function UnpackBlock(n: nat): Block {
    Block(n / 16, (n / 8) % 2 == 1, 16 * Pow2(n % 8), ((n - n % 16) * Pow2(n % 8)) % U32)
  }

  /** The effect of one parsed option on the packet: the switch in coap_parse_message. */
  function Apply(pkt: Packet, number: nat, value: seq<byte>): Step {
    var p := pkt.(options := pkt.options + {number});
    if number == CONTENT_TYPE then Continue(p.(contentType := ParseInt(value)))
    else if number == MAX_AGE then Continue(p.(maxAge := ParseInt(value)))
    else if number == PROXY_URI then Stop(PROXYING_NOT_SUPPORTED_5_05)
    else if number == ETAG then Continue(p.(etag := value[..Min(COAP_ETAG_LEN, |value|)]))
    else if number == URI_HOST then Continue(p.(uriHost := value))
    else if number == LOCATION_PATH then Continue(p.(locationPath := Merge(p.locationPath, value, SLASH)))
    else if number == URI_PORT then Continue(p.(uriPort := ParseInt(value) % U16))
    else if number == LOCATION_QUERY then Continue(p.(locationQuery := Merge(p.locationQuery, value, AMPERSAND)))
    else if number == URI_PATH then Continue(p.(uriPath := Merge(p.uriPath, value, SLASH)))
    else if number == OBSERVE then Continue(p.(observe := ParseInt(value) % U16))
    else if number == TOKEN then Continue(p.(token := value[..Min(COAP_TOKEN_LEN, |value|)]))
    else if number == ACCEPT then
      if |p.accept| < COAP_MAX_ACCEPT_NUM then Continue(p.(accept := p.accept + [ParseInt(value) % U16]))
          else Continue(p)
    else if number == IF_MATCH then Continue(p.(ifMatch := value[..Min(COAP_ETAG_LEN, |value|)]))
    else if number == FENCE_POST then Continue(p)
    else if number == URI_QUERY then Continue(p.(uriQuery := Merge(p.uriQuery, value, AMPERSAND)))
    else if number == BLOCK2 then Continue(p.(block2 := ParseBlock(value)))
    else if number == BLOCK1 then Continue(p.(block1 := ParseBlock(value)))
    else if number == IF_NONE_MATCH then Continue(p)
    else if number % 2 == 1 then Stop(BAD_OPTION_4_02)
    else Continue(p)
  }

  /** Overrun: the source would read beyond the received bytes. */
  datatype Outcome = Parsed(pkt: Packet) | Failed(status: nat) | Overrun

  function HeaderSize(data: seq<byte>): nat
    requires data != []
  {
    if data[0] % 16 < 15 then 1 else 2
  }

  function ValueSize(data: seq<byte>): nat
    requires data != [] && HeaderSize(data) <= |data|
  {
    if data[0] % 16 < 15 then data[0] as int % 16 else data[1] as int + 15
  }

  /** One option header and its value are inside `data`. */
  predicate OptionFits(data: seq<byte>) {
    data != [] && HeaderSize(data) <= |data| && HeaderSize(data) + ValueSize(data) <= |data|
  }

  /** The option loop: `count` options to go, option number so far `number` (a uint8_t). */
  function ParseOptions(data: seq<byte>, count: nat, number: nat, pkt: Packet): Outcome {
    if count == 0 then Parsed(pkt.(payload := data[..Min(|data|, REST_MAX_CHUNK_SIZE)]))
    else if !OptionFits(data) then Overrun
    else
      var next := (number + data[0] / 16) % 256;
      var body := HeaderSize(data);
      var end := body + ValueSize(data);
      match Apply(pkt, next, data[body..end])
      case Stop(status) => Failed(status)
      case Continue(p) => ParseOptions(data[end..], count - 1, next, p)
  }

  function ParseMessage(data: seq<byte>): Outcome {
    if |data| < COAP_HEADER_LEN then Overrun
    else if data[0] / 64 != 1 then Failed(BAD_REQUEST_4_00)
    else ParseOptions(data[COAP_HEADER_LEN..], data[0] % 16, 0,
                      Blank(data[0] / 16 % 4, data[1], data[2] as int * 256 + data[3]))
  }
}
