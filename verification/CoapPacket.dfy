/**
 The CoAP packet structure and the option table
 (cc2530/contiki_os/apps/er-coap-07/er-coap-07.h).
*/
module CoapPacket {
  import opened Bytes

  const COAP_HEADER_LEN := 4
  const COAP_ETAG_LEN := 8
  const COAP_TOKEN_LEN := 8
  const COAP_MAX_ACCEPT_NUM := 2
  const COAP_MAX_HEADER_SIZE := 50
  const REST_MAX_CHUNK_SIZE := 128

  const BAD_REQUEST_4_00 := 128
  const BAD_OPTION_4_02 := 130
  const PROXYING_NOT_SUPPORTED_5_05 := 165

  const CONTENT_TYPE := 1
  const MAX_AGE := 2
  const PROXY_URI := 3
  const ETAG := 4
  const URI_HOST := 5
  const LOCATION_PATH := 6
  const URI_PORT := 7
  const LOCATION_QUERY := 8
  const URI_PATH := 9
  const OBSERVE := 10
  const TOKEN := 11
  const ACCEPT := 12
  const IF_MATCH := 13
  const FENCE_POST := 14
  const URI_QUERY := 15
  const BLOCK2 := 17
  const BLOCK1 := 19
  const IF_NONE_MATCH := 21

  const SLASH: byte := 47
  const AMPERSAND: byte := 38

  /** The options that the serializer knows how to write. */
  predicate Known(number: nat) {
    1 <= number <= 13 || number == 15 || number == 17 || number == 19 || number == 21
  }

  datatype Block = Block(num: nat, more: bool, size: nat, offset: nat)

  /** The fields of coap_packet_t; `options` is its bitmap. */
  datatype Packet = Packet(
    kind: nat, code: byte, mid: nat,
    options: set<nat>,
    contentType: nat, maxAge: nat, proxyUri: seq<byte>, etag: seq<byte>, uriHost: seq<byte>,
    locationPath: seq<byte>, uriPort: nat, locationQuery: seq<byte>, uriPath: seq<byte>,
    observe: nat, token: seq<byte>, accept: seq<nat>, ifMatch: seq<byte>,
    block2: Block, block1: Block, uriQuery: seq<byte>,
    payload: seq<byte>)

  const NO_BLOCK := Block(0, false, 0, 0)

  /** A zeroed packet with the three header fields, as memset leaves it. */
  function Blank(kind: nat, code: byte, mid: nat): Packet {
    Packet(kind, code, mid, {}, 0, 0, [], [], [], [], 0, [], [], 0, [], [], [], NO_BLOCK, NO_BLOCK, [], [])
  }

  predicate ValidBlock(b: Block) {
    b.num <= 0xFFFFF && 16 <= b.size <= 2048
  }

  /** The ranges that the field types and the coap_set_* setters guarantee. */
  ghost predicate ValidPacket(p: Packet) {
    && p.kind < 4 && p.mid < U16
    && (forall n :: n in p.options ==> Known(n))
    && p.contentType < U32 && p.maxAge < U32 && p.uriPort < U16 && p.observe < U16
    && |p.etag| <= COAP_ETAG_LEN && |p.ifMatch| <= COAP_ETAG_LEN && |p.token| <= COAP_TOKEN_LEN
    && |p.accept| <= COAP_MAX_ACCEPT_NUM
    && (ACCEPT in p.options ==> p.accept != [])
    && (forall i :: 0 <= i < |p.accept| ==> p.accept[i] < U16)
    && (BLOCK2 in p.options ==> ValidBlock(p.block2))
    && (BLOCK1 in p.options ==> ValidBlock(p.block1))
    && |p.payload| <= REST_MAX_CHUNK_SIZE
  }
}
