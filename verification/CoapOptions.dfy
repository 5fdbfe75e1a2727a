/**
 What the parser makes of any datagram, said of the options that its header bytes announce: which option is refused and
 with which error, and what every field of an accepted message is.
*/
module CoapOptions {
  import opened Numbers
  import opened Bytes
  import opened CoapPacket
  import opened CoapWire

  // ---------------------------------------------------------------- the options of a datagram

  /** The options that are inside the data, at most `count` of them; their numbers are running sums of the deltas. */
  function Announced(data: seq<byte>, count: nat, number: nat): (opts: seq<RawOption>)
    ensures |opts| <= count
    decreases count
  {
    if count == 0 || !OptionFits(data) then []
    else
      var body := HeaderSize(data);
      var end := body + ValueSize(data);
      [RawOption(number + data[0] / 16, data[body..end])] + Announced(data[end..], count - 1, number + data[0] / 16)
  }

  /** The bytes behind those options. */
  function Behind(data: seq<byte>, count: nat): seq<byte>
    decreases count
  {
    if count == 0 || !OptionFits(data) then data else Behind(data[HeaderSize(data) + ValueSize(data)..], count - 1)
  }

  /** Proxy-Uri is not supported, and an odd number that is not known is a critical option. */
  predicate Refused(number: nat) {
    number == PROXY_URI || (number % 2 == 1 && !Known(number))
  }

  function FirstRefused(opts: seq<RawOption>): (k: nat)
    ensures k <= |opts| && forall j | 0 <= j < k :: !Refused(opts[j].number)
    ensures k < |opts| ==> Refused(opts[k].number)
  {
    if opts == [] || Refused(opts[0].number) then 0 else 1 + FirstRefused(opts[1..])
  }

  /** The values of one option, in order. */
  function ValuesOf(opts: seq<RawOption>, number: nat): seq<seq<byte>> {
    if opts == [] then []
    else (if opts[0].number == number then [opts[0].value] else []) + ValuesOf(opts[1..], number)
  }

  function NumbersOf(opts: seq<RawOption>): (r: set<nat>)
    ensures forall n :: n in r <==> exists k :: 0 <= k < |opts| && opts[k].number == n
  {
    set k | 0 <= k < |opts| :: opts[k].number
  }

  // ---------------------------------------------------------------- the fields of the message

  /** An integer option: the last one given counts. */
  function LastInt(values: seq<seq<byte>>, before: nat, modulus: nat): nat
    requires modulus > 0
  {
    if values == [] then before else ParseInt(values[|values| - 1]) % modulus
  }

  /** An opaque option: the last one given counts, up to a length. */
  function LastBytes(values: seq<seq<byte>>, before: seq<byte>, length: nat): seq<byte> {
    if values == [] then before
    else
      var v := values[|values| - 1];
      v[..Min(length, |v|)]
  }

  function LastBlock(values: seq<seq<byte>>, before: Block): Block {
    if values == [] then before else ParseBlock(values[|values| - 1])
  }

  function Ints(values: seq<seq<byte>>): (r: seq<nat>)
    ensures |r| == |values| && forall i | 0 <= i < |r| :: r[i] == ParseInt(values[i]) % U16
  {
    seq(|values|, i requires 0 <= i < |values| => ParseInt(values[i]) % U16)
  }

  /** The first integers given, as many as there is room for. */
  function FirstInts(values: seq<seq<byte>>, before: seq<nat>): seq<nat> {
    var all := before + Ints(values);
    if |before| >= COAP_MAX_ACCEPT_NUM then before else all[..Min(|all|, COAP_MAX_ACCEPT_NUM)]
  }

  ghost predicate IntFields(p: Packet, opts: seq<RawOption>, q: Packet) {
    && q.contentType == LastInt(ValuesOf(opts, CONTENT_TYPE), p.contentType, U32)
    && q.maxAge == LastInt(ValuesOf(opts, MAX_AGE), p.maxAge, U32)
    && q.uriPort == LastInt(ValuesOf(opts, URI_PORT), p.uriPort, U16)
    && q.observe == LastInt(ValuesOf(opts, OBSERVE), p.observe, U16)
    && q.accept == FirstInts(ValuesOf(opts, ACCEPT), p.accept)
    && q.block2 == LastBlock(ValuesOf(opts, BLOCK2), p.block2)
    && q.block1 == LastBlock(ValuesOf(opts, BLOCK1), p.block1)
  }

  ghost predicate ByteFields(p: Packet, opts: seq<RawOption>, q: Packet) {
    && q.etag == LastBytes(ValuesOf(opts, ETAG), p.etag, COAP_ETAG_LEN)
    && q.token == LastBytes(ValuesOf(opts, TOKEN), p.token, COAP_TOKEN_LEN)
    && q.ifMatch == LastBytes(ValuesOf(opts, IF_MATCH), p.ifMatch, COAP_ETAG_LEN)
    && q.uriHost == (var values := ValuesOf(opts, URI_HOST);
                     if values == [] then p.uriHost else values[|values| - 1])
  }

  ghost predicate TextFields(p: Packet, opts: seq<RawOption>, q: Packet) {
    && q.locationPath == MergeAll(p.locationPath, ValuesOf(opts, LOCATION_PATH), SLASH)
    && q.locationQuery == MergeAll(p.locationQuery, ValuesOf(opts, LOCATION_QUERY), AMPERSAND)
    && q.uriPath == MergeAll(p.uriPath, ValuesOf(opts, URI_PATH), SLASH)
    && q.uriQuery == MergeAll(p.uriQuery, ValuesOf(opts, URI_QUERY), AMPERSAND)
  }

  ghost predicate OtherFields(p: Packet, opts: seq<RawOption>, q: Packet) {
    && q.kind == p.kind && q.code == p.code && q.mid == p.mid && q.proxyUri == p.proxyUri
    && q.options == p.options + NumbersOf(opts)
  }

  /** q is p with the options taken in. */
  ghost predicate Collected(p: Packet, opts: seq<RawOption>, q: Packet) {
    IntFields(p, opts, q) && ByteFields(p, opts, q) && TextFields(p, opts, q) && OtherFields(p, opts, q)
  }

  // ---------------------------------------------------------------- one option

  lemma ApplyRefuses(p: Packet, number: nat, value: seq<byte>)
    ensures Apply(p, number, value)
         == if Refused(number) then Stop(if number == PROXY_URI then PROXYING_NOT_SUPPORTED_5_05 else BAD_OPTION_4_02)
            else Continue(Apply(p, number, value).pkt)
  {
  }

  lemma AppliedInts(p: Packet, n: nat, value: seq<byte>)
    requires !Refused(n)
    ensures var q := Apply(p, n, value).pkt;
            && q.contentType == (if n == CONTENT_TYPE then ParseInt(value) else p.contentType)
            && q.maxAge == (if n == MAX_AGE then ParseInt(value) else p.maxAge)
            && q.uriPort == (if n == URI_PORT then ParseInt(value) % U16 else p.uriPort)
            && q.observe == (if n == OBSERVE then ParseInt(value) % U16 else p.observe)
            && q.accept == (if n == ACCEPT && |p.accept| < COAP_MAX_ACCEPT_NUM then p.accept + [ParseInt(value) % U16]
                            else p.accept)
            && q.block2 == (if n == BLOCK2 then ParseBlock(value) else p.block2)
            && q.block1 == (if n == BLOCK1 then ParseBlock(value) else p.block1)
  {
    hide ParseInt, ParseBlock, Merge;
  }

  lemma AppliedBytes(p: Packet, n: nat, value: seq<byte>)
    requires !Refused(n)
    ensures var q := Apply(p, n, value).pkt;
            && q.etag == (if n == ETAG then value[..Min(COAP_ETAG_LEN, |value|)] else p.etag)
            && q.token == (if n == TOKEN then value[..Min(COAP_TOKEN_LEN, |value|)] else p.token)
            && q.ifMatch == (if n == IF_MATCH then value[..Min(COAP_ETAG_LEN, |value|)] else p.ifMatch)
            && q.uriHost == (if n == URI_HOST then value else p.uriHost)
  {
    hide ParseInt, ParseBlock, Merge;
  }

  lemma AppliedTexts(p: Packet, n: nat, value: seq<byte>)
    requires !Refused(n)
    ensures var q := Apply(p, n, value).pkt;
            && q.locationPath == (if n == LOCATION_PATH then Merge(p.locationPath, value, SLASH) else p.locationPath)
            && q.locationQuery
               == (if n == LOCATION_QUERY then Merge(p.locationQuery, value, AMPERSAND) else p.locationQuery)
            && q.uriPath == (if n == URI_PATH then Merge(p.uriPath, value, SLASH) else p.uriPath)
            && q.uriQuery == (if n == URI_QUERY then Merge(p.uriQuery, value, AMPERSAND) else p.uriQuery)
  {
    hide ParseInt, ParseBlock, Merge;
  }

  lemma AppliedOthers(p: Packet, n: nat, value: seq<byte>)
    requires !Refused(n)
    ensures var q := Apply(p, n, value).pkt;
            && q.kind == p.kind && q.code == p.code && q.mid == p.mid && q.proxyUri == p.proxyUri
            && q.payload == p.payload && q.options == p.options + {n}
  {
    hide ParseInt, ParseBlock, Merge;
  }

  // ---------------------------------------------------------------- a list of options

  lemma ValuesCons(o: RawOption, rest: seq<RawOption>, n: nat)
    ensures ValuesOf([o] + rest, n) == if o.number == n then [o.value] + ValuesOf(rest, n) else ValuesOf(rest, n)
  {
    assert ([o] + rest)[1..] == rest;
  }

  lemma LastIntCons(v: seq<byte>, values: seq<seq<byte>>, before: nat, modulus: nat)
    requires modulus > 0
    ensures LastInt([v] + values, before, modulus) == LastInt(values, ParseInt(v) % modulus, modulus)
  {
    hide ParseInt;
  }

  lemma LastBytesCons(v: seq<byte>, values: seq<seq<byte>>, before: seq<byte>, length: nat)
    ensures LastBytes([v] + values, before, length) == LastBytes(values, v[..Min(length, |v|)], length)
  {
  }

  lemma LastBlockCons(v: seq<byte>, values: seq<seq<byte>>, before: Block)
    ensures LastBlock([v] + values, before) == LastBlock(values, ParseBlock(v))
  {
    hide ParseBlock;
  }

  lemma IntsCons(v: seq<byte>, values: seq<seq<byte>>)
    ensures Ints([v] + values) == [ParseInt(v) % U16] + Ints(values)
  {
    hide ParseInt;
  }

  /** As many numbers as there is room for, of two lists. */
  lemma RoomFor(before: seq<nat>, x: nat, more: seq<nat>, room: nat)
    requires |before| < room
    ensures before + ([x] + more) == (before + [x]) + more
    ensures |before| + 1 == room ==> (before + ([x] + more))[..room] == before + [x]
  {
  }

  lemma FirstIntsCons(v: seq<byte>, values: seq<seq<byte>>, before: seq<nat>)
    ensures FirstInts([v] + values, before)
         == FirstInts(values, if |before| < COAP_MAX_ACCEPT_NUM then before + [ParseInt(v) % U16] else before)
  {
    hide ParseInt, Ints;
    IntsCons(v, values);
    if |before| < COAP_MAX_ACCEPT_NUM {
      RoomFor(before, ParseInt(v) % U16, Ints(values), COAP_MAX_ACCEPT_NUM);
    }
  }

  lemma MergeAllCons(dst: seq<byte>, v: seq<byte>, values: seq<seq<byte>>, sep: byte)
    ensures MergeAll(dst, [v] + values, sep) == MergeAll(Merge(dst, v, sep), values, sep)
  {
    hide Merge;
    assert ([v] + values)[1..] == values;
  }

  lemma NothingCollected(p: Packet)
    ensures Collected(p, [], p)
  {
  }

  lemma IntStep(p: Packet, o: RawOption, rest: seq<RawOption>, q: Packet)
    requires !Refused(o.number) && IntFields(Apply(p, o.number, o.value).pkt, rest, q)
    ensures IntFields(p, [o] + rest, q)
  {
    hide Apply, ParseInt, ParseBlock, ValuesOf, LastInt, LastBlock, FirstInts, Refused;
    var n, v := o.number, o.value;
    AppliedInts(p, n, v);
    ValuesCons(o, rest, CONTENT_TYPE);
    ValuesCons(o, rest, MAX_AGE);
    ValuesCons(o, rest, URI_PORT);
    ValuesCons(o, rest, OBSERVE);
    ValuesCons(o, rest, ACCEPT);
    ValuesCons(o, rest, BLOCK2);
    ValuesCons(o, rest, BLOCK1);
    LastIntCons(v, ValuesOf(rest, CONTENT_TYPE), p.contentType, U32);
    LastIntCons(v, ValuesOf(rest, MAX_AGE), p.maxAge, U32);
    LastIntCons(v, ValuesOf(rest, URI_PORT), p.uriPort, U16);
    LastIntCons(v, ValuesOf(rest, OBSERVE), p.observe, U16);
    FirstIntsCons(v, ValuesOf(rest, ACCEPT), p.accept);
    LastBlockCons(v, ValuesOf(rest, BLOCK2), p.block2);
    LastBlockCons(v, ValuesOf(rest, BLOCK1), p.block1);
  }

  lemma ByteStep(p: Packet, o: RawOption, rest: seq<RawOption>, q: Packet)
    requires !Refused(o.number) && ByteFields(Apply(p, o.number, o.value).pkt, rest, q)
    ensures ByteFields(p, [o] + rest, q)
  {
    hide Apply, ValuesOf, LastBytes, Refused;
    var v := o.value;
    AppliedBytes(p, o.number, v);
    ValuesCons(o, rest, ETAG);
    ValuesCons(o, rest, TOKEN);
    ValuesCons(o, rest, IF_MATCH);
    ValuesCons(o, rest, URI_HOST);
    LastBytesCons(v, ValuesOf(rest, ETAG), p.etag, COAP_ETAG_LEN);
    LastBytesCons(v, ValuesOf(rest, TOKEN), p.token, COAP_TOKEN_LEN);
    LastBytesCons(v, ValuesOf(rest, IF_MATCH), p.ifMatch, COAP_ETAG_LEN);
  }

  lemma TextStep(p: Packet, o: RawOption, rest: seq<RawOption>, q: Packet)
    requires !Refused(o.number) && TextFields(Apply(p, o.number, o.value).pkt, rest, q)
    ensures TextFields(p, [o] + rest, q)
  {
    hide Apply, ValuesOf, MergeAll, Merge, Refused;
    var v := o.value;
    AppliedTexts(p, o.number, v);
    ValuesCons(o, rest, LOCATION_PATH);
    ValuesCons(o, rest, LOCATION_QUERY);
    ValuesCons(o, rest, URI_PATH);
    ValuesCons(o, rest, URI_QUERY);
    MergeAllCons(p.locationPath, v, ValuesOf(rest, LOCATION_PATH), SLASH);
    MergeAllCons(p.locationQuery, v, ValuesOf(rest, LOCATION_QUERY), AMPERSAND);
    MergeAllCons(p.uriPath, v, ValuesOf(rest, URI_PATH), SLASH);
    MergeAllCons(p.uriQuery, v, ValuesOf(rest, URI_QUERY), AMPERSAND);
  }

  lemma NumbersCons(o: RawOption, rest: seq<RawOption>)
    ensures NumbersOf([o] + rest) == {o.number} + NumbersOf(rest)
  {
    var opts := [o] + rest;
    forall n
      ensures n in NumbersOf(opts) <==> n == o.number || n in NumbersOf(rest)
    {
      assert opts[0] == o;
      if k :| 0 <= k < |rest| && rest[k].number == n {
        assert opts[k + 1].number == n;
      }
      if k :| 0 <= k < |opts| && opts[k].number == n && k > 0 {
        assert rest[k - 1].number == n;
      }
    }
  }

  lemma OtherStep(p: Packet, o: RawOption, rest: seq<RawOption>, q: Packet)
    requires !Refused(o.number) && OtherFields(Apply(p, o.number, o.value).pkt, rest, q)
    ensures OtherFields(p, [o] + rest, q)
  {
    hide Apply, Refused, NumbersOf;
    AppliedOthers(p, o.number, o.value);
    NumbersCons(o, rest);
  }

  lemma CollectedStep(p: Packet, o: RawOption, rest: seq<RawOption>, q: Packet)
    requires !Refused(o.number) && Collected(Apply(p, o.number, o.value).pkt, rest, q)
    ensures Collected(p, [o] + rest, q)
  {
    hide Apply, Refused, IntFields, ByteFields, TextFields, OtherFields;
    IntStep(p, o, rest, q);
    ByteStep(p, o, rest, q);
    TextStep(p, o, rest, q);
    OtherStep(p, o, rest, q);
  }

  // ---------------------------------------------------------------- every datagram

  /** What the options of a datagram come to. */
  ghost predicate Outcomes(r: Outcome, opts: seq<RawOption>, count: nat, p: Packet, behind: seq<byte>) {
    var k := FirstRefused(opts);
    if k < |opts| then
      r == Failed(if opts[k].number == PROXY_URI then PROXYING_NOT_SUPPORTED_5_05 else BAD_OPTION_4_02)
    else if |opts| < count then r == Overrun
    else
      && r.Parsed? && Collected(p, opts, r.pkt)
      && r.pkt.payload == behind[..Min(|behind|, REST_MAX_CHUNK_SIZE)]
  }

  lemma OutcomesCons(r: Outcome, o: RawOption, rest: seq<RawOption>, count: nat, p: Packet, behind: seq<byte>)
    requires count > 0 && |rest| <= count - 1 && !Refused(o.number)
    requires Outcomes(r, rest, count - 1, Apply(p, o.number, o.value).pkt, behind)
    ensures Outcomes(r, [o] + rest, count, p, behind)
  {
    hide Apply, Collected, Refused;
    var opts := [o] + rest;
    assert opts[1..] == rest && opts[0] == o;
    assert FirstRefused(opts) == 1 + FirstRefused(rest);
    if r.Parsed? && FirstRefused(rest) == |rest| && |rest| == count - 1 {
      CollectedStep(p, o, rest, r.pkt);
    }
  }

  /** One option of the loop, and what the three functions on the data make of it. */
  lemma FirstOption(data: seq<byte>, count: nat, number: nat, p: Packet)
    requires count > 0 && OptionFits(data) && number + data[0] / 16 < 256
    ensures var n, end := number + data[0] / 16, HeaderSize(data) + ValueSize(data);
            var value := data[HeaderSize(data)..end];
            && Announced(data, count, number) == [RawOption(n, value)] + Announced(data[end..], count - 1, n)
            && Behind(data, count) == Behind(data[end..], count - 1)
            && ParseOptions(data, count, number, p)
               == match Apply(p, n, value)
                  case Stop(status) => Failed(status)
                  case Continue(q) => ParseOptions(data[end..], count - 1, n, q)
  {
    hide Apply;
  }

  lemma {:induction false} OptionsExact(data: seq<byte>, count: nat, number: nat, p: Packet)
    requires number + 15 * count < 256
    ensures Outcomes(ParseOptions(data, count, number, p),
                     Announced(data, count, number), count, p, Behind(data, count))
    decreases count
  {
    hide Apply, Outcomes, Refused, ParseOptions, Announced, Behind;
    if count == 0 {
      NothingLeft(data, number, p);
    } else if !OptionFits(data) {
      NothingFits(data, count, number, p);
    } else {
      FirstOption(data, count, number, p);
      var n, end := number + data[0] / 16, HeaderSize(data) + ValueSize(data);
      var value := data[HeaderSize(data)..end];
      ApplyRefuses(p, n, value);
      var o, rest := RawOption(n, value), Announced(data[end..], count - 1, n);
      var r := ParseOptions(data, count, number, p);
      if Refused(n) {
        RefusedFirst(r, o, rest, count, p, Behind(data, count));
      } else {
        OptionsExact(data[end..], count - 1, n, Apply(p, n, value).pkt);
        OutcomesCons(r, o, rest, count, p, Behind(data, count));
      }
    }
  }

  lemma NothingLeft(data: seq<byte>, number: nat, p: Packet)
    ensures Outcomes(ParseOptions(data, 0, number, p), Announced(data, 0, number), 0, p, Behind(data, 0))
  {
    var q := p.(payload := data[..Min(|data|, REST_MAX_CHUNK_SIZE)]);
    assert Collected(p, [], q);
  }

  lemma NothingFits(data: seq<byte>, count: nat, number: nat, p: Packet)
    requires count > 0 && !OptionFits(data)
    ensures Outcomes(ParseOptions(data, count, number, p),
                     Announced(data, count, number), count, p, Behind(data, count))
  {
  }

  lemma RefusedFirst(r: Outcome, o: RawOption, rest: seq<RawOption>, count: nat, p: Packet, behind: seq<byte>)
    requires Refused(o.number)
    requires r == Failed(if o.number == PROXY_URI then PROXYING_NOT_SUPPORTED_5_05 else BAD_OPTION_4_02)
    ensures Outcomes(r, [o] + rest, count, p, behind)
  {
    assert ([o] + rest)[0] == o;
  }

  function OptionsOf(data: seq<byte>): seq<RawOption>
    requires |data| >= COAP_HEADER_LEN
  {
    Announced(data[COAP_HEADER_LEN..], data[0] % 16, 0)
  }

  /** Every datagram: the first refused option decides; otherwise all announced options are in the message. */
  lemma DatagramExact(data: seq<byte>)
    requires |data| >= COAP_HEADER_LEN && data[0] / 64 == 1
    ensures Outcomes(ParseMessage(data), OptionsOf(data), data[0] % 16,
                     Blank(data[0] / 16 % 4, data[1], data[2] as int * 256 + data[3]),
                     Behind(data[COAP_HEADER_LEN..], data[0] % 16))
  {
    hide Outcomes, ParseOptions, Announced, Behind;
    OptionsExact(data[COAP_HEADER_LEN..], data[0] % 16, 0,
                 Blank(data[0] / 16 % 4, data[1], data[2] as int * 256 + data[3]));
  }

  /** No accepted message has an odd option number that is not known. */
  lemma AcceptedKnown(data: seq<byte>)
    requires ParseMessage(data).Parsed?
    ensures forall n | n in ParseMessage(data).pkt.options && n % 2 == 1 :: Known(n)
    ensures PROXY_URI !in ParseMessage(data).pkt.options
  {
    hide ParseOptions, Announced, Behind;
    DatagramExact(data);
    var opts := OptionsOf(data);
    forall n | n in ParseMessage(data).pkt.options
      ensures !Refused(n)
    {
      var k :| 0 <= k < |opts| && opts[k].number == n;
      assert !Refused(opts[k].number);
    }
  }

  /** The first refused option is an unknown odd one. */
  ghost predicate CriticalFirst(opts: seq<RawOption>) {
    exists k :: 0 <= k < |opts| && opts[k].number % 2 == 1 && !Known(opts[k].number)
                && forall j | 0 <= j < k :: opts[j].number != PROXY_URI
                                         && (opts[j].number % 2 == 1 ==> Known(opts[j].number))
  }

  lemma CriticalExact(opts: seq<RawOption>)
    ensures var k := FirstRefused(opts);
            CriticalFirst(opts) <==> k < |opts| && opts[k].number != PROXY_URI
  {
    var k := FirstRefused(opts);
    if k < |opts| && opts[k].number != PROXY_URI {
      assert opts[k].number % 2 == 1 && !Known(opts[k].number);
    }
    if CriticalFirst(opts) {
      var j :| 0 <= j < |opts| && opts[j].number % 2 == 1 && !Known(opts[j].number)
               && forall i | 0 <= i < j :: opts[i].number != PROXY_URI
                                        && (opts[i].number % 2 == 1 ==> Known(opts[i].number));
      assert Refused(opts[j].number);
      assert k <= j;
      assert k == j;
    }
  }

  /** 4.02 is answered exactly to a datagram of version 1 whose first refused option is an unknown odd one. */
  lemma BadOptionExact(data: seq<byte>)
    ensures ParseMessage(data) == Failed(BAD_OPTION_4_02) <==>
            |data| >= COAP_HEADER_LEN && data[0] / 64 == 1 && CriticalFirst(OptionsOf(data))
  {
    hide ParseOptions, OptionsOf, Behind, Collected, CriticalFirst;
    if |data| >= COAP_HEADER_LEN && data[0] / 64 == 1 {
      DatagramExact(data);
      CriticalExact(OptionsOf(data));
    }
  }

  /** 4.00 is answered exactly to another version. */
  lemma BadRequestExact(data: seq<byte>)
    ensures ParseMessage(data) == Failed(BAD_REQUEST_4_00) <==> |data| >= COAP_HEADER_LEN && data[0] / 64 != 1
  {
    hide ParseOptions, OptionsOf, Behind, Collected;
    if |data| >= COAP_HEADER_LEN && data[0] / 64 == 1 {
      DatagramExact(data);
    }
  }

  lemma TwoOptions()
    ensures Announced([0xE0, 0x90], 2, 0) == [RawOption(14, []), RawOption(23, [])]
  {
    var both: seq<byte> := [0xE0, 0x90];
    var last: seq<byte> := [0x90];
    assert both[1..] == last && both[1..1] == [] && last[1..1] == [];
    assert OptionFits(both) && OptionFits(last);
    assert Announced(last, 1, 14) == [RawOption(23, [])];
  }

  /** A fence post and then option 23, which nobody knows: the answer is 4.02. */
  lemma UnknownCritical()
    ensures ParseMessage([0x42, 1, 0, 1, 0xE0, 0x90]) == Failed(BAD_OPTION_4_02)
  {
    hide ParseMessage, Announced;
    var data: seq<byte> := [0x42, 1, 0, 1, 0xE0, 0x90];
    assert data[COAP_HEADER_LEN..] == [0xE0, 0x90];
    TwoOptions();
    assert OptionsOf(data)[1].number == 23;
    BadOptionExact(data);
  }

  // ---------------------------------------------------------------- integer values

  /** The number that the bytes stand for, most significant first. */
  function BigEndian(bytes: seq<byte>): nat {
    if bytes == [] then 0 else bytes[0] * Pow2(8 * (|bytes| - 1)) + BigEndian(bytes[1..])
  }

  lemma Pow2Sum(j: nat, k: nat)
    ensures Pow2(k + j) == Pow2(j) * Pow2(k)
    decreases j
  {
    if j > 0 {
      Pow2Sum(j - 1, k);
    }
  }

  lemma Pow2Eight(k: nat)
    ensures Pow2(k + 8) == 256 * Pow2(k)
  {
    Pow2Sum(8, k);
    assert Pow2(8) == 256;
  }

  lemma {:induction false} BigEndianAppend(front: seq<byte>, last: byte)
    ensures BigEndian(front + [last]) == 256 * BigEndian(front) + last
    decreases |front|
  {
    if front == [] {
      assert front + [last] == [last];
      assert BigEndian([last]) == last * Pow2(0) + BigEndian([]);
    } else {
      assert (front + [last])[1..] == front[1..] + [last];
      BigEndianAppend(front[1..], last);
      Pow2Eight(8 * (|front| - 1));
      Times256(front[0], Pow2(8 * (|front| - 1)));
    }
  }

  lemma Times256(a: nat, b: nat)
    ensures a * (256 * b) == 256 * (a * b)
  {
  }

  lemma ModTimes256(n: nat, last: byte)
    ensures ((n % U32) * 256) % U32 + last == (256 * n + last) % U32
  {
    var q, r := n / U32, n % U32;
    var q2, r2 := (r * 256) / U32, (r * 256) % U32;
    assert r2 == 256 * (r - q2 * 0x100_0000);
    QuotientRest(256 * n + last, U32, 256 * q + q2, r2 + last);
  }

  /** An integer option stands for its big-endian number modulo 2^32. */
  lemma {:induction false} ParseIntExact(bytes: seq<byte>)
    ensures ParseInt(bytes) == BigEndian(bytes) % U32
    decreases |bytes|
  {
    hide BigEndian;
    if bytes == [] {
      EmptyBigEndian();
    } else {
      var front, last := bytes[..|bytes| - 1], bytes[|bytes| - 1];
      ParseIntExact(front);
      BigEndianAppend(front, last);
      assert front + [last] == bytes;
      ModTimes256(BigEndian(front), last);
    }
  }

  lemma EmptyBigEndian()
    ensures BigEndian([]) == 0
  {
  }
}
