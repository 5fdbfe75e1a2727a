/** Parsing the bytes of an encoded option list is folding its options into the packet. */
module CoapFold {
  import opened Bytes
  import opened Slices
  import opened CoapPacket
  import opened CoapWire
  import opened CoapMessage

  /** The parser records the fence posts it passes as option 14. */
  function Fenced(pkt: Packet, current: nat, number: nat): Packet {
    if number > current + 15 then pkt.(options := pkt.options + {FENCE_POST}) else pkt
  }

  function FoldOptions(pkt: Packet, current: nat, opts: seq<RawOption>): Step
    decreases opts
  {
    if opts == [] then Continue(pkt)
    else
      match Apply(Fenced(pkt, current, opts[0].number), opts[0].number, opts[0].value)
      case Stop(status) => Stop(status)
      case Continue(p) => FoldOptions(p, opts[0].number, opts[1..])
  }

  /** What a parse of `count` more options makes of a fold result. */
  function Resume(s: Step, rest: seq<byte>, count: nat, number: nat): Outcome {
    match s
    case Stop(status) => Failed(status)
    case Continue(p) => ParseOptions(rest, count, number, p)
  }

  ghost predicate Encodable(opts: seq<RawOption>) {
    forall i :: 0 <= i < |opts| ==> opts[i].number < ALL && |opts[i].value| < 270
  }

  lemma HeaderBytes(delta: nat, length: nat)
    requires delta <= 15 && length < 270
    ensures var h := OptionHeader(delta, length);
            && h[0] / 16 == delta && HeaderSize(h) == |h| && ValueSize(h) == length
            && (|h| == 2 <==> length >= 15)
  {
  }

  lemma HeaderParsed(delta: nat, value: seq<byte>, rest: seq<byte>)
    requires delta <= 15 && |value| < 270
    ensures var data := OptionHeader(delta, |value|) + value + rest;
            OptionFits(data) && data[0] / 16 == delta
            && ValueSize(data) == |value|
            && HeaderSize(data) == |OptionHeader(delta, |value|)|
            && data[HeaderSize(data)..HeaderSize(data) + |value|] == value
            && data[HeaderSize(data) + |value|..] == rest
  {
    hide OptionHeader;
    HeaderBytes(delta, |value|);
    var h := OptionHeader(delta, |value|);
    var data := h + value + rest;
    assert data[0] == h[0];
    assert |value| >= 15 ==> data[1] == h[1];
    assert data[|h|..|h| + |value|] == value;
    assert data[|h| + |value|..] == rest;
  }

  lemma HeaderStep(delta: nat, value: seq<byte>, rest: seq<byte>, count: nat, number: nat, pkt: Packet)
    requires delta <= 15 && |value| < 270 && count > 0 && number + delta < 256
    ensures ParseOptions(OptionHeader(delta, |value|) + value + rest, count, number, pkt)
         == Resume(Apply(pkt, number + delta, value), rest, count - 1, number + delta)
  {
    hide Apply, OptionHeader, OptionFits, HeaderSize, ValueSize;
    HeaderParsed(delta, value, rest);
    var data := OptionHeader(delta, |value|) + value + rest;
    assert (number + data[0] / 16) % 256 == number + delta;
  }

  lemma FenceApply(pkt: Packet)
    ensures Apply(pkt, FENCE_POST, []) == Continue(pkt.(options := pkt.options + {FENCE_POST}))
  {
  }

  lemma FenceStep(number: nat, current: nat, rest: seq<byte>, count: nat, pkt: Packet)
    requires current <= number < ALL && count >= FenceCount(number, current)
    ensures FenceCount(number, current) <= 1
    ensures ParseOptions(FencePosts(number, current) + rest, count, current, pkt)
         == ParseOptions(rest, count - FenceCount(number, current), AfterFences(number, current),
                         Fenced(pkt, current, number))
  {
    hide Apply, ParseOptions;
    if number > current + 15 {
      assert current < 6;
      var delta := 14 - current % 14;
      FenceApply(pkt);
      assert FencePosts(number, current + delta) == [];
      assert FenceCount(number, current + delta) == 0;
      assert FencePosts(number, current) + rest == OptionHeader(delta, 0) + [] + rest;
      HeaderStep(delta, [], rest, count, current, pkt);
    } else {
      assert FencePosts(number, current) + rest == rest;
    }
  }

  lemma OptionStep(current: nat, o: RawOption, rest: seq<byte>, count: nat, pkt: Packet)
    requires current <= o.number < ALL && |o.value| < 270 && count >= FenceCount(o.number, current) + 1
    ensures ParseOptions(EncodeOption(current, o) + rest, count, current, pkt)
         == Resume(Apply(Fenced(pkt, current, o.number), o.number, o.value), rest,
                   count - FenceCount(o.number, current) - 1, o.number)
  {
    hide Apply, ParseOptions, FencePosts, FenceCount, AfterFences, OptionHeader;
    AfterFencesBound(o.number, current);
    var fences := FencePosts(o.number, current);
    var tail := TailHeader(current, o) + o.value;
    assert EncodeOption(current, o) + rest == fences + (tail + rest);
    FenceStep(o.number, current, tail + rest, count, pkt);
    HeaderStep(o.number - AfterFences(o.number, current), o.value, rest, count - FenceCount(o.number, current),
               AfterFences(o.number, current), Fenced(pkt, current, o.number));
  }

  /** With enough option count left, the parser folds the whole list and goes on behind it. */
  lemma {:induction false} ParseFolds(current: nat, opts: seq<RawOption>, rest: seq<byte>, count: nat, pkt: Packet)
    requires Ascending(current, opts) && Encodable(opts)
    requires count >= HeaderCount(current, opts)
    ensures ParseOptions(EncodeOptions(current, opts) + rest, count, current, pkt)
         == Resume(FoldOptions(pkt, current, opts), rest, count - HeaderCount(current, opts), LastNumber(current, opts))
    decreases opts
  {
    hide Apply, EncodeOption, FenceCount, ParseOptions;
    if opts == [] {
      assert EncodeOptions(current, opts) + rest == rest;
    } else {
      var o, n := opts[0], opts[0].number;
      var more := EncodeOptions(n, opts[1..]) + rest;
      Regroup(EncodeOption(current, o), EncodeOptions(n, opts[1..]), rest);
      OptionStep(current, o, more, count, pkt);
      assert LastNumber(n, opts[1..]) == LastNumber(current, opts);
      match Apply(Fenced(pkt, current, n), n, o.value)
      case Stop(_) =>
      case Continue(p) =>
        ParseFolds(n, opts[1..], rest, count - FenceCount(n, current) - 1, p);
    }
  }

  lemma {:induction false} FoldAppend(pkt: Packet, current: nat, a: seq<RawOption>, b: seq<RawOption>)
    ensures FoldOptions(pkt, current, a + b)
         == match FoldOptions(pkt, current, a)
            case Stop(status) => Stop(status)
            case Continue(p) => FoldOptions(p, LastNumber(current, a), b)
    decreases a
  {
    hide Apply;
    if a == [] {
      assert a + b == b;
    } else {
      assert (a + b)[1..] == a[1..] + b && (a + b)[0] == a[0];
      assert LastNumber(a[0].number, a[1..]) == LastNumber(current, a);
      match Apply(Fenced(pkt, current, a[0].number), a[0].number, a[0].value)
      case Stop(_) =>
      case Continue(p) => FoldAppend(p, a[0].number, a[1..], b);
    }
  }

  // ---------------------------------------------------------------- parsing too few options

  /** How much option content a packet holds; fence posts do not count. */
  function Content(p: Packet): nat {
    |p.options - {FENCE_POST}| + |p.locationPath| + |p.locationQuery| + |p.uriPath| + |p.uriQuery| + |p.accept|
  }

  /** Every option of the list adds content when it is applied. */
  ghost predicate Growing(pkt: Packet, current: nat, opts: seq<RawOption>)
    decreases opts
  {
    opts == [] ||
    match Apply(Fenced(pkt, current, opts[0].number), opts[0].number, opts[0].value)
    case Stop(_) => false
    case Continue(p) => Content(pkt) < Content(p) && Growing(p, opts[0].number, opts[1..])
  }

  lemma FencedContent(pkt: Packet, current: nat, number: nat)
    ensures Content(Fenced(pkt, current, number)) == Content(pkt)
  {
    assert (pkt.options + {FENCE_POST}) - {FENCE_POST} == pkt.options - {FENCE_POST};
  }

  lemma {:induction false} GrowingFold(pkt: Packet, current: nat, opts: seq<RawOption>)
    requires Growing(pkt, current, opts)
    ensures FoldOptions(pkt, current, opts).Continue?
    ensures Content(pkt) + |opts| <= Content(FoldOptions(pkt, current, opts).pkt)
    decreases opts
  {
    hide Apply;
    if opts != [] {
      var p := Apply(Fenced(pkt, current, opts[0].number), opts[0].number, opts[0].value).pkt;
      GrowingFold(p, opts[0].number, opts[1..]);
    }
  }

  lemma {:induction false} GrowingAppend(pkt: Packet, current: nat, a: seq<RawOption>, b: seq<RawOption>)
    requires Growing(pkt, current, a) && FoldOptions(pkt, current, a).Continue?
    requires Growing(FoldOptions(pkt, current, a).pkt, LastNumber(current, a), b)
    ensures Growing(pkt, current, a + b)
    decreases a
  {
    hide Apply;
    if a == [] {
      assert a + b == b;
    } else {
      assert (a + b)[1..] == a[1..] + b && (a + b)[0] == a[0];
      assert LastNumber(a[0].number, a[1..]) == LastNumber(current, a);
      var p := Apply(Fenced(pkt, current, a[0].number), a[0].number, a[0].value).pkt;
      GrowingAppend(p, a[0].number, a[1..], b);
    }
  }

  /** A count that ends in front of the header of an option adds no content. */
  lemma ShortOption(current: nat, o: RawOption, rest: seq<byte>, count: nat, pkt: Packet)
    requires current <= o.number < ALL && count <= FenceCount(o.number, current)
    ensures var r := ParseOptions(EncodeOption(current, o) + rest, count, current, pkt);
            r.Parsed? && Content(r.pkt) == Content(pkt)
  {
    hide Apply, FencePosts, FenceCount, TailHeader;
    if count > 0 {
      var tail := TailHeader(current, o) + o.value;
      FenceStep(o.number, current, tail + rest, FenceCount(o.number, current), pkt);
      assert EncodeOption(current, o) + rest == FencePosts(o.number, current) + (tail + rest);
      FencedContent(pkt, current, o.number);
    }
  }

  /** A parser that is told too small an option count ends with less content than was encoded. */
  lemma {:induction false} ShortParse(current: nat, opts: seq<RawOption>, rest: seq<byte>, count: nat, pkt: Packet)
    requires Ascending(current, opts) && Encodable(opts) && Growing(pkt, current, opts)
    requires count < HeaderCount(current, opts)
    ensures FoldOptions(pkt, current, opts).Continue?
    ensures var r := ParseOptions(EncodeOptions(current, opts) + rest, count, current, pkt);
            r.Parsed? ==> Content(r.pkt) < Content(FoldOptions(pkt, current, opts).pkt)
    decreases opts
  {
    hide Apply, Content, FencePosts, FenceCount, TailHeader, EncodeOption;
    GrowingFold(pkt, current, opts);
    var o, n := opts[0], opts[0].number;
    var more := EncodeOptions(n, opts[1..]) + rest;
    Regroup(EncodeOption(current, o), EncodeOptions(n, opts[1..]), rest);
    if count <= FenceCount(n, current) {
      ShortOption(current, o, more, count, pkt);
    } else {
      OptionStep(current, o, more, count, pkt);
      var p := Apply(Fenced(pkt, current, n), n, o.value).pkt;
      ShortParse(n, opts[1..], rest, count - FenceCount(n, current) - 1, p);
    }
  }
}
