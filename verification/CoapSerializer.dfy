/**
 The serializer as the source runs it: methods that write option bytes into a buffer
 at an advancing position. Each is proved to write what CoapWire and CoapMessage specify.
*/
module CoapSerializer {
  import opened Bytes
  import opened Slices
  import opened CoapPacket
  import opened CoapWire
  import opened CoapSplit
  import opened CoapMessage

  method CoapLog2(value: nat) returns (result: nat)
    ensures result == Log2(value)
  {
    var v: nat := value / 2;
    result := 1;
    while v != 0
      invariant result >= 1
      invariant if v == 0 then result == Log2(value) + 1 else result + Log2(v) == Log2(value)
      decreases v
    {
      v := v / 2;
      result := result + 1;
    }
    result := result - 1;
  }

  method SetOptionHeader(delta: nat, length: nat, buffer: array<byte>, at: nat) returns (size: nat)
    requires at + |OptionHeader(delta, length)| <= buffer.Length
    modifies buffer
    ensures size == |OptionHeader(delta, length)|
    ensures buffer[..] == Overwrite(old(buffer[..]), at, OptionHeader(delta, length))
  {
    if length < 15 {
      buffer[at] := (delta * 16) % 256 + length;
      return 1;
    } else {
      buffer[at] := (delta * 16) % 256 + 15;
      buffer[at + 1] := (length - 15) % 256;
      return 2;
    }
  }

  method CopyBytes(buffer: array<byte>, at: nat, x: seq<byte>)
    requires at + |x| <= buffer.Length
    modifies buffer
    ensures buffer[..] == Overwrite(old(buffer[..]), at, x)
  {
    forall k | 0 <= k < |x| {
      buffer[at + k] := x[k];
    }
  }

  method InsertFencePosts(number: nat, current: nat, buffer: array<byte>, at: nat) returns (size: nat, reached: nat)
    requires current <= number && at + |FencePosts(number, current)| <= buffer.Length
    modifies buffer
    ensures size == |FencePosts(number, current)| && reached == AfterFences(number, current)
    ensures buffer[..] == Overwrite(old(buffer[..]), at, FencePosts(number, current))
  {
    hide FencePosts, AfterFences, OptionHeader, Overwrite;
    NoOverwrite(buffer[..], at);
    size, reached := 0, current;
    ghost var written: seq<byte> := [];
    while number > reached + 15
      invariant reached <= number && size == |written|
      invariant written + FencePosts(number, reached) == FencePosts(number, current)
      invariant AfterFences(number, reached) == AfterFences(number, current)
      invariant at + |written| <= buffer.Length && buffer[..] == Overwrite(old(buffer[..]), at, written)
      decreases number - reached
    {
      var delta := 14 - reached % 14;
      FenceStep(number, reached);
      Regroup(written, OptionHeader(delta, 0), FencePosts(number, reached + delta));
      OverwriteAppend(old(buffer[..]), at, written, OptionHeader(delta, 0));
      var s := SetOptionHeader(delta, 0, buffer, at + size);
      written := written + OptionHeader(delta, 0);
      size, reached := size + s, reached + delta;
    }
    FencesEnd(number, reached);
    assert written + [] == written;
  }

  lemma NoOverwrite(buffer: seq<byte>, at: nat)
    requires at <= |buffer|
    ensures Overwrite(buffer, at, []) == buffer
  {
  }

  lemma FenceStep(number: nat, current: nat)
    requires number > current + 15
    ensures var delta := 14 - current % 14;
            FencePosts(number, current) == OptionHeader(delta, 0) + FencePosts(number, current + delta)
            && AfterFences(number, current) == AfterFences(number, current + delta)
  {
  }

  lemma FencesEnd(number: nat, current: nat)
    ensures number <= current + 15 ==> FencePosts(number, current) == [] && AfterFences(number, current) == current
  {
  }

  /** The four conditional byte writes of coap_serialize_int_option. */
  method PutValueBytes(buffer: array<byte>, at: nat, value: nat) returns (size: nat)
    requires value < U32 && at + |IntBytes(value)| <= buffer.Length
    modifies buffer
    ensures size == |IntBytes(value)|
    ensures buffer[..] == Overwrite(old(buffer[..]), at, IntBytes(value))
  {
    hide IntBytes, Overwrite;
    IntLength(value);
    ghost var before := buffer[..];
    size := 0;
    if value >= 0x100_0000 { buffer[at] := value / 0x100_0000 % 256; size := 1; }
    if value >= 0x1_0000 { buffer[at + size] := value / 0x1_0000 % 256; size := size + 1; }
    if value >= 0x100 { buffer[at + size] := value / 0x100 % 256; size := size + 1; }
    if value != 0 { buffer[at + size] := value % 256; size := size + 1; }
    IntBytesUnrolled(value);
    assert buffer[at..at + size] == IntBytes(value);
    OverwriteIs(before, buffer[..], at, IntBytes(value));
  }

  lemma OverwriteIs(before: seq<byte>, after: seq<byte>, at: nat, x: seq<byte>)
    requires |after| == |before| && at + |x| <= |before| && after[at..at + |x|] == x
    requires after[..at] == before[..at] && after[at + |x|..] == before[at + |x|..]
    ensures after == Overwrite(before, at, x)
  {
    assert after == after[..at] + after[at..at + |x|] + after[at + |x|..];
  }

  /** The value bytes go behind a one-byte gap, then the header is put into the gap. */
  method SerializeIntOption(number: nat, current: nat, buffer: array<byte>, at: nat, value: nat) returns (size: nat)
    requires current <= number && value < U32
    requires at + |EncodeOption(current, RawOption(number, IntBytes(value)))| <= buffer.Length
    modifies buffer
    ensures size == |EncodeOption(current, RawOption(number, IntBytes(value)))|
    ensures buffer[..] == Overwrite(old(buffer[..]), at, EncodeOption(current, RawOption(number, IntBytes(value))))
  {
    hide IntBytes, FencePosts, AfterFences, OptionHeader, EncodeOption, Overwrite;
    IntLength(value);
    AfterFencesBound(number, current);
    ghost var fences, bytes := FencePosts(number, current), IntBytes(value);
    ghost var tail := OptionHeader(Delta(number, current), |bytes|);
    EncodedAs(number, current, bytes);
    ShortHeader(Delta(number, current), |bytes|);
    var i, reached := InsertFencePosts(number, current, buffer, at);
    ghost var fenced := buffer[..];
    var option := at + i;
    var length := PutValueBytes(buffer, option + 1, value);
    var s := SetOptionHeader(number - reached, length, buffer, option);
    GapFilled(fenced, option, tail, bytes);
    OverwriteAppend(old(buffer[..]), at, fences, tail + bytes);
    size := i + length + s;
  }

  lemma ShortHeader(delta: nat, length: nat)
    requires length < 15
    ensures |OptionHeader(delta, length)| == 1
  {
  }

  lemma GapFilled(s: seq<byte>, at: nat, header: seq<byte>, value: seq<byte>)
    requires |header| == 1 && at + 1 + |value| <= |s|
    ensures Overwrite(Overwrite(s, at + 1, value), at, header) == Overwrite(s, at, header + value)
  {
  }

  lemma IntBytesUnrolled(value: nat)
    requires value < U32
    ensures value == 0 ==> IntBytes(value) == []
    ensures 0 < value < 0x100 ==> IntBytes(value) == [value % 256]
    ensures 0x100 <= value < 0x1_0000 ==> IntBytes(value) == [value / 0x100 % 256, value % 256]
    ensures 0x1_0000 <= value < 0x100_0000 ==>
              IntBytes(value) == [value / 0x1_0000 % 256, value / 0x100 % 256, value % 256]
    ensures 0x100_0000 <= value ==>
              IntBytes(value) == [value / 0x100_0000 % 256, value / 0x1_0000 % 256, value / 0x100 % 256, value % 256]
  {
    IntLength(value);
    if value >= 0x100 {
      assert IntBytes(value) == IntBytes(value / 256) + [value % 256];
      if value >= 0x1_0000 {
        assert IntBytes(value / 256) == IntBytes(value / 256 / 256) + [value / 256 % 256];
        assert value / 256 / 256 == value / 0x1_0000;
        if value >= 0x100_0000 {
          assert IntBytes(value / 0x1_0000) == IntBytes(value / 0x1_0000 / 256) + [value / 0x1_0000 % 256];
          assert value / 0x1_0000 / 256 == value / 0x100_0000;
        }
      }
    }
  }

  /** One header and its value: coap_set_option_header followed by memcpy. */
  method PutOption(delta: nat, value: seq<byte>, buffer: array<byte>, at: nat) returns (size: nat)
    requires at + |OptionHeader(delta, |value|) + value| <= buffer.Length
    modifies buffer
    ensures size == |OptionHeader(delta, |value|) + value|
    ensures buffer[..] == Overwrite(old(buffer[..]), at, OptionHeader(delta, |value|) + value)
  {
    hide OptionHeader;
    ghost var header := OptionHeader(delta, |value|);
    size := SetOptionHeader(delta, |value|, buffer, at);
    CopyBytes(buffer, at + size, value);
    OverwriteAppend(old(buffer[..]), at, header, value);
    size := size + |value|;
  }

  /** coap_serialize_array_option without a split character. */
  method SerializeArrayOption(number: nat, current: nat, buffer: array<byte>, at: nat, value: seq<byte>)
    returns (size: nat)
    requires current <= number
    requires at + |EncodeOption(current, RawOption(number, value))| <= buffer.Length
    modifies buffer
    ensures size == |EncodeOption(current, RawOption(number, value))|
    ensures buffer[..] == Overwrite(old(buffer[..]), at, EncodeOption(current, RawOption(number, value)))
  {
    hide FencePosts, AfterFences, OptionHeader, EncodeOption, Overwrite;
    AfterFencesBound(number, current);
    ghost var fences, tail := FencePosts(number, current), OptionHeader(Delta(number, current), |value|);
    EncodedAs(number, current, value);
    var i, reached := InsertFencePosts(number, current, buffer, at);
    var s := PutOption(number - reached, value, buffer, at + i);
    OverwriteAppend(old(buffer[..]), at, fences, tail + value);
    size := i + s;
  }

  lemma EncodedAs(number: nat, current: nat, value: seq<byte>)
    requires current <= number
    ensures EncodeOption(current, RawOption(number, value))
         == FencePosts(number, current) + (OptionHeader(Delta(number, current), |value|) + value)
  {
    hide FencePosts, AfterFences, OptionHeader;
  }

  /** The parts of a split option: the first one carries the delta, the others delta 0. */
  function PartBytes(delta: nat, parts: seq<seq<byte>>): seq<byte>
    decreases parts
  {
    if parts == [] then [] else OptionHeader(delta, |parts[0]|) + parts[0] + PartBytes(0, parts[1..])
  }

  lemma {:induction false} PartsEncoded(current: nat, number: nat, parts: seq<seq<byte>>)
    requires current <= number && parts != []
    ensures Ascending(current, Numbered(number, parts))
    ensures EncodeOptions(current, Numbered(number, parts))
         == FencePosts(number, current) + PartBytes(Delta(number, current), parts)
    decreases parts
  {
    hide OptionHeader, FencePosts, AfterFences, EncodeOption, EncodeOptions, Ascending, LastNumber, Delta;
    AscendingNumbered(current, number, parts);
    EncodeCons(current, Numbered(number, parts));
    EncodedAs(number, current, parts[0]);
    NoFences(number);
    var fences, tail := FencePosts(number, current), OptionHeader(Delta(number, current), |parts[0]|);
    var rest := EncodeOptions(number, Numbered(number, parts[1..]));
    assert Numbered(number, parts)[1..] == Numbered(number, parts[1..]);
    if parts[1..] != [] {
      PartsEncoded(number, number, parts[1..]);
    } else {
      EncodeCons(number, []);
    }
    assert rest == PartBytes(0, parts[1..]);
    assert fences + (tail + parts[0]) + rest == fences + (tail + parts[0] + rest);
  }

  lemma NoFences(number: nat)
    ensures FencePosts(number, number) == [] && Delta(number, number) == 0
  {
  }

  /**
   coap_serialize_array_option with a split character; `count` is what the source returns
   through split_option.
  */
  method SerializeSplitOption(number: nat, current: nat, buffer: array<byte>, at: nat, value: seq<byte>, sep: byte)
    returns (size: nat, count: nat)
    requires current <= number && Ascending(current, Numbered(number, Split(value, sep)))
    requires at + |EncodeOptions(current, Numbered(number, Split(value, sep)))| <= buffer.Length
    modifies buffer
    ensures size == |EncodeOptions(current, Numbered(number, Split(value, sep)))|
    ensures count == |Split(value, sep)|
    ensures buffer[..] == Overwrite(old(buffer[..]), at, EncodeOptions(current, Numbered(number, Split(value, sep))))
  {
    hide FencePosts, AfterFences, OptionHeader, EncodeOptions, Numbered, Overwrite, PartBytes, Ascending;
    ghost var all := EncodeOptions(current, Numbered(number, Split(value, sep)));
    SplitHead(value, sep, 0);
    PartsEncoded(current, number, Split(value, sep));
    var fenceSize, reached := InsertFencePosts(number, current, buffer, at);
    ghost var written := FencePosts(number, current);
    size, count := fenceSize, 0;
    AfterFencesBound(number, current);
    var delta: nat := number - reached;
    var start: nat, j: nat := 0, 0;
    while j <= |value|
      invariant start <= j
      invariant count + |SplitFrom(value, sep, start, j)| == |Split(value, sep)|
      invariant written + PartBytes(delta, SplitFrom(value, sep, start, j)) == all
      invariant size == |written| && at + |all| <= buffer.Length
      invariant buffer[..] == Overwrite(old(buffer[..]), at, written)
      decreases |value| + 1 - j
    {
      if j == |value| || value[j] == sep {
        ghost var next := SkipSlashes(value, j + 1);
        ghost var more := SplitFrom(value, sep, next, next + 1);
        ghost var bytes := OptionHeader(delta, j - start) + value[start..j];
        PartBytesCons(delta, value[start..j], more);
        Regroup(written, bytes, PartBytes(0, more));
        var s := PutOption(delta, value[start..j], buffer, at + size);
        OverwriteAppend(old(buffer[..]), at, written, bytes);
        written := written + bytes;
        size, count, delta := size + s, count + 1, 0;
        start := SkipLoop(value, j + 1);
        j := start + 1;
      } else {
        j := j + 1;
      }
    }
    assert PartBytes(delta, []) == [] by { NoParts(delta); }
    assert written + [] == written;
  }

  lemma NoParts(delta: nat)
    ensures PartBytes(delta, []) == []
  {
  }

  lemma PartBytesCons(delta: nat, first: seq<byte>, more: seq<seq<byte>>)
    ensures PartBytes(delta, [first] + more) == OptionHeader(delta, |first|) + first + PartBytes(0, more)
  {
    assert ([first] + more)[1..] == more;
  }

  /** while(array[j]=='/') ++j, within the string. */
  method SkipLoop(v: seq<byte>, from: nat) returns (j: nat)
    ensures j == SkipSlashes(v, from)
  {
    j := from;
    while j < |v| && v[j] == SLASH
      invariant SkipSlashes(v, j) == SkipSlashes(v, from)
    {
      j := j + 1;
    }
  }
}
