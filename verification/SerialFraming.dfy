/**
 Data frames on the serial port: a type byte, the length, the data and their checksum
 (enviarDados and receberDados in cc2530/Programador Arduino/programador_C/src/Comunicacao.h).
*/
module SerialFraming {
  import opened Crc16
  import opened Crc16Errors

  const MAX_LENGTH := 0xFFFF

  /** The place of the frame on the wire: sent bytes pile up, received ones are read one after the other. */
  class Port {
    var sent: seq<octet>
    const incoming: seq<octet>
    var pos: nat

    constructor (incoming: seq<octet>)
      ensures sent == [] && this.incoming == incoming && pos == 0
    {
      sent, this.incoming, pos := [], incoming, 0;
    }

    method SendByte(b: octet)
      modifies this`sent
      ensures sent == old(sent) + [b]
    {
      sent := sent + [b];
    }

    method SendBuffer(buffer: array<octet>, len: nat)
      requires len <= buffer.Length
      modifies this`sent
      ensures sent == old(sent) + buffer[..len]
    {
      sent := sent + buffer[..len];
    }

    /** Without a byte to read the source waits for ever. */
    method ReadByte() returns (ok: bool, b: octet)
      modifies this`pos
      ensures ok == (old(pos) < |incoming|)
      ensures if ok then b == incoming[old(pos)] && pos == old(pos) + 1 else pos == old(pos)
    {
      ok, b := pos < |incoming|, 0;
      if ok {
        b := incoming[pos];
        pos := pos + 1;
      }
    }

    method ReadBuffer(buffer: array<octet>, len: nat) returns (ok: bool)
      requires len <= buffer.Length
      modifies this`pos, buffer
      ensures ok == (old(pos) + len <= |incoming|)
      ensures ok ==> pos == old(pos) + len && buffer[..len] == incoming[old(pos)..pos]
    {
      ok := pos + len <= |incoming|;
      if ok {
        forall k | 0 <= k < len {
          buffer[k] := incoming[pos + k];
        }
        pos := pos + len;
      }
    }
  }

  /** The length as the receiver puts it together. */
  function LengthOf(low: octet, high: octet): bv16 {
    ((high as bv16) << 8) | (low as bv16)
  }

  lemma LengthRoundTrip(len: bv16)
    ensures LengthOf(LowByte(len), HighByte(len)) == len
  {
  }

  /** The number that an unsigned short stands for. */
  function Size(len: bv16): (n: nat)
    ensures n <= MAX_LENGTH
  {
    len as nat
  }

  function Header(len: bv16): seq<octet> {
    [0, LowByte(len), HighByte(len)]
  }

  function Checksum(data: seq<octet>): seq<octet> {
    [LowByte(Crc(data)), HighByte(Crc(data))]
  }

  function Frame(len: bv16, data: seq<octet>): seq<octet> {
    Header(len) + (data + Checksum(data))
  }

  /** enviarDados and enviarChecksum */
  method SendData(port: Port, buffer: array<octet>, len: bv16)
    requires Size(len) <= buffer.Length
    modifies port`sent
    ensures port.sent == old(port.sent) + Frame(len, buffer[..Size(len)])
  {
    hide LowByte, HighByte, Crc, Size;
    var n := Size(len);
    port.SendByte(0);
    port.SendByte(LowByte(len));
    port.SendByte(HighByte(len));
    port.SendBuffer(buffer, n);
    var crc := Crc16Cal(buffer, n);
    port.SendByte(LowByte(crc));
    port.SendByte(HighByte(crc));
  }

  datatype Received = Data(bytes: seq<octet>) | BadHeader | BadChecksum | Starved

  /** What receberDados makes of the bytes that arrive. */
  function Decode(s: seq<octet>): Received {
    if s == [] then Starved
    else if s[0] != 0 then BadHeader
    else if |s| < 3 then Starved
    else
      var n := Size(LengthOf(s[1], s[2]));
      if |s| < 3 + n + 2 then Starved
      else if [s[3 + n], s[3 + n + 1]] == Checksum(s[3..3 + n]) then Data(s[3..3 + n])
      else BadChecksum
  }

  /** receberDados; the caller's buffer has room for the longest frame. */
  method ReceiveData(port: Port, buffer: array<octet>) returns (r: Received)
    requires buffer.Length >= MAX_LENGTH && port.pos <= |port.incoming|
    modifies port`pos, buffer
    ensures r == Decode(port.incoming[old(port.pos)..])
    ensures r.Data? ==> buffer[..|r.bytes|] == r.bytes && port.pos == old(port.pos) + |r.bytes| + 5
  {
    hide LengthOf, LowByte, HighByte, Crc, Size;
    ghost var s := port.incoming[port.pos..];
    var ok, kind := port.ReadByte();
    if !ok {
      return Starved;
    }
    if kind != 0 {
      return BadHeader;
    }
    var low, high, crcLow, crcHigh;
    ok, low := port.ReadByte();
    if !ok {
      return Starved;
    }
    ok, high := port.ReadByte();
    if !ok {
      return Starved;
    }
    var len := Size(LengthOf(low, high));
    ok := port.ReadBuffer(buffer, len);
    if !ok {
      return Starved;
    }
    assert buffer[..len] == s[3..3 + len];
    ok, crcLow := port.ReadByte();
    if !ok {
      return Starved;
    }
    ok, crcHigh := port.ReadByte();
    if !ok {
      return Starved;
    }
    var crc := Crc16Cal(buffer, len);
    if crcHigh == HighByte(crc) && crcLow == LowByte(crc) {
      return Data(buffer[..len]);
    }
    r := BadChecksum;
  }

  // ---------------------------------------------------------------- what the protocol is for

  lemma DecodeParts(len: bv16, data: seq<octet>, low: octet, high: octet, rest: seq<octet>)
    requires |data| == Size(len)
    ensures Decode(Header(len) + (data + [low, high]) + rest) == if [low, high]
              == Checksum(data) then Data(data) else BadChecksum
  {
    hide LengthOf, LowByte, HighByte, Size, Checksum;
    var n := |data|;
    var s := Header(len) + (data + [low, high]) + rest;
    LengthRoundTrip(len);
    assert s[0] == 0 && s[1] == LowByte(len) && s[2] == HighByte(len) && |s| == n + 5 + |rest|;
    assert s[3..3 + n] == data && s[3 + n] == low && s[3 + n + 1] == high;
  }

  /** Whatever body of data and two more bytes follows the header of a length, and whatever follows that. */
  lemma DecodeBody(len: bv16, body: seq<octet>, rest: seq<octet>)
    requires |body| == Size(len) + 2
    ensures var data := body[..|body| - 2];
            Decode(Header(len) + body + rest) == if Update(PRESET_VALUE, body) == 0 then Data(data) else BadChecksum
  {
    hide Decode, Header, LowByte, HighByte, Update, Size;
    var n := |body| - 2;
    var data := body[..n];
    assert body == data + [body[n], body[n + 1]];
    ResidueExact(PRESET_VALUE, data, body[n], body[n + 1]);
    DecodeParts(len, data, body[n], body[n + 1], rest);
  }

  lemma OwnChecksum(data: seq<octet>)
    ensures Update(PRESET_VALUE, data + Checksum(data)) == 0 && |Checksum(data)| == 2
  {
    hide LowByte, HighByte, Update;
    ResidueExact(PRESET_VALUE, data, LowByte(Crc(data)), HighByte(Crc(data)));
  }

  /** A frame is received as it was sent, whatever its length is and whatever follows it. */
  lemma FrameRoundTrip(len: bv16, data: seq<octet>, rest: seq<octet>)
    requires |data| == Size(len)
    ensures Decode(Frame(len, data) + rest) == Data(data)
  {
    hide Decode, Update, Checksum, Header, Size;
    var body := data + Checksum(data);
    OwnChecksum(data);
    DecodeBody(len, body, rest);
    assert body[..|body| - 2] == data;
    assert Header(len) + body + rest == Frame(len, data) + rest;
  }

  /**
   Data or checksum hit by a burst of at most sixteen bits, or with an odd number of wrong bits: the frame is
   refused.
  */
  lemma DamageDetected(len: bv16, data: seq<octet>, damaged: seq<octet>, rest: seq<octet>, i: nat)
    requires |data| == Size(len) && damaged != data + Checksum(data) && |damaged| == |data| + |Checksum(data)|
    requires DifferInBurst(data + Checksum(data), damaged, i)
          || OddOnes(XorBits(AllBits(data + Checksum(data)), AllBits(damaged)))
    ensures Decode(Header(len) + damaged + rest) == BadChecksum
  {
    hide Decode, Update, Checksum, Header, OddOnes, AllBits, DifferInBurst, Size;
    var body := data + Checksum(data);
    OwnChecksum(data);
    if DifferInBurst(body, damaged, i) {
      BurstDetected(PRESET_VALUE, body, damaged, i);
    } else {
      OddErrorsDetected(PRESET_VALUE, body, damaged);
    }
    DecodeBody(len, damaged, rest);
  }

  // ---------------------------------------------------------------- what is accepted

  /** The frame of the data stands at the start of what arrives. */
  ghost predicate StartsWithFrame(s: seq<octet>, data: seq<octet>) {
    exists len: bv16 :: |data| == Size(len) && Frame(len, data) <= s
  }

  lemma FrameTakenApart(s: seq<octet>, n: nat)
    requires |s| >= 3 + n + 2 && s[0] == 0 && n == Size(LengthOf(s[1], s[2]))
    requires [s[3 + n], s[3 + n + 1]] == Checksum(s[3..3 + n])
    ensures Frame(LengthOf(s[1], s[2]), s[3..3 + n]) <= s
  {
    hide Checksum, Size;
    LengthParts(s[1], s[2]);
    assert s[..3] == Header(LengthOf(s[1], s[2]));
    assert s[..3 + n + 2] == s[..3] + (s[3..3 + n] + [s[3 + n], s[3 + n + 1]]);
  }

  lemma LengthParts(low: octet, high: octet)
    ensures LowByte(LengthOf(low, high)) == low && HighByte(LengthOf(low, high)) == high
  {
  }

  /** Data are accepted exactly if their frame arrives. */
  lemma AcceptedExactly(s: seq<octet>, data: seq<octet>)
    ensures Decode(s) == Data(data) <==> StartsWithFrame(s, data)
  {
    hide LengthOf, LowByte, HighByte, Size, Checksum, Frame, Crc;
    if Decode(s) == Data(data) {
      FrameTakenApart(s, |data|);
    }
    if len: bv16 :| |data| == Size(len) && Frame(len, data) <= s {
      FrameRoundTrip(len, data, s[|Frame(len, data)|..]);
      assert Frame(len, data) + s[|Frame(len, data)|..] == s;
    }
  }

  /** The receiver waits for the rest of a frame that has not arrived completely. */
  lemma PartWaits(len: bv16, data: seq<octet>, k: nat)
    requires |data| == Size(len) && k < |Frame(len, data)|
    ensures Decode(Frame(len, data)[..k]) == Starved
  {
    hide LengthOf, LowByte, HighByte, Size, Crc;
    LengthRoundTrip(len);
  }

  /** Another type of frame is refused by its first byte. */
  lemma OtherTypeRefused(s: seq<octet>)
    ensures Decode(s) == BadHeader <==> s != [] && s[0] != 0
  {
    hide LengthOf, Size, Checksum;
  }
}
