/**
 The checksum of Deluge packets: crc16_add (cc2530/contiki_os/core/lib/crc16.c) is eight shifts by the polynomial, so
 damage to a payload is detected as on the serial line, and a node drops the packet.
*/
module DelugeCrc {
  import opened Deluge
  import opened Crc16
  import opened Crc16Errors
  import opened Crc16Period

  // ---------------------------------------------------------------- one byte

  /** What crc16_add makes of the register with the byte already added. */
  function Mixed(c: bv16): bv16 {
    Folded5(Folded12(Folded4(Swapped(c))))
  }

  lemma AddMixes(b: octet, acc: bv16)
    ensures Crc16Add(b, acc) == Mixed(Xor(acc, b as bv16))
  {
    hide Folded5, Folded12, Folded4, Swapped;
  }

  lemma SwappedAdds(c: bv16, d: bv16)
    ensures Swapped(Xor(c, d)) == Xor(Swapped(c), Swapped(d))
  {
  }

  function Moved4(a: bv16): bv16 {
    (a & 0xff00) << 4
  }

  lemma Moved4Adds(c: bv16, d: bv16)
    ensures Moved4(Xor(c, d)) == Xor(Moved4(c), Moved4(d))
  {
  }

  lemma Folded4Is(a: bv16)
    ensures Folded4(a) == Xor(a, Moved4(a))
  {
  }

  lemma Folded4Adds(c: bv16, d: bv16)
    ensures Folded4(Xor(c, d)) == Xor(Folded4(c), Folded4(d))
  {
    hide Xor, Folded4, Moved4;
    Folded4Is(c);
    Folded4Is(d);
    Folded4Is(Xor(c, d));
    Moved4Adds(c, d);
    XorInterchange(c, d, Moved4(c), Moved4(d));
  }

  function Moved12(a: bv16): bv16 {
    (a >> 8) >> 4
  }

  lemma Moved12Adds(c: bv16, d: bv16)
    ensures Moved12(Xor(c, d)) == Xor(Moved12(c), Moved12(d))
  {
  }

  lemma Folded12Is(a: bv16)
    ensures Folded12(a) == Xor(a, Moved12(a))
  {
  }

  lemma Folded12Adds(c: bv16, d: bv16)
    ensures Folded12(Xor(c, d)) == Xor(Folded12(c), Folded12(d))
  {
    hide Xor, Folded12, Moved12;
    Folded12Is(c);
    Folded12Is(d);
    Folded12Is(Xor(c, d));
    Moved12Adds(c, d);
    XorInterchange(c, d, Moved12(c), Moved12(d));
  }

  function Moved5(a: bv16): bv16 {
    (a & 0xff00) >> 5
  }

  lemma Moved5Adds(c: bv16, d: bv16)
    ensures Moved5(Xor(c, d)) == Xor(Moved5(c), Moved5(d))
  {
  }

  lemma Folded5Is(a: bv16)
    ensures Folded5(a) == Xor(a, Moved5(a))
  {
  }

  lemma Folded5Adds(c: bv16, d: bv16)
    ensures Folded5(Xor(c, d)) == Xor(Folded5(c), Folded5(d))
  {
    hide Xor, Folded5, Moved5;
    Folded5Is(c);
    Folded5Is(d);
    Folded5Is(Xor(c, d));
    Moved5Adds(c, d);
    XorInterchange(c, d, Moved5(c), Moved5(d));
  }

  lemma MixedAdds(c: bv16, d: bv16)
    ensures Mixed(Xor(c, d)) == Xor(Mixed(c), Mixed(d))
  {
    hide Xor, Folded5, Folded12, Folded4, Swapped;
    SwappedAdds(c, d);
    var c1, d1 := Swapped(c), Swapped(d);
    Folded4Adds(c1, d1);
    var c2, d2 := Folded4(c1), Folded4(d1);
    Folded12Adds(c2, d2);
    Folded5Adds(Folded12(c2), Folded12(d2));
  }

  /** One byte of the Deluge checksum is one byte of the serial one. */
  predicate MixesAsShifts(c: bv16) {
    Mixed(c) == Shifts(c, 8)
  }

  lemma LowNibble(c: bv16)
    requires c & 0xFFF0 == 0
    ensures MixesAsShifts(c)
  {
  }

  lemma HighNibble(c: bv16)
    requires c & 0xFF0F == 0
    ensures MixesAsShifts(c)
  {
  }

  lemma HighByteMixes(c: bv16)
    requires c & 0x00FF == 0
    ensures MixesAsShifts(c)
  {
  }

  lemma MixesXor(c: bv16, d: bv16)
    requires MixesAsShifts(c) && MixesAsShifts(d)
    ensures MixesAsShifts(Xor(c, d))
  {
    hide Xor, Mixed, Shifts;
    MixedAdds(c, d);
    ShiftsLinear(c, d, 8);
  }

  lemma Parts(c: bv16)
    ensures Xor(Xor(c & 0xFF00, c & 0x00F0), c & 0x000F) == c
    ensures (c & 0xFF00) & 0x00FF == 0 && (c & 0x00F0) & 0xFF0F == 0 && (c & 0x000F) & 0xFFF0 == 0
  {
  }

  lemma MixedShifts(c: bv16)
    ensures MixesAsShifts(c)
  {
    hide Xor, MixesAsShifts;
    Parts(c);
    HighByteMixes(c & 0xFF00);
    HighNibble(c & 0x00F0);
    LowNibble(c & 0x000F);
    MixesXor(c & 0xFF00, c & 0x00F0);
    MixesXor(Xor(c & 0xFF00, c & 0x00F0), c & 0x000F);
  }

  // ---------------------------------------------------------------- payloads

  lemma LastUpdate(c: bv16, message: seq<octet>, b: octet)
    ensures Update(c, message + [b]) == Shifts(Xor(Update(c, message), b as bv16), 8)
  {
    hide Shifts, Xor;
    UpdateConcat(c, message, [b]);
    assert [b][1..] == [];
  }

  /** The Deluge checksum is the serial one, started at zero. */
  lemma {:induction false} PayloadCrcUpdates(data: Chunk)
    ensures PayloadCrc(data) == Update(0, data)
    decreases |data|
  {
    hide Shifts, Xor, Mixed, Crc16Add;
    if data != [] {
      var n := |data| - 1;
      PayloadCrcUpdates(data[..n]);
      AddMixes(data[n], PayloadCrc(data[..n]));
      MixedShifts(Xor(PayloadCrc(data[..n]), data[n] as bv16));
      LastUpdate(0, data[..n], data[n]);
      assert data[..n] + [data[n]] == data;
    }
  }

  /** A payload hit by a burst of at most sixteen bits, an odd number of wrong bits, or two wrong bits. */
  ghost predicate Damaged(sent: Chunk, received: Chunk) {
    && |sent| == |received| && sent != received
    && ((exists i :: DifferInBurst(sent, received, i))
        || OddOnes(XorBits(AllBits(sent), AllBits(received)))
        || (|sent| <= 4095 && exists i, j :: DifferAt(AllBits(sent), AllBits(received), i, j)))
  }

  lemma DamageChangesCrc(sent: Chunk, received: Chunk)
    requires Damaged(sent, received)
    ensures PayloadCrc(sent) != PayloadCrc(received)
  {
    hide DifferInBurst, DifferAt, OddOnes, AllBits, Update, PayloadCrc;
    PayloadCrcUpdates(sent);
    PayloadCrcUpdates(received);
    if i :| DifferInBurst(sent, received, i) {
      BurstDetected(0, sent, received, i);
    } else if OddOnes(XorBits(AllBits(sent), AllBits(received))) {
      OddErrorsDetected(0, sent, received);
    } else {
      var i, j :| DifferAt(AllBits(sent), AllBits(received), i, j);
      TwoErrorsDetected(0, sent, received, i, j);
    }
  }

  /** Two payloads that differ inside two adjacent bytes only. */
  lemma AdjacentDamage(sent: Chunk, received: Chunk, j: nat)
    requires |sent| == |received| && j <= |sent| && sent != received
    requires forall k | 0 <= k < |sent| && k != j && k != j + 1 :: sent[k] == received[k]
    ensures Damaged(sent, received)
  {
    hide Update, AllBits;
    AdjacentBurst(sent, received, j);
  }

  /** What a node makes of a packet whose payload was damaged on the way: pages, file and versions stay. */
  lemma DamagedPacketDropped(s: Node, version: nat, pagenum: nat, packetnum: nat, sent: Chunk, received: Chunk)
    requires ValidNode(s) && pagenum < |s.pages| && packetnum < N_PKT && Damaged(sent, received)
    ensures var after := HandlePacket(s, version, pagenum, packetnum, PayloadCrc(sent), received);
            && after.pages == s.pages && after.file == s.file
            && after.version == s.version && after.updateVersion == s.updateVersion
  {
    hide Damaged, PayloadCrc;
    DamageChangesCrc(sent, received);
  }
}
