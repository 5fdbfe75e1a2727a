/**
 Code propagation by broadcast: a sender that goes through its program image packet by packet and back when it hears a
 NACK, and receivers that take the packets in order (cc2530/contiki_os/apps/codeprop/codeprop.c).
*/
module Codeprop {
  import opened Bytes

  const UDPDATASIZE := 32
  const EEPROM_SIZE := U16 + UDPDATASIZE

  datatype Packet = Packet(id: nat, addr: nat, len: nat, data: seq<byte>)

  /** A start event and the program it was posted for. */
  datatype Start = Start(id: nat, program: seq<byte>)

  /** The receiving thread waits for a new program, or is in the middle of one. */
  datatype Receiver = Receiver(receiving: bool, id: nat, len: nat, addr: nat, store: seq<byte>, starts: seq<Start>)

  datatype Reply = Reply(r: Receiver, nacks: seq<nat>)

  predicate ValidReceiver(r: Receiver) {
    |r.store| == EEPROM_SIZE && r.addr < U16 && r.len < U16
  }

  predicate ValidPacket(p: Packet) {
    |p.data| <= UDPDATASIZE && p.len < U16
  }

  /** When all bytes are there, the start of the program is posted and the thread begins anew. */
  function Finish(r: Receiver): Receiver
    requires ValidReceiver(r)
  {
    if r.addr < r.len then r else r.(receiving := false, starts := r.starts + [Start(r.id, r.store[..r.len])])
  }

  /** One round of the receiving loop with a packet for address addr. */
  function Take(r: Receiver, addr: nat, data: seq<byte>): Reply
    requires ValidReceiver(r) && |data| <= UDPDATASIZE
  {
    if addr == r.addr then
      Reply(Finish(r.(store := Overwrite(r.store, addr, data), addr := (r.addr + |data|) % U16)), [])
    else if addr > r.addr then Reply(Finish(r), [r.addr])
    else Reply(Finish(r), [])
  }

  /**
   The first packet of a new program. A packet from the middle is answered with a NACK for address 0, which is built in
   the packet's own buffer: its address is 0 from then on, and its data are taken for the first bytes.
  */
  function Accept(r: Receiver, p: Packet): Reply
    requires ValidReceiver(r) && ValidPacket(p)
  {
    var started := r.(receiving := true, id := p.id, len := p.len, addr := 0);
    var taken := if p.len == 0 then Reply(Finish(started), []) else Take(started, 0, p.data);
    if p.addr == 0 then taken else Reply(taken.r, [0] + taken.nacks)
  }

  /** recv_udpthread, when a data packet arrives. */
  function Receive(r: Receiver, p: Packet): Reply
    requires ValidReceiver(r) && ValidPacket(p)
  {
    if !r.receiving then if p.id > r.id then Accept(r, p) else Reply(r, [])
    else if p.id == r.id then Take(r, p.addr, p.data)
    else Reply(r, [])
  }

  /** The sending thread; images gives the program for each id from 1 on. */
  datatype Sender = Sender(sending: bool, addr: nat, images: seq<seq<byte>>)

  function Image(s: Sender): seq<byte> {
    if s.images == [] then [] else s.images[|s.images| - 1]
  }

  function ChunkLength(addr: nat, len: nat): nat
    requires addr <= len
  {
    if len - addr > UDPDATASIZE then UDPDATASIZE else len - addr
  }

  /** send_udpdata */
  function PacketOf(s: Sender): Packet
    requires s.addr <= |Image(s)|
  {
    Packet(|s.images|, s.addr, |Image(s)|, Image(s)[s.addr..s.addr + ChunkLength(s.addr, |Image(s)|)])
  }

  function AfterSend(s: Sender): Sender
    requires s.addr <= |Image(s)|
  {
    s.(addr := s.addr + ChunkLength(s.addr, |Image(s)|))
  }

  /** Only a NACK for a lower address is taken, from whatever transfer it is. */
  function AfterNack(s: Sender, addr: nat): Sender {
    if addr <= s.addr then s.(addr := addr) else s
  }

  // ---------------------------------------------------------------- the threads in place

  /** The packet buffer that the threads read from and build their answers in. */
  class Buffer {
    var isData: bool
    var id: nat
    var addr: nat
    var len: nat
    const data: seq<byte>

    constructor (p: Packet)
      ensures isData && id == p.id && addr == p.addr && len == p.len && data == p.data
    {
      isData, id, addr, len, data := true, p.id, p.addr, p.len, p.data;
    }
  }

  class CodeReceiver {
    var receiving: bool
    var id: nat
    var len: nat
    var addr: nat
    const store: array<byte>
    var starts: seq<Start>
    /** The NACKs sent. */
    var nacks: seq<nat>

    ghost predicate Valid()
      reads this
    {
      store.Length == EEPROM_SIZE && addr < U16 && len < U16
    }

    ghost function State(): (r: Receiver)
      reads this, store
    {
      Receiver(receiving, id, len, addr, store[..], starts)
    }

    constructor ()
      ensures Valid() && fresh(store) && State() == Receiver(false, 0, 0, 0, seq(EEPROM_SIZE, i => 0), [])
      ensures nacks == []
    {
      receiving, id, len, addr, starts, nacks := false, 0, 0, 0, [], [];
      store := new byte[EEPROM_SIZE](i => 0);
    }

    /** send_nack: the answer overwrites the type and the address of the packet. */
    method SendNack(uh: Buffer, at: nat)
      modifies this`nacks, uh`isData, uh`addr
      ensures nacks == old(nacks) + [at] && uh.addr == at && !uh.isData
    {
      uh.isData, uh.addr := false, at;
      nacks := nacks + [at];
    }

    method FinishIfComplete()
      requires Valid()
      modifies this`receiving, this`starts
      ensures Valid() && State() == Finish(old(State()))
    {
      if addr >= len {
        receiving := false;
        starts := starts + [Start(id, store[..len])];
      }
    }

    method TakePacket(uh: Buffer)
      requires Valid() && |uh.data| <= UDPDATASIZE
      modifies this`addr, this`receiving, this`starts, this`nacks, store, uh`isData, uh`addr
      ensures Valid()
      ensures var reply := Take(old(State()), old(uh.addr), uh.data);
              State() == reply.r && nacks == old(nacks) + reply.nacks
    {
      if uh.addr == addr {
        var n := |uh.data|;
        if n > 0 {
          forall k | 0 <= k < n {
            store[addr + k] := uh.data[k];
          }
          addr := (addr + n) % U16;
        }
        assert store[..] == Overwrite(old(store[..]), old(addr), uh.data);
      } else if uh.addr > addr {
        SendNack(uh, addr);
      }
      FinishIfComplete();
    }

    /** The thread resumed with a data packet in the buffer. */
    method OnPacket(uh: Buffer)
      requires Valid() && uh.isData && |uh.data| <= UDPDATASIZE && uh.len < U16
      modifies this, store, uh`isData, uh`addr
      ensures Valid()
      ensures var reply := Receive(old(State()), Packet(uh.id, old(uh.addr), uh.len, uh.data));
              State() == reply.r && nacks == old(nacks) + reply.nacks
    {
      if receiving {
        if uh.id == id {
          TakePacket(uh);
        }
        return;
      }
      if uh.id <= id {
        return;
      }
      if uh.addr != 0 {
        addr := 0;
        SendNack(uh, 0);
      }
      // The condition of the waiting loop reads the buffer, which says 0 now in either case.
      assert uh.addr == 0;
      receiving, addr, id, len := true, 0, uh.id, uh.len;
      if addr < len {
        TakePacket(uh);
      } else {
        FinishIfComplete();
      }
    }

    /** The NACK timer has expired. */
    method OnTimeout(uh: Buffer)
      requires Valid()
      modifies this`nacks, uh`isData, uh`addr
      ensures Valid() && State() == old(State())
      ensures nacks == old(nacks) + if receiving then [addr] else []
    {
      if receiving {
        SendNack(uh, addr);
      }
    }
  }

  class CodeSender {
    var sending: bool
    var addr: nat
    var id: nat
    var image: seq<byte>
    ghost var images: seq<seq<byte>>

    ghost predicate Valid()
      reads this
    {
      id == |images| && image == Image(State()) && addr <= |image|
    }

    ghost function State(): (s: Sender)
      reads this
    {
      Sender(sending, addr, images)
    }

    constructor ()
      ensures Valid() && State() == Sender(false, 0, [])
    {
      sending, addr, id, image, images := false, 0, 0, [], [];
    }

    /** A program arrives over TCP while the sender is idle. */
    method Upload(program: seq<byte>)
      requires Valid() && !sending && |program| < U16
      modifies this
      ensures Valid() && State() == Sender(true, 0, old(images) + [program])
    {
      image, images := program, images + [program];
      id := id + 1;
      sending, addr := true, 0;
    }

    /** One packet of send_udpthread. */
    method SendData() returns (p: Packet)
      requires Valid() && sending && addr < |image|
      modifies this`addr
      ensures Valid() && p == PacketOf(old(State())) && State() == AfterSend(old(State()))
    {
      var n := if |image| - addr > UDPDATASIZE then UDPDATASIZE else |image| - addr;
      p := Packet(id, addr, |image|, image[addr..addr + n]);
      addr := addr + n;
    }

    method OnNack(at: nat)
      requires Valid() && sending
      modifies this`addr
      ensures Valid() && State() == AfterNack(old(State()), at)
    {
      if at <= addr {
        addr := at;
      }
    }
  }
}
