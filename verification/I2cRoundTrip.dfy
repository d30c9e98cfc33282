/** What the slave decodes from the calls of the master, over whole runs. */
module I2cRoundTrip {
  import opened I2cSlave
  import opened I2cTransactions

  // ---------------------------------------------------------------------
  // The register address
  // ---------------------------------------------------------------------

  /** The number that a big-endian byte string stands for. */
  function Number(bytes: seq<byte>): bv32 {
    if bytes == [] then 0 else (Number(bytes[..|bytes| - 1]) << 8) | (bytes[|bytes| - 1] as bv32)
  }

  /** The address bytes are the low bytes of the address, most significant first. */
  lemma {:induction false} AddressIsBigEndian(addr: bv32)
    ensures Number(AddressBytes(addr, 1)) == addr & 0xff
    ensures Number(AddressBytes(addr, 2)) == addr & 0xffff
    ensures Number(AddressBytes(addr, 3)) == addr & 0xff_ffff
    ensures Number(AddressBytes(addr, 4)) == addr
  {
    OneAddressByte(addr);
    TwoAddressBytes(addr);
    ThreeAddressBytes(addr);
    FourAddressBytes(addr);
  }

  lemma {:induction false} OneAddressByte(addr: bv32)
    ensures Number(AddressBytes(addr, 1)) == addr & 0xff
  {
    var b := AddressBytes(addr, 1);
    assert b[..1] == b;
    NumberGrows(b, 1);
    assert b[0] == AddressByte(addr, 0);
  }

  lemma {:induction false} TwoAddressBytes(addr: bv32)
    ensures Number(AddressBytes(addr, 2)) == addr & 0xffff
  {
    var b := AddressBytes(addr, 2);
    assert b[..2] == b;
    NumberGrows(b, 1); NumberGrows(b, 2);
    assert b[0] == AddressByte(addr, 8) && b[1] == AddressByte(addr, 0);
  }

  lemma {:induction false} ThreeAddressBytes(addr: bv32)
    ensures Number(AddressBytes(addr, 3)) == addr & 0xff_ffff
  {
    var b := AddressBytes(addr, 3);
    assert b[..3] == b;
    NumberGrows(b, 1); NumberGrows(b, 2); NumberGrows(b, 3);
    assert b[0] == AddressByte(addr, 16) && b[1] == AddressByte(addr, 8) && b[2] == AddressByte(addr, 0);
  }

  lemma {:induction false} FourAddressBytes(addr: bv32)
    ensures Number(AddressBytes(addr, 4)) == addr
  {
    var b := AddressBytes(addr, 4);
    assert b[..4] == b;
    NumberGrows(b, 1); NumberGrows(b, 2); NumberGrows(b, 3); NumberGrows(b, 4);
    assert b[0] == AddressByte(addr, 24) && b[1] == AddressByte(addr, 16);
    assert b[2] == AddressByte(addr, 8) && b[3] == AddressByte(addr, 0);
  }

  lemma {:induction false} NumberGrows(b: seq<byte>, n: nat)
    requires 0 < n <= |b|
    ensures Number(b[..n]) == (Number(b[..n - 1]) << 8) | (b[n - 1] as bv32)
    ensures Number(b[..0]) == 0
  {
    assert b[..n][..n - 1] == b[..n - 1];
  }

  // ---------------------------------------------------------------------
  // The logs
  // ---------------------------------------------------------------------

  function HeadLog(chip: byte, address: seq<byte>, h: nat, world: World): seq<Event> {
    [Start] + Bytes(HeadBytes(chip, address, h, world), h, world) + if world.acks(h) then [] else [Stop]
  }

  function WriteLog(chip: byte, address: seq<byte>, buffer: seq<byte>, h: nat, world: World): seq<Event> {
    HeadLog(chip, address, h, world) +
    (if Reached(address, h, world) then Bytes(buffer, h + 1 + |address|, world) else []) +
    if Reached(address, h, world) then [Stop] else []
  }

  lemma {:induction false} HeadLogged(s: Slave, chip: byte, address: seq<byte>, world: World)
    ensures var t := Addressed(s, chip, address, world);
      && t.log == s.log + HeadLog(chip, address, s.heard, world) && t.told == s.told
      && t.heard == s.heard + |HeadBytes(chip, address, s.heard, world)|
      && (world.acks(s.heard) ==> t.phase == Receiving(0, 0, false))
      && (!world.acks(s.heard) ==> t.phase == Off)
    ensures Reached(address, s.heard, world) ==> HeadBytes(chip, address, s.heard, world) == [WriteHead(chip)] + address
  {
    var bytes := Bytes(HeadBytes(chip, address, s.heard, world), s.heard, world);
    assert s.log + [Start] + bytes == s.log + ([Start] + bytes);
  }

  lemma {:induction false} Associates(a: seq<Event>, x: seq<Event>, y: seq<Event>)
    ensures (a + x) + y == a + (x + y)
  {}

  lemma {:induction false} Regroup(a: seq<Event>, x: seq<Event>, y: seq<Event>, z: seq<Event>)
    ensures ((a + x) + y) + z == a + ((x + y) + z)
  {}

  /** The log of a write is one frame: START, the bytes sent with the answers
      to them, and STOP unless the slave refused a byte of the register address. */
  lemma {:induction false} WriteLogged(s: Slave, chip: byte, address: seq<byte>, buffer: seq<byte>, world: World)
    ensures var t := Written(s, chip, address, buffer, world);
      && t.log == s.log + WriteLog(chip, address, buffer, s.heard, world) && !Pulls(t.phase) && t.told == s.told
  {
    HeadLogged(s, chip, address, world);
    var x := HeadLog(chip, address, s.heard, world);
    if Reached(address, s.heard, world) {
      var y := Bytes(buffer, s.heard + 1 + |address|, world);
      assert Written(s, chip, address, buffer, world).log == ((s.log + x) + y) + [Stop];
      Regroup(s.log, x, y, [Stop]);
    } else {
      assert x + [] + [] == x;
    }
  }

  /** A slave that acknowledges every byte of the write decodes the chip
      address, the register address and the buffer, and nothing else. */
  lemma {:induction false} WriteDecodes(s: Slave, chip: byte, addr: bv32, alen: nat, buffer: seq<byte>, world: World)
    requires alen <= 4 && AllAcked(1 + alen + |buffer|, s.heard, world)
    ensures Written(s, chip, AddressBytes(addr, alen), buffer, world).log ==
      s.log + ([Start] + Acked([chip << 1] + AddressBytes(addr, alen) + buffer) + [Stop])
  {
    var address := AddressBytes(addr, alen);
    WriteLogged(s, chip, address, buffer, world);
    DecodedLog(chip, address, buffer, s.heard, world);
  }

  lemma {:induction false} DecodedLog(chip: byte, address: seq<byte>, buffer: seq<byte>, h: nat, world: World)
    requires AllAcked(1 + |address| + |buffer|, h, world)
    ensures WriteLog(chip, address, buffer, h, world) == [Start] + Acked([WriteHead(chip)] + address + buffer) + [Stop]
  {
    var head := [WriteHead(chip)] + address;
    assert HeadBytes(chip, address, h, world) == head;
    AckedBytes(head, h, world);
    AckedBytes(buffer, h + 1 + |address|, world);
    assert HeadLog(chip, address, h, world) == [Start] + Acked(head);
    AckedTogether(head, buffer);
  }

  lemma {:induction false} AckedBytes(bytes: seq<byte>, h: nat, world: World)
    requires AllAcked(|bytes|, h, world)
    ensures Bytes(bytes, h, world) == Acked(bytes)
  {}

  lemma {:induction false} AckedTogether(x: seq<byte>, y: seq<byte>)
    ensures ([Start] + Acked(x)) + Acked(y) + [Stop] == [Start] + Acked(x + y) + [Stop]
  {
    assert Acked(x + y) == Acked(x) + Acked(y);
  }

  function Acked(bytes: seq<byte>): (r: seq<Event>)
    ensures |r| == |bytes| && forall i :: 0 <= i < |bytes| ==> r[i] == Byte(bytes[i], true)
  {
    seq(|bytes|, i requires 0 <= i < |bytes| => Byte(bytes[i], true))
  }

  /** The read part of the log. */
  function ReadOutLog(chip: byte, len: nat, h: nat, told: nat, world: World): seq<Event> {
    [Start, Byte(ReadHead(chip), world.acks(h))] + Answers(Outs(len, told, world.acks(h), world)) +
    if len == 0 && world.acks(h) && !BitOf(world.data(told), 0) then [] else [Stop]
  }

  /** The bytes read are the bytes the slave sent, the last one alone is
      refused, and the STOP is missing exactly when nothing is read and the
      slave holds a zero on the line. */
  lemma {:induction false} ReadOutLogged(s: Slave, chip: byte, len: nat, world: World)
    ensures var t := ReadOut(s, chip, len, world);
      && t.log == s.log + ReadOutLog(chip, len, s.heard, s.told, world) && t.heard == s.heard + 1
      && Pulls(t.phase) == (len == 0 && world.acks(s.heard) && !BitOf(world.data(s.told), 0))
  {
    OfferIsFirst(s, chip, len, world);
    var o := Offered(s, chip, world);
    var t := AfterReads(o, len, len, s.told, world);
    var outs := Answers(Outs(len, s.told, o.answered, world));
    assert outs[..len] == outs;
    assert BitOf(255, 0);
    assert s.log + [Start] + [Byte(ReadHead(chip), world.acks(s.heard))] + outs ==
           s.log + ([Start, Byte(ReadHead(chip), world.acks(s.heard))] + outs);
  }

  function ReadLog(chip: byte, address: seq<byte>, len: nat, h: nat, told: nat, world: World): seq<Event> {
    if address == [] then ReadOutLog(chip, len, h, told, world)
    else if Reached(address, h, world) then
      HeadLog(chip, address, h, world) + [Stop] + ReadOutLog(chip, len, h + 1 + |address|, told, world)
    else HeadLog(chip, address, h, world)
  }

  lemma {:induction false} ReadLogged(s: Slave, chip: byte, address: seq<byte>, len: nat, world: World)
    ensures var t := ReadBack(s, chip, address, len, world);
      && t.log == s.log + ReadLog(chip, address, len, s.heard, s.told, world)
      && (len > 0 ==> !Pulls(t.phase))
  {
    if address == [] {
      ReadOutLogged(s, chip, len, world);
    } else if Reached(address, s.heard, world) {
      AddressedReadLogged(s, chip, address, len, world);
    } else {
      HeadLogged(s, chip, address, world);
    }
  }

  lemma {:induction false} AddressedReadLogged(s: Slave, chip: byte, address: seq<byte>, len: nat, world: World)
    requires address != [] && Reached(address, s.heard, world)
    ensures var t := ReadBack(s, chip, address, len, world);
      && t.log == s.log + ReadLog(chip, address, len, s.heard, s.told, world)
      && (len > 0 ==> !Pulls(t.phase))
  {
    var u := Stopped(Addressed(s, chip, address, world));
    AddressedThenStopped(s, chip, address, world);
    ReadOutAfter(u, s.log, HeadLog(chip, address, s.heard, world), chip, len, world);
  }

  lemma {:induction false} ReadOutAfter(u: Slave, before: seq<Event>, x: seq<Event>, chip: byte, len: nat, world: World)
    requires u.log == (before + x) + [Stop]
    ensures var t := ReadOut(u, chip, len, world);
      && t.log == before + (x + [Stop] + ReadOutLog(chip, len, u.heard, u.told, world))
      && (len > 0 ==> !Pulls(t.phase))
  {
    ReadOutLogged(u, chip, len, world);
    Regroup(before, x, [Stop], ReadOutLog(chip, len, u.heard, u.told, world));
  }

  lemma {:induction false} AddressedThenStopped(s: Slave, chip: byte, address: seq<byte>, world: World)
    requires Reached(address, s.heard, world)
    ensures var u := Stopped(Addressed(s, chip, address, world));
      && u.heard == s.heard + 1 + |address| && u.told == s.told
      && u.log == (s.log + HeadLog(chip, address, s.heard, world)) + [Stop]
  {
    HeadLogged(s, chip, address, world);
  }
}
