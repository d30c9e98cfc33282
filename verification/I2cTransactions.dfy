/** Probes, reads and writes: what the slave's log says of each, for every
    slave, whatever it acknowledges and whatever it sends. */
module I2cTransactions {
  import opened I2cSlave
  import opened I2cMaster

  // ---------------------------------------------------------------------
  // The transactions
  // ---------------------------------------------------------------------

  /** addr >> shift, as a byte. */
  function AddressByte(addr: bv32, shift: nat): byte
    requires shift == 0 || shift == 8 || shift == 16 || shift == 24
  {
    var shifted := if shift == 0 then addr else if shift == 8 then addr >> 8 else if shift == 16 then addr >> 16 else addr >> 24;
    (shifted & 0xff) as byte
  }

  /** The register address, most significant byte first. */
  function AddressBytes(addr: bv32, alen: int): (r: seq<byte>)
    requires alen <= 4
    ensures |r| == if alen < 0 then 0 else alen
    ensures forall i :: 0 <= i < |r| ==> r[i] == AddressByte(addr, 8 * (alen - 1 - i))
  {
    seq(if alen < 0 then 0 else alen, i requires 0 <= i < alen => AddressByte(addr, 8 * (alen - 1 - i)))
  }

  /** Bytes from the master, from the slave's h-th one on. */
  function Bytes(bytes: seq<byte>, h: nat, world: World): (r: seq<Event>)
    ensures |r| == |bytes|
    ensures forall i :: 0 <= i < |bytes| ==> r[i] == Byte(bytes[i], world.acks(h + i))
  {
    seq(|bytes|, i requires 0 <= i < |bytes| => Byte(bytes[i], world.acks(h + i)))
  }

  predicate AllAcked(n: nat, h: nat, world: World) { forall i :: h <= i < h + n ==> world.acks(i) }

  /** The bytes up to the first one that is not acknowledged. */
  function UntilNack(bytes: seq<byte>, h: nat, world: World): (r: seq<byte>)
    ensures |r| <= |bytes| && r == bytes[..|r|]
    ensures AllAcked(|bytes|, h, world) ==> r == bytes
    ensures !AllAcked(|bytes|, h, world) ==> r != [] && AllAcked(|r| - 1, h, world) && !world.acks(h + |r| - 1)
  {
    if bytes == [] || !world.acks(h) then bytes[..if bytes == [] then 0 else 1]
    else
      assert AllAcked(|bytes|, h, world) <==> AllAcked(|bytes| - 1, h + 1, world);
      [bytes[0]] + UntilNack(bytes[1..], h + 1, world)
  }

  function Nacks(n: nat, h: nat, world: World): nat {
    if n == 0 then 0 else Nacks(n - 1, h, world) + if world.acks(h + n - 1) then 0 else 1
  }

  function WriteHead(chip: byte): byte { chip << 1 }
  function ReadHead(chip: byte): byte { (chip << 1) | 1 }

  /** The address part gets through: the chip and every address byte are acknowledged. */
  predicate Reached(address: seq<byte>, h: nat, world: World) { world.acks(h) && AllAcked(|address|, h + 1, world) }

  /** The bytes of the address part; it gives up at the first that is not acknowledged. */
  function HeadBytes(chip: byte, address: seq<byte>, h: nat, world: World): seq<byte> {
    [WriteHead(chip)] + if world.acks(h) then UntilNack(address, h + 1, world) else []
  }

  /** The n-th byte from the slave on, one byte each; only the last is not acknowledged. */
  function Outs(n: nat, told: nat, answered: bool, world: World): (r: seq<byte>)
    ensures |r| == n
    ensures forall i :: 0 <= i < n ==> r[i] == if answered then world.data(told + i) else 255
  {
    seq(n, i requires 0 <= i < n => if answered then world.data(told + i) else 255)
  }

  function Answers(outs: seq<byte>): (r: seq<Event>)
    ensures |r| == |outs| && forall i :: 0 <= i < |outs| ==> r[i] == Sent(outs[i], i + 1 < |outs|)
  {
    seq(|outs|, i requires 0 <= i < |outs| => Sent(outs[i], i + 1 < |outs|))
  }

  // ---------------------------------------------------------------------
  // The calls
  // ---------------------------------------------------------------------

  /** The bus between two calls: the slave lets go of SDA, and the master
      does not hold it low under a high clock. */
  predicate Ready(w: Wires) { (!w.scl || w.sda) && !Pulls(w.slave.phase) }

  method Probe(bus: Bus, addr: byte) returns (rc: int)
    requires Ready(bus.W())
    modifies bus
    ensures Ready(bus.W()) && bus.scl && bus.sda
    ensures var was := old(bus.slave); var ack := bus.world.acks(was.heard);
      && rc == (if ack then 0 else 1)
      && bus.slave == was.(phase := Off, log := was.log + [Start, Byte(addr << 1, ack), Stop], heard := was.heard + 1)
  {
    bus.SendStart();
    var nack := bus.WriteByte(addr << 1);
    assert (addr << 1) & 1 == 0;
    bus.SendStop();
    assert bus.slave.log == old(bus.slave).log + [Start, Byte(addr << 1, bus.world.acks(old(bus.slave).heard)), Stop];
    rc := if nack then 1 else 0;
  }

  lemma {:induction false} BytesTogether(x: seq<byte>, y: seq<byte>, h: nat, world: World)
    ensures Bytes(x + y, h, world) == Bytes(x, h, world) + Bytes(y, h + |x|, world)
  {}

  /** The slave after hearing whole bytes of a write. */
  function AfterBytes(s: Slave, bytes: seq<byte>, world: World): Slave {
    s.(phase := Receiving(0, 0, false), log := s.log + Bytes(bytes, s.heard, world), heard := s.heard + |bytes|)
  }

  lemma {:induction false} OneMoreByte(s: Slave, bytes: seq<byte>, b: byte, world: World)
    requires s.phase.Receiving?
    ensures Heard(AfterBytes(s, bytes, world), b, world) == AfterBytes(s, bytes + [b], world)
  {
    BytesTogether(bytes, [b], s.heard, world);
    assert Bytes([b], s.heard + |bytes|, world) == [Byte(b, world.acks(s.heard + |bytes|))];
  }

  /** One more byte after `done`. */
  method WriteOne(bus: Bus, b: byte, ghost was: Slave, ghost done: seq<byte>) returns (nack: bool)
    requires was.phase.Receiving? && bus.slave == AfterBytes(was, done, bus.world)
    modifies bus
    ensures !bus.scl && bus.slave == AfterBytes(was, done + [b], bus.world)
    ensures nack == !bus.world.acks(was.heard + |done|)
  {
    OneMoreByte(was, done, b, bus.world);
    nack := bus.WriteByte(b);
  }

  lemma {:induction false} NackEnds(bytes: seq<byte>, done: nat, h: nat, world: World)
    requires done < |bytes| && AllAcked(done, h, world) && !world.acks(h + done)
    ensures UntilNack(bytes, h, world) == bytes[..done + 1] && !AllAcked(|bytes|, h, world)
  {
    assert h <= h + done < h + |bytes|;
    var r := UntilNack(bytes, h, world);
  }

  /** The address loop of i2c_read and i2c_write; `ok` when every byte is acknowledged. */
  method WriteAddress(bus: Bus, addr: bv32, alen: int) returns (ok: bool)
    requires alen <= 4 && bus.slave.phase == Receiving(0, 0, false) && !bus.scl
    modifies bus
    ensures !bus.scl
    ensures var address := AddressBytes(addr, alen); var was := old(bus.slave);
      && ok == AllAcked(|address|, was.heard, bus.world)
      && bus.slave == AfterBytes(was, UntilNack(address, was.heard, bus.world), bus.world)
  {
    var left, shift := alen, (alen - 1) * 8;
    ghost var was, h, n: nat := bus.slave, bus.slave.heard, 0;
    ghost var address := AddressBytes(addr, alen);
    assert bus.slave == AfterBytes(was, address[..0], bus.world);
    while left > 0
      invariant n <= |address| && (left > 0 ==> shift == 8 * (left - 1) && n == alen - left) && (left <= 0 ==> n == |address|)
      invariant !bus.scl && bus.slave == AfterBytes(was, address[..n], bus.world)
      invariant AllAcked(n, h, bus.world)
    {
      left := left - 1;
      var nack := WriteOne(bus, AddressByte(addr, shift), was, address[..n]);
      assert address[..n] + [address[n]] == address[..n + 1];
      if nack {
        NackEnds(address, n, h, bus.world);
        return false;
      }
      n := n + 1;
      shift := shift - 8;
    }
    assert address == address[..n];
    return true;
  }

  method WriteBuffer(bus: Bus, buffer: seq<byte>) returns (failures: int)
    requires bus.slave.phase == Receiving(0, 0, false) && !bus.scl
    modifies bus
    ensures !bus.scl && bus.slave == AfterBytes(old(bus.slave), buffer, bus.world)
    ensures failures == Nacks(|buffer|, old(bus.slave).heard, bus.world)
  {
    failures := 0;
    var len, k := |buffer|, 0;
    ghost var was := bus.slave;
    assert bus.slave == AfterBytes(was, buffer[..0], bus.world);
    while len > 0
      invariant 0 <= k <= |buffer| && len == |buffer| - k && !bus.scl
      invariant bus.slave == AfterBytes(was, buffer[..k], bus.world)
      invariant failures == Nacks(k, was.heard, bus.world)
      decreases len
    {
      len := len - 1;
      assert buffer[..k] + [buffer[k]] == buffer[..k + 1];
      var nack := WriteOne(bus, buffer[k], was, buffer[..k]);
      if nack { failures := failures + 1; }
      k := k + 1;
    }
    assert buffer[..k] == buffer;
  }

  lemma {:induction false} BytesOnBytes(s: Slave, x: seq<byte>, y: seq<byte>, world: World)
    ensures AfterBytes(AfterBytes(s, x, world), y, world) == AfterBytes(s, x + y, world)
  {
    BytesTogether(x, y, s.heard, world);
  }

  /** The address part of i2c_read and i2c_write. Without an answer to the
      chip address it ends with a STOP, but it gives up inside the register
      address without one. */
  function Addressed(s: Slave, chip: byte, address: seq<byte>, world: World): Slave {
    var t := AfterBytes(Started(s), HeadBytes(chip, address, s.heard, world), world);
    if world.acks(s.heard) then t else Stopped(t)
  }

  /** What i2c_write does to the slave. */
  function Written(s: Slave, chip: byte, address: seq<byte>, buffer: seq<byte>, world: World): Slave {
    var t := Addressed(s, chip, address, world);
    if Reached(address, s.heard, world) then Stopped(AfterBytes(t, buffer, world)) else t
  }

  method Address(bus: Bus, chip: byte, addr: bv32, alen: int) returns (ok: bool)
    requires Ready(bus.W()) && alen <= 4
    modifies bus
    ensures var address := AddressBytes(addr, alen); var was := old(bus.slave);
      && bus.slave == Addressed(was, chip, address, bus.world)
      && ok == Reached(address, was.heard, bus.world)
      && (if bus.world.acks(was.heard) then !bus.scl && bus.slave.phase == Receiving(0, 0, false) else Ready(bus.W()))
  {
    ghost var begun := Started(bus.slave);
    var nack := WriteChip(bus, chip);
    if nack {
      bus.SendStop();
      return false;
    }
    ok := WriteAddress(bus, addr, alen);
    BytesOnBytes(begun, [WriteHead(chip)], UntilNack(AddressBytes(addr, alen), begun.heard + 1, bus.world), bus.world);
  }

  /** i2c_write */
  method Write(bus: Bus, chip: byte, addr: bv32, alen: int, buffer: seq<byte>) returns (rc: int)
    requires Ready(bus.W()) && alen <= 4
    modifies bus
    ensures Ready(bus.W())
    ensures var address := AddressBytes(addr, alen); var was := old(bus.slave);
      && bus.slave == Written(was, chip, address, buffer, bus.world)
      && rc == if Reached(address, was.heard, bus.world) then Nacks(|buffer|, was.heard + 1 + |address|, bus.world) else 1
  {
    var ok := Address(bus, chip, addr, alen);
    if !ok { return 1; }
    rc := WriteBuffer(bus, buffer);
    bus.SendStop();
  }

  /** START and the chip address of a write. */
  method WriteChip(bus: Bus, chip: byte) returns (nack: bool)
    requires Ready(bus.W())
    modifies bus
    ensures !bus.scl && bus.slave == AfterBytes(Started(old(bus.slave)), [WriteHead(chip)], bus.world)
    ensures nack == !bus.world.acks(old(bus.slave).heard)
  {
    bus.SendStart();
    HeadByte(bus.slave, chip, bus.world);
    nack := bus.WriteByte(chip << 1);
  }

  lemma {:induction false} HeadByte(s: Slave, chip: byte, world: World)
    requires s.phase == Receiving(0, 0, true)
    ensures Heard(s, WriteHead(chip), world) == AfterBytes(s, [WriteHead(chip)], world)
  {
    assert (chip << 1) & 1 == 0;
  }

  // ---------------------------------------------------------------------
  // i2c_read
  // ---------------------------------------------------------------------

  /** The slave after `n` of `len` bytes have been read; `s` offers the first one. */
  function AfterReads(s: Slave, n: nat, len: nat, told: nat, world: World): Slave
    requires n <= len
  {
    var outs := Outs(len, told, s.answered, world);
    var t := s.(log := s.log + Answers(outs)[..n]);
    if n == len && len > 0 then t.(phase := Off, told := if s.answered then told + len else told)
    else t.(phase := Sending(if s.answered then world.data(told + n) else 255, 0),
            told := if s.answered then told + n + 1 else told)
  }

  lemma {:induction false} OneMoreRead(s: Slave, n: nat, len: nat, told: nat, world: World)
    requires n < len
    ensures Told(AfterReads(s, n, len, told, world), n + 1 < len, world) == AfterReads(s, n + 1, len, told, world)
  {
    var answers := Answers(Outs(len, told, s.answered, world));
    assert answers[..n] + [answers[n]] == answers[..n + 1];
  }

  /** The read loop. */
  method ReadBuffer(bus: Bus, buffer: array<byte>, len: int, ghost told: nat)
    requires !bus.scl && len <= buffer.Length
    requires bus.slave == AfterReads(bus.slave, 0, if len < 0 then 0 else len, told, bus.world)
    modifies bus, buffer
    ensures var n := if len < 0 then 0 else len; var was := old(bus.slave);
      && !bus.scl && bus.slave == AfterReads(was, n, n, told, bus.world)
      && buffer[..] == Outs(n, told, was.answered, bus.world) + old(buffer[n..])
  {
    var left, k := len, 0;
    ghost var n: nat := if len < 0 then 0 else len;
    ghost var was := bus.slave;
    ghost var outs := Outs(n, told, was.answered, bus.world);
    while left > 0
      invariant 0 <= k <= n && !bus.scl && (left > 0 ==> left == n - k) && (left <= 0 ==> k == n)
      invariant bus.slave == AfterReads(was, k, n, told, bus.world)
      invariant forall i :: 0 <= i < buffer.Length ==> buffer[i] == if i < k then outs[i] else old(buffer[i])
    {
      left := left - 1;
      OneMoreRead(was, k, n, told, bus.world);
      buffer[k] := bus.ReadByte(left == 0);
      k := k + 1;
    }
  }

  /** START and the chip address of a read; the answer is not looked at. */
  function Offered(s: Slave, chip: byte, world: World): Slave {
    Heard(Started(s), ReadHead(chip), world)
  }

  lemma {:induction false} OfferIsFirst(s: Slave, chip: byte, len: nat, world: World)
    ensures var t := Offered(s, chip, world); t.phase.Sending? && t == AfterReads(t, 0, len, s.told, world)
    ensures Offered(s, chip, world).answered == world.acks(s.heard)
  {
    assert ((chip << 1) | 1) & 1 == 1;
    var t := Offered(s, chip, world);
    assert t.log + Answers(Outs(len, s.told, t.answered, world))[..0] == t.log;
  }

  /** The read part of i2c_read. With nothing to read the slave is left with
      its first bit on the line, and the STOP shows only if that bit is a one. */
  function ReadOut(s: Slave, chip: byte, len: nat, world: World): Slave {
    var t := AfterReads(Offered(s, chip, world), len, len, s.told, world);
    if Pulls(t.phase) then t else Stopped(t)
  }

  method ReadPart(bus: Bus, chip: byte, buffer: array<byte>, len: int)
    requires Ready(bus.W()) && len <= buffer.Length
    modifies bus, buffer
    ensures var n := if len < 0 then 0 else len; var was := old(bus.slave);
      && bus.scl && bus.sda && bus.slave == ReadOut(was, chip, n, bus.world)
      && buffer[..] == Outs(n, was.told, bus.world.acks(was.heard), bus.world) + old(buffer[n..])
  {
    ghost var was := bus.slave;
    OfferIsFirst(was, chip, if len < 0 then 0 else len, bus.world);
    bus.SendStart();
    var _ := bus.WriteByte((chip << 1) | 1);
    ReadBuffer(bus, buffer, len, was.told);
    bus.SendStop();
  }

  /** The bus after a call to i2c_read, the call reaching the read part or not. */
  function ReadBack(s: Slave, chip: byte, address: seq<byte>, len: nat, world: World): Slave {
    if address == [] then ReadOut(s, chip, len, world)
    else
      var t := Addressed(s, chip, address, world);
      if Reached(address, s.heard, world) then ReadOut(Stopped(t), chip, len, world) else t
  }

  /** i2c_read */
  method Read(bus: Bus, chip: byte, addr: bv32, alen: int, buffer: array<byte>, len: int) returns (rc: int)
    requires Ready(bus.W()) && alen <= 4 && len <= buffer.Length
    modifies bus, buffer
    ensures var address := AddressBytes(addr, alen); var n := if len < 0 then 0 else len; var was := old(bus.slave);
      var found := address == [] || Reached(address, was.heard, bus.world);
      var h := if address == [] then was.heard else was.heard + 1 + |address|;
      && bus.slave == ReadBack(was, chip, address, n, bus.world) && rc == (if found then 0 else 1)
      && buffer[..] == (if found then Outs(n, was.told, bus.world.acks(h), bus.world) + old(buffer[n..]) else old(buffer[..]))
      && Ready(bus.W()) == !Pulls(bus.slave.phase)
  {
    if alen > 0 {
      var ok := Address(bus, chip, addr, alen);
      if !ok { return 1; }
      bus.SendStop();
    }
    ReadPart(bus, chip, buffer, len);
    return 0;
  }
}
