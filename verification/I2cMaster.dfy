/** The bit-banged master: it drives SCL and SDA one edge at a time and reads SDA back. */
module I2cMaster {
  import opened I2cSlave

  // ---------------------------------------------------------------------
  // Whole bytes, as the slave logs them
  // ---------------------------------------------------------------------

  /** A byte the slave has heard and answered. */
  function Heard(s: Slave, b: byte, world: World): (r: Slave)
    requires s.phase.Receiving?
  {
    var ack := world.acks(s.heard);
    var t := s.(log := s.log + [Byte(b, ack)], heard := s.heard + 1);
    if s.phase.first && b & 1 == 1 then Sends(t.(answered := ack), world) else t.(phase := Receiving(0, 0, false))
  }

  /** A byte the slave has sent and the master has answered. */
  function Told(s: Slave, ack: bool, world: World): (r: Slave)
    requires s.phase.Sending?
  {
    var t := s.(log := s.log + [Sent(s.phase.out, ack)]);
    if ack then Sends(t, world) else t.(phase := Off)
  }

  /** The slave waits for the first bit of a byte, or offers one. */
  predicate AtByte(s: Slave) { s.phase.Receiving? && s.phase.count == 0 && s.phase.acc == 0 }
  predicate AtOffer(s: Slave) { s.phase.Sending? && s.phase.k == 0 }

  /** One clock pulse, from a high clock. */
  function Pulse(w: Wires, world: World): Wires { SclTo(SclTo(w, false, world), true, world) }

  /** `n` clock pulses. */
  function Clocked(w: Wires, n: nat, world: World): (r: Wires)
    decreases n
  {
    if n == 0 then w else Clocked(Pulse(w, world), n - 1, world)
  }

  /** SDA low under a low clock, the clock high, SDA high. */
  function StopSent(w: Wires, world: World): Wires {
    SdaTo(SclTo(SdaTo(SclTo(w, false, world), false), true, world), true)
  }

  /** The clock high, then SDA high. */
  function Raised(w: Wires, world: World): Wires { SdaTo(SclTo(w, true, world), true) }

  /** send_reset. */
  function Reset(w: Wires, world: World): Wires { StopSent(Clocked(Raised(w, world), 9, world), world) }

  class Bus {
    var scl: bool
    var sda: bool
    var slave: Slave
    const world: World

    constructor (world: World, slave: Slave)
      ensures scl && sda && this.slave == slave && this.world == world
    {
      this.scl, this.sda, this.world, this.slave := true, true, world, slave;
    }

    ghost function W(): Wires
      reads this
    {
      Wires(scl, sda, slave)
    }

    method SetScl(high: bool)
      modifies this
      ensures W() == SclTo(old(W()), high, world)
    {
      if scl != high {
        slave := if high then Risen(slave, sda && !Pulls(slave.phase)) else Fallen(slave, world);
        scl := high;
      }
    }

    method SetSda(high: bool)
      modifies this
      ensures W() == SdaTo(old(W()), high)
    {
      if scl && !Pulls(slave.phase) && sda != high {
        slave := if high then Stopped(slave) else Started(slave);
      }
      sda := high;
    }

    /** I2C_READ */
    method ReadSda() returns (level: bool)
      ensures level == Level(W())
    {
      level := sda && !Pulls(slave.phase);
    }

    method SendReset()
      modifies this
      ensures W() == Reset(old(W()), world)
    {
      Raise();
      Clock();
      SendStop();
    }

    method Raise()
      modifies this
      ensures W() == Raised(old(W()), world)
    {
      SetScl(true);
      SetSda(true);
    }

    /** The loop of nine pulses. */
    method Clock()
      modifies this
      ensures W() == Clocked(old(W()), 9, world)
    {
      ghost var goal := Clocked(W(), 9, world);
      for j := 0 to 9
        invariant Clocked(W(), 9 - j, world) == goal
      {
        ClockOnce(9 - j, goal);
      }
    }

    method ClockOnce(ghost n: nat, ghost goal: Wires)
      requires n > 0 && Clocked(W(), n, world) == goal
      modifies this
      ensures Clocked(W(), n - 1, world) == goal
    {
      ghost var was := W();
      SetScl(false);
      SetScl(true);
      assert W() == Pulse(was, world);
    }

    method SendStart()
      requires !scl || sda
      modifies this
      ensures scl && !sda
      ensures slave == if Pulls(old(slave).phase) then old(slave) else Started(old(slave))
    {
      SetSda(true);
      SetScl(true);
      SetSda(false);
    }

    method SendStop()
      modifies this
      ensures scl && sda && W() == StopSent(old(W()), world)
      ensures !old(scl) ==> slave == if Pulls(old(slave).phase) then old(slave) else Stopped(old(slave))
    {
      SetScl(false);
      SetSda(false);
      SetScl(true);
      SetSda(true);
    }

    /** `ack` is the level put on SDA: low to acknowledge. The slave has just sent its last bit. */
    method SendAck(ack: bool)
      requires scl && slave.phase.Sending? && slave.phase.k == 7
      modifies this
      ensures !scl && sda == ack && slave == Told(old(slave), !ack, world)
    {
      SetScl(false);
      SetSda(ack);
      SetScl(true);
      SetScl(false);
    }

    /** One turn of the loop of write_byte. */
    method WriteBit(bit: bool)
      requires slave.phase.Receiving? && slave.phase.count < 8
      modifies this
      ensures scl && sda == bit
      ensures var was := old(slave).phase;
        slave == old(slave).(phase := Receiving(was.count + 1, (was.acc << 1) | (if bit then 1 else 0), was.first))
    {
      SetScl(false);
      assert slave == old(slave);
      SetSda(bit);
      assert W() == Wires(false, bit, old(slave)) && Level(W()) == bit;
      SetScl(true);
      assert slave == Risen(old(slave), bit);
    }

    /** The ninth clock: release SDA and look for the acknowledge. */
    method LookForAck() returns (nack: bool)
      requires scl && slave.phase.Receiving? && slave.phase.count == 8
      modifies this
      ensures !scl && sda && nack == !world.acks(old(slave).heard)
      ensures var was := old(slave).phase;
        slave == Heard(old(slave).(phase := Receiving(0, 0, was.first)), was.acc, world)
    {
      SetScl(false);
      SetSda(true);
      SetScl(true);
      nack := ReadSda();
      SetScl(false);
    }

    method WriteByte(byte: byte) returns (nack: bool)
      requires AtByte(slave)
      modifies this
      ensures !scl && sda && slave == Heard(old(slave), byte, world)
      ensures nack == !world.acks(old(slave).heard)
    {
      ghost var was := slave;
      var data := byte;
      var j := 0;
      while j < 8
        invariant 0 <= j <= 8 && data == Shifted(byte, j) && (j == 0 || scl)
        invariant slave == was.(phase := Receiving(j, Prefix(byte, j), was.phase.first))
      {
        TopBit(byte, j);
        PrefixGrows(byte, j);
        WriteBit(data & 0x80 != 0);
        data := data << 1;
        j := j + 1;
      }
      nack := LookForAck();
    }

    /** Bit `j` of the byte `out` that the slave sends is on the line, or will be when SCL falls. */
    ghost predicate Offering(out: byte, j: nat)
      reads this
    {
      sda && scl == (j > 0) && slave.phase == Sending(out, if j == 0 then 0 else j - 1)
    }

    /** One turn of the loop of read_byte. */
    method ReadBit(data: byte, ghost out: byte, ghost j: nat) returns (r: byte)
      requires j < 8 && Offering(out, j) && data == Prefix(out, j)
      modifies this
      ensures Offering(out, j + 1) && r == Prefix(out, j + 1)
      ensures slave == old(slave).(phase := Sending(out, j))
    {
      PrefixGrows(out, j);
      SetScl(false);
      SetScl(true);
      r := data << 1;
      var level := ReadSda();
      assert level == BitOf(out, j);
      r := r | (if level then 1 else 0);
    }

    method ReadByte(ack: bool) returns (byte: byte)
      requires !scl && AtOffer(slave)
      modifies this
      ensures !scl && sda == ack && slave == Told(old(slave), !ack, world) && byte == old(slave).phase.out
    {
      ghost var was := slave;
      ghost var out := was.phase.out;
      SetSda(true);
      var data: byte := 0;
      var j := 0;
      while j < 8
        invariant 0 <= j <= 8 && Offering(out, j) && data == Prefix(out, j)
        invariant slave == was.(phase := slave.phase)
      {
        data := ReadBit(data, out, j);
        j := j + 1;
      }
      assert Told(slave, !ack, world) == Told(was, !ack, world);
      SendAck(ack);
      return data;
    }
  }
}
