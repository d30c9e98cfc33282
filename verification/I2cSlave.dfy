/** The far end of the bus: a slave that reads the levels of SCL and SDA as
    sections 3.1.3 to 3.1.6 of NXP UM10204 prescribe, and keeps a log. It knows
    nothing of the master but the two levels. */
module I2cSlave {
  import opened Wrappers

  type byte = bv8

  /** A byte from the master with the slave's answer, or a byte from the slave with the master's answer. */
  datatype Event = Start | Stop | Byte(value: byte, acked: bool) | Sent(value: byte, acked: bool)

  /** What the slave does with the n-th byte it hears, and the n-th byte it tells. */
  datatype World = World(acks: nat -> bool, data: nat -> byte)

  datatype Phase =
    | Off
    | Receiving(count: nat, acc: byte, first: bool)
    | Acking(value: byte, ack: bool, first: bool)
    | Sending(out: byte, k: nat)
    | Listening(out: byte, answer: Option<bool>)

  /** `answered`: the slave has acknowledged the read address, so it drives the bytes it sends. */
  datatype Slave = Slave(phase: Phase, log: seq<Event>, heard: nat, told: nat, answered: bool)

  /** The k-th bit of a byte, most significant bit first. */
  function BitOf(b: byte, k: nat): bool
    requires k < 8
  {
    match k
    case 0 => b & 0x80 != 0
    case 1 => b & 0x40 != 0
    case 2 => b & 0x20 != 0
    case 3 => b & 0x10 != 0
    case 4 => b & 0x08 != 0
    case 5 => b & 0x04 != 0
    case 6 => b & 0x02 != 0
    case 7 => b & 0x01 != 0
  }

  /** The slave pulls SDA low: to acknowledge, or to send a zero. */
  predicate Pulls(p: Phase) {
    (p.Acking? && p.ack) || (p.Sending? && p.k < 8 && !BitOf(p.out, p.k))
  }

  /** SCL rises with SDA at `level`: the bit is read. */
  function Risen(s: Slave, level: bool): Slave {
    match s.phase
    case Receiving(c, acc, first) =>
      if c < 8 then s.(phase := Receiving(c + 1, (acc << 1) | (if level then 1 else 0), first)) else s
    case Listening(out, _) => s.(phase := Listening(out, Some(!level)))
    case _ => s
  }

  /** The next byte goes out; without an answer to the address nobody drives the line. */
  function Sends(s: Slave, world: World): Slave {
    if s.answered then s.(phase := Sending(world.data(s.told), 0), told := s.told + 1)
    else s.(phase := Sending(255, 0))
  }

  /** SCL falls: the slave may change what it drives. */
  function Fallen(s: Slave, world: World): Slave {
    match s.phase
    case Receiving(c, acc, first) =>
      if c == 8 then s.(phase := Acking(acc, world.acks(s.heard), first), heard := s.heard + 1) else s
    case Acking(value, ack, first) =>
      var t := s.(log := s.log + [Byte(value, ack)]);
      if first && value & 1 == 1 then Sends(t.(answered := ack), world)
      else t.(phase := Receiving(0, 0, false))
    case Sending(out, k) => s.(phase := if k < 7 then Sending(out, k + 1) else Listening(out, None))
    case Listening(out, answer) =>
      if answer.None? then s
      else
        var t := s.(log := s.log + [Sent(out, answer.value)]);
        if answer.value then Sends(t, world) else t.(phase := Off)
    case Off => s
  }

  /** SDA falls, or rises, while SCL is high. */
  function Started(s: Slave): Slave { s.(phase := Receiving(0, 0, true), log := s.log + [Start]) }
  function Stopped(s: Slave): Slave { s.(phase := Off, log := s.log + [Stop]) }

  /** The clock, the data line as the master drives it, and the slave. */
  datatype Wires = Wires(scl: bool, sda: bool, slave: Slave)

  /** Open drain: the line is high when neither end pulls it. */
  predicate Level(w: Wires) { w.sda && !Pulls(w.slave.phase) }

  function SclTo(w: Wires, high: bool, world: World): Wires {
    if w.scl == high then w
    else w.(scl := high, slave := if high then Risen(w.slave, Level(w)) else Fallen(w.slave, world))
  }

  function SdaTo(w: Wires, high: bool): Wires {
    var v := w.(sda := high);
    if !w.scl || Level(v) == Level(w) then v
    else v.(slave := if Level(v) then Stopped(w.slave) else Started(w.slave))
  }

  // ---------------------------------------------------------------------
  // Bits
  // ---------------------------------------------------------------------

  /** The first k bits, as a number. */
  function Prefix(b: byte, k: nat): byte
    requires k <= 8
  {
    match k
    case 0 => 0
    case 1 => b >> 7
    case 2 => b >> 6
    case 3 => b >> 5
    case 4 => b >> 4
    case 5 => b >> 3
    case 6 => b >> 2
    case 7 => b >> 1
    case 8 => b
  }

  lemma {:induction false} PrefixGrows(b: byte, k: nat)
    requires k < 8
    ensures Prefix(b, k + 1) == (Prefix(b, k) << 1) | (if BitOf(b, k) then 1 else 0)
  {}

  /** The register of write_byte after k shifts. */
  function Shifted(b: byte, k: nat): byte
    requires k <= 8
  {
    if k == 0 then b else Shifted(b, k - 1) << 1
  }

  lemma {:induction false} ShiftedIs(b: byte)
    ensures Shifted(b, 1) == b << 1 && Shifted(b, 2) == b << 2 && Shifted(b, 3) == b << 3 && Shifted(b, 4) == b << 4
    ensures Shifted(b, 5) == b << 5 && Shifted(b, 6) == b << 6 && Shifted(b, 7) == b << 7
  {
    assert (b << 1) << 1 == b << 2 && (b << 2) << 1 == b << 3 && (b << 3) << 1 == b << 4;
    assert (b << 4) << 1 == b << 5 && (b << 5) << 1 == b << 6 && (b << 6) << 1 == b << 7;
  }

  /** Its top bit is bit k. */
  lemma {:induction false} TopBit(b: byte, k: nat)
    requires k < 8
    ensures (Shifted(b, k) & 0x80 != 0) == BitOf(b, k)
  {
    ShiftedIs(b);
  }
}
