/** The EEPROM behind the bit-banged bus: a chip that knows only the log of
    the bus ends up with the buffer that the caller asked to be written. */
module EepromBus {
  import opened Wrappers
  import opened I2cSlave
  import opened I2cTransactions
  import opened I2cRoundTrip
  import opened I2cRuns
  import At24

  /** The memory, and the bytes heard since the last START. */
  datatype Chip = Chip(mem: seq<byte>, frame: Option<seq<byte>>)

  /** A chip with one address byte at bus address `head`. It programs its page when the frame is closed by a STOP. */
  function Sees(c: Chip, e: Event, head: byte, page: nat): (r: Chip)
    requires page > 0 && |c.mem| % page == 0
    ensures |r.mem| == |c.mem|
  {
    match e
    case Start => c.(frame := Some([]))
    case Byte(b, _) => if c.frame.Some? then c.(frame := Some(c.frame.value + [b])) else c
    case Sent(_, _) => c
    case Stop =>
      var f := c.frame;
      if f.Some? && |f.value| >= 2 && f.value[0] == head && f.value[1] as int < |c.mem|
      then Chip(At24.PageWritten(c.mem, f.value[1] as int, f.value[2..], page), None)
      else c.(frame := None)
  }

  function SeesAll(c: Chip, log: seq<Event>, head: byte, page: nat): (r: Chip)
    requires page > 0 && |c.mem| % page == 0
    ensures |r.mem| == |c.mem|
    decreases |log|
  {
    if log == [] then c else SeesAll(Sees(c, log[0], head, page), log[1..], head, page)
  }

  lemma {:induction false} SeesTogether(c: Chip, x: seq<Event>, y: seq<Event>, head: byte, page: nat)
    requires page > 0 && |c.mem| % page == 0
    ensures SeesAll(c, x + y, head, page) == SeesAll(SeesAll(c, x, head, page), y, head, page)
    decreases |x|
  {
    if x == [] {
      assert x + y == y;
    } else {
      assert (x + y)[1..] == x[1..] + y;
      SeesTogether(Sees(c, x[0], head, page), x[1..], y, head, page);
    }
  }

  /** The bytes join the open frame, acknowledged or not. */
  lemma {:induction false} SeesBytes(c: Chip, bytes: seq<byte>, h: nat, world: World, head: byte, page: nat)
    requires page > 0 && |c.mem| % page == 0 && c.frame.Some?
    ensures SeesAll(c, Bytes(bytes, h, world), head, page) == c.(frame := Some(c.frame.value + bytes))
    decreases |bytes|
  {
    if bytes == [] {
      assert c.frame.value + bytes == c.frame.value;
    } else {
      assert Bytes(bytes, h, world)[1..] == Bytes(bytes[1..], h + 1, world);
      assert c.frame.value + [bytes[0]] + bytes[1..] == c.frame.value + bytes;
      SeesBytes(Sees(c, Byte(bytes[0], world.acks(h)), head, page), bytes[1..], h + 1, world, head, page);
    }
  }

  /** After a START the frame holds the bytes that came, whatever the chip saw before. */
  lemma {:induction false} SeesFrame(c: Chip, bytes: seq<byte>, h: nat, world: World, head: byte, page: nat)
    requires page > 0 && |c.mem| % page == 0
    ensures SeesAll(c, [Start] + Bytes(bytes, h, world), head, page) == Chip(c.mem, Some(bytes))
  {
    SeesTogether(c, [Start], Bytes(bytes, h, world), head, page);
    SeesOne(c, Start, head, page);
    SeesBytes(Sees(c, Start, head, page), bytes, h, world, head, page);
    assert [] + bytes == bytes;
  }

  lemma {:induction false} SeesOne(c: Chip, e: Event, head: byte, page: nat)
    requires page > 0 && |c.mem| % page == 0
    ensures SeesAll(c, [e], head, page) == Sees(c, e, head, page)
  {}

  /** A chip ignores what other chips, or the master, answer. */
  lemma {:induction false} SeesAnswers(c: Chip, outs: seq<Event>, head: byte, page: nat)
    requires page > 0 && |c.mem| % page == 0 && forall i :: 0 <= i < |outs| ==> outs[i].Sent?
    ensures SeesAll(c, outs, head, page) == c
    decreases |outs|
  {
    if outs != [] {
      assert outs[0].Sent?;
      SeesAnswers(c, outs[1..], head, page);
    }
  }

  /** The address part alone programs nothing. */
  lemma {:induction false} HeadSeen(c: Chip, chip: byte, address: seq<byte>, h: nat, world: World, head: byte, page: nat)
    requires page > 0 && |c.mem| % page == 0
    ensures var d := SeesAll(c, HeadLog(chip, address, h, world), head, page);
      && d.mem == c.mem
      && (Reached(address, h, world) ==> d == Chip(c.mem, Some([WriteHead(chip)] + address)))
  {
    var bytes := HeadBytes(chip, address, h, world);
    SeesFrame(c, bytes, h, world, head, page);
    if world.acks(h) {
      assert HeadLog(chip, address, h, world) == [Start] + Bytes(bytes, h, world);
    } else {
      SeesTogether(c, [Start] + Bytes(bytes, h, world), [Stop], head, page);
      SeesOne(Chip(c.mem, Some(bytes)), Stop, head, page);
    }
  }

  /** The frame of a write that gets through is there when the STOP comes. */
  lemma {:induction false} WriteSeen(c: Chip, chip: byte, address: seq<byte>, buffer: seq<byte>, h: nat, world: World,
                                      head: byte, page: nat)
    requires page > 0 && |c.mem| % page == 0 && Reached(address, h, world)
    ensures SeesAll(c, WriteLog(chip, address, buffer, h, world), head, page) ==
            Sees(Chip(c.mem, Some([WriteHead(chip)] + address + buffer)), Stop, head, page)
  {
    var x, y := HeadLog(chip, address, h, world), Bytes(buffer, h + 1 + |address|, world);
    HeadSeen(c, chip, address, h, world, head, page);
    SeesTogether(c, x + y, [Stop], head, page);
    SeesTogether(c, x, y, head, page);
    SeesBytes(Chip(c.mem, Some([WriteHead(chip)] + address)), buffer, h + 1 + |address|, world, head, page);
    SeesOne(Chip(c.mem, Some([WriteHead(chip)] + address + buffer)), Stop, head, page);
  }

  lemma {:induction false} RefusedWriteSeen(c: Chip, chip: byte, address: seq<byte>, buffer: seq<byte>, h: nat, world: World,
                                             head: byte, page: nat)
    requires page > 0 && |c.mem| % page == 0 && !Reached(address, h, world)
    ensures SeesAll(c, WriteLog(chip, address, buffer, h, world), head, page).mem == c.mem
  {
    HeadSeen(c, chip, address, h, world, head, page);
    var x := HeadLog(chip, address, h, world);
    assert x + [] + [] == x;
  }

  /** Nor does the read part. */
  lemma {:induction false} ReadOutSeen(c: Chip, chip: byte, len: nat, h: nat, told: nat, world: World, head: byte, page: nat)
    requires page > 0 && |c.mem| % page == 0
    ensures SeesAll(c, ReadOutLog(chip, len, h, told, world), head, page).mem == c.mem
  {
    var bytes, outs := [ReadHead(chip)], Answers(Outs(len, told, world.acks(h), world));
    var x := [Start] + Bytes(bytes, h, world);
    assert x == [Start, Byte(ReadHead(chip), world.acks(h))];
    SeesFrame(c, bytes, h, world, head, page);
    var d := Chip(c.mem, Some(bytes));
    SeesTogether(c, x, outs, head, page);
    SeesAnswers(d, outs, head, page);
    SeesTogether(c, x + outs, [Stop], head, page);
    SeesOne(d, Stop, head, page);
    assert x + outs + [] == x + outs;
  }

  /** A read gives the chip an address and programs nothing. */
  lemma {:induction false} ReadSeen(c: Chip, chip: byte, address: seq<byte>, len: nat, h: nat, told: nat, world: World,
                                     head: byte, page: nat)
    requires page > 0 && |c.mem| % page == 0 && (WriteHead(chip) == head ==> |address| <= 1)
    ensures SeesAll(c, ReadLog(chip, address, len, h, told, world), head, page).mem == c.mem
  {
    if address == [] {
      ReadOutSeen(c, chip, len, h, told, world, head, page);
    } else if Reached(address, h, world) {
      var x := HeadLog(chip, address, h, world) + [Stop];
      AddressSeen(c, chip, address, h, world, head, page);
      SeesTogether(c, x, ReadOutLog(chip, len, h + 1 + |address|, told, world), head, page);
      ReadOutSeen(SeesAll(c, x, head, page), chip, len, h + 1 + |address|, told, world, head, page);
    } else {
      HeadSeen(c, chip, address, h, world, head, page);
    }
  }

  lemma {:induction false} AddressSeen(c: Chip, chip: byte, address: seq<byte>, h: nat, world: World, head: byte, page: nat)
    requires page > 0 && |c.mem| % page == 0 && (WriteHead(chip) == head ==> |address| <= 1) && Reached(address, h, world)
    ensures SeesAll(c, HeadLog(chip, address, h, world) + [Stop], head, page).mem == c.mem
  {
    var frame := [WriteHead(chip)] + address;
    HeadSeen(c, chip, address, h, world, head, page);
    SeesTogether(c, HeadLog(chip, address, h, world), [Stop], head, page);
    SeesOne(Chip(c.mem, Some(frame)), Stop, head, page);
    assert |address| == 1 ==> frame[2..] == [];
  }

  // ---------------------------------------------------------------------
  // Whole runs
  // ---------------------------------------------------------------------

  /** The page write that a call is for the chip, if it is one. */
  function WriteOf(call: Call, chip: byte): (r: seq<At24.PageWrite>)
    ensures |r| <= 1
  {
    if call.Writing? && WriteHead(call.chip) == WriteHead(chip) && |call.address| == 1
    then [At24.PageWrite(call.address[0] as int, call.buffer)] else []
  }

  function WritesOf(calls: seq<Call>, chip: byte): seq<At24.PageWrite>
    decreases |calls|
  {
    if calls == [] then [] else WriteOf(calls[0], chip) + WritesOf(calls[1..], chip)
  }

  /** A call to another chip, or one that fits the size of this one and its one address byte. */
  predicate Suits(call: Call, chip: byte, size: nat) {
    WriteHead(call.chip) == WriteHead(chip) ==>
      match call
      case Probing(_) => true
      case Writing(_, address, buffer) => |address| == 1 && address[0] as int < size && address[0] as int + |buffer| <= size
      case Reading(_, address, _) => |address| <= 1
  }

  predicate AllSuit(calls: seq<Call>, chip: byte, size: nat) { forall i :: 0 <= i < |calls| ==> Suits(calls[i], chip, size) }

  /** The chip acknowledges every byte of the writes to it. How it or any other
      chip answers to a probe or a read, or another chip to a write, is open. */
  predicate Accepted(s: Slave, calls: seq<Call>, chip: byte, world: World)
    decreases |calls|
  {
    calls == [] || (
      (WriteOf(calls[0], chip) != [] ==> AllAcked(2 + |calls[0].buffer|, s.heard, world)) &&
      Accepted(After(s, calls[0], world), calls[1..], chip, world))
  }

  /** What one call leaves in the chip. */
  lemma {:induction false} CallSeen(c: Chip, call: Call, chip: byte, h: nat, told: nat, world: World, page: nat)
    requires page > 0 && |c.mem| % page == 0 && Suits(call, chip, |c.mem|)
    requires WriteOf(call, chip) != [] ==> AllAcked(2 + |call.buffer|, h, world)
    ensures At24.InRange(WriteOf(call, chip), |c.mem|)
    ensures SeesAll(c, CallLog(call, h, told, world), WriteHead(chip), page).mem ==
            At24.WritesDone(c.mem, WriteOf(call, chip), page)
  {
    var head := WriteHead(chip);
    match call
    case Probing(_) => ProbeSeen(c, call.chip, h, world, head, page);
    case Writing(_, address, buffer) =>
      if WriteOf(call, chip) != [] {
        OwnWriteSeen(c, chip, call.chip, address, buffer, h, world, page);
      } else {
        OtherWriteSeen(c, call.chip, address, buffer, h, world, head, page);
      }
    case Reading(_, address, len) => ReadSeen(c, call.chip, address, len, h, told, world, head, page);
  }

  lemma {:induction false} ProbeSeen(c: Chip, chip: byte, h: nat, world: World, head: byte, page: nat)
    requires page > 0 && |c.mem| % page == 0
    ensures SeesAll(c, [Start] + Bytes([WriteHead(chip)], h, world) + [Stop], head, page).mem == c.mem
  {
    SeesFrame(c, [WriteHead(chip)], h, world, head, page);
    SeesTogether(c, [Start] + Bytes([WriteHead(chip)], h, world), [Stop], head, page);
    SeesOne(Chip(c.mem, Some([WriteHead(chip)])), Stop, head, page);
  }

  lemma {:induction false} OwnWriteSeen(c: Chip, chip: byte, other: byte, address: seq<byte>, buffer: seq<byte>, h: nat,
                                         world: World, page: nat)
    requires page > 0 && |c.mem| % page == 0 && WriteHead(other) == WriteHead(chip)
    requires |address| == 1 && address[0] as int < |c.mem| && address[0] as int + |buffer| <= |c.mem|
    requires AllAcked(2 + |buffer|, h, world)
    ensures var w := At24.PageWrite(address[0] as int, buffer);
      SeesAll(c, WriteLog(other, address, buffer, h, world), WriteHead(chip), page).mem == At24.WritesDone(c.mem, [w], page)
  {
    WriteSeen(c, other, address, buffer, h, world, WriteHead(chip), page);
    At24.OneWriteDone(c.mem, At24.PageWrite(address[0] as int, buffer), page);
    var bytes := [WriteHead(other)] + address + buffer;
    assert bytes[2..] == buffer;
  }

  lemma {:induction false} OtherWriteSeen(c: Chip, chip: byte, address: seq<byte>, buffer: seq<byte>, h: nat, world: World,
                                           head: byte, page: nat)
    requires page > 0 && |c.mem| % page == 0 && WriteHead(chip) != head
    ensures SeesAll(c, WriteLog(chip, address, buffer, h, world), head, page).mem == c.mem
  {
    if Reached(address, h, world) {
      WriteSeen(c, chip, address, buffer, h, world, head, page);
    } else {
      RefusedWriteSeen(c, chip, address, buffer, h, world, head, page);
    }
  }

  /** In every run of calls, to this chip and to others, probes and reads
      between the writes and whatever is answered to them: a chip that sees only
      the bus holds what the writes to it, one after the other, leave. */
  lemma {:induction false} WritesThroughBus(s: Slave, c: Chip, chip: byte, calls: seq<Call>, world: World, page: nat)
    requires page > 0 && |c.mem| % page == 0 && AllSuit(calls, chip, |c.mem|) && Accepted(s, calls, chip, world)
    ensures At24.InRange(WritesOf(calls, chip), |c.mem|)
    ensures SeesAll(c, RunLog(s, calls, world), WriteHead(chip), page).mem ==
            At24.WritesDone(c.mem, WritesOf(calls, chip), page)
    decreases |calls|
  {
    if calls != [] {
      var x, t := CallLog(calls[0], s.heard, s.told, world), After(s, calls[0], world);
      var d := SeesAll(c, x, WriteHead(chip), page);
      assert Suits(calls[0], chip, |c.mem|);
      CallSeen(c, calls[0], chip, s.heard, s.told, world, page);
      assert AllSuit(calls[1..], chip, |d.mem|);
      WritesThroughBus(t, d, chip, calls[1..], world, page);
      SeesTogether(c, x, RunLog(t, calls[1..], world), WriteHead(chip), page);
      At24.WritesDoneTogether(c.mem, WriteOf(calls[0], chip), WritesOf(calls[1..], chip), page);
    }
  }

  // ---------------------------------------------------------------------
  // A buffer
  // ---------------------------------------------------------------------

  function ByteOf(n: nat): (b: byte)
    requires n < 256
    ensures b as int == n
  {
    if n == 0 then 0 else
      NextByte(ByteOf(n - 1));
      ByteOf(n - 1) + 1
  }

  lemma {:induction false} NextByte(b: byte)
    requires b as int < 255
    ensures (b + 1) as int == b as int + 1
  {}

  function Probes(chip: byte, n: nat): (r: seq<Call>)
    ensures |r| == n && forall i :: 0 <= i < n ==> r[i] == Probing(chip)
  {
    seq(n, i => Probing(chip))
  }

  predicate Addressable(writes: seq<At24.PageWrite>) { forall i :: 0 <= i < |writes| ==> writes[i].addr < 256 }

  /** i2c_write for each of the writes, and after the k-th to last of them `waits(k)` probes until the chip answers. */
  function DriverCalls(chip: byte, writes: seq<At24.PageWrite>, waits: nat -> nat): seq<Call>
    requires Addressable(writes)
  {
    if writes == [] then []
    else
      [Writing(chip, [ByteOf(writes[0].addr)], writes[0].data)] + Probes(chip, waits(|writes|)) +
      DriverCalls(chip, writes[1..], waits)
  }

  lemma {:induction false} WritesOfTogether(x: seq<Call>, y: seq<Call>, chip: byte)
    ensures WritesOf(x + y, chip) == WritesOf(x, chip) + WritesOf(y, chip)
    decreases |x|
  {
    if x == [] {
      assert x + y == y;
    } else {
      assert (x + y)[1..] == x[1..] + y;
      WritesOfTogether(x[1..], y, chip);
      assert WriteOf(x[0], chip) + (WritesOf(x[1..], chip) + WritesOf(y, chip)) == WritesOf(x, chip) + WritesOf(y, chip);
    }
  }

  lemma {:induction false} ProbesWriteNothing(chip: byte, n: nat)
    ensures WritesOf(Probes(chip, n), chip) == []
    decreases n
  {
    if n > 0 {
      assert Probes(chip, n)[1..] == Probes(chip, n - 1);
      ProbesWriteNothing(chip, n - 1);
    }
  }

  lemma {:induction false} DriverWrites(chip: byte, writes: seq<At24.PageWrite>, waits: nat -> nat)
    requires Addressable(writes)
    ensures WritesOf(DriverCalls(chip, writes, waits), chip) == writes
    decreases |writes|
  {
    if writes != [] {
      var call := Writing(chip, [ByteOf(writes[0].addr)], writes[0].data);
      OneWriteOf(call, chip);
      DriverWrites(chip, writes[1..], waits);
      ProbedWrite(chip, call, waits(|writes|), DriverCalls(chip, writes[1..], waits));
      Whole(writes);
    }
  }

  lemma {:induction false} ProbedWrite(chip: byte, call: Call, n: nat, rest: seq<Call>)
    ensures WritesOf([call] + Probes(chip, n) + rest, chip) == WritesOf([call], chip) + WritesOf(rest, chip)
  {
    ProbesWriteNothing(chip, n);
    WritesOfTogether([call], Probes(chip, n), chip);
    WritesOfTogether([call] + Probes(chip, n), rest, chip);
    assert WritesOf([call], chip) + [] == WritesOf([call], chip);
  }

  lemma {:induction false} Whole(writes: seq<At24.PageWrite>)
    requires writes != []
    ensures [writes[0]] + writes[1..] == writes
  {}

  lemma {:induction false} OneWriteOf(call: Call, chip: byte)
    ensures WritesOf([call], chip) == WriteOf(call, chip)
  {
    assert WritesOf([call][1..], chip) == [];
    assert WriteOf(call, chip) + [] == WriteOf(call, chip);
  }

  lemma {:induction false} DriverSuits(chip: byte, writes: seq<At24.PageWrite>, waits: nat -> nat, size: nat)
    requires Addressable(writes) && At24.InRange(writes, size) && forall i :: 0 <= i < |writes| ==> writes[i].addr < size
    ensures AllSuit(DriverCalls(chip, writes, waits), chip, size)
    decreases |writes|
  {
    if writes != [] {
      DriverSuits(chip, writes[1..], waits, size);
    }
  }

  /** Every write of a buffer starts where some byte of it goes, or at its address. */
  lemma {:induction false} SplitStarts(a: nat, data: seq<byte>, page: nat)
    requires page > 0
    ensures forall i :: 0 <= i < |At24.Split(a, data, page)| ==> a <= At24.Split(a, data, page)[i].addr < a + |data|
    decreases |data|
  {
    if data != [] {
      var n := At24.Chunk(a, |data|, page);
      SplitStarts(a + n, data[n..], page);
    }
  }

  /** at24cxx_WriteBuffer through the bit-banged bus: for every buffer that
      fits behind `addr`, with any number of probes after each write and any
      answers to them, the chip that sees the log alone holds the buffer at its
      address, and everything else as it was. */
  lemma {:induction false} BufferThroughBus(s: Slave, c: Chip, chip: byte, addr: nat, buffer: seq<byte>, waits: nat -> nat,
                                            world: World, page: nat)
    requires page > 0 && |c.mem| % page == 0 && |c.mem| <= 256 && addr < |c.mem| && addr + |buffer| <= |c.mem|
    ensures Addressable(At24.Writes(addr, buffer, page))
    ensures var calls := DriverCalls(chip, At24.Writes(addr, buffer, page), waits);
      Accepted(s, calls, chip, world) ==>
        && |AfterAll(s, calls, world).log| >= |s.log|
        && SeesAll(c, AfterAll(s, calls, world).log[|s.log|..], WriteHead(chip), page).mem == Put(c.mem, addr, buffer)
  {
    var writes := At24.Writes(addr, buffer, page);
    SplitStarts(addr, buffer, page);
    At24.WritesArePut(c.mem, addr, buffer, page);
    var calls := DriverCalls(chip, writes, waits);
    DriverWrites(chip, writes, waits);
    DriverSuits(chip, writes, waits, |c.mem|);
    RunLogged(s, calls, world);
    if Accepted(s, calls, chip, world) {
      WritesThroughBus(s, c, chip, calls, world, page);
      assert (s.log + RunLog(s, calls, world))[|s.log|..] == RunLog(s, calls, world);
    }
  }
}
