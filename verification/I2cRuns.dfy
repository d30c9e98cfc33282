/** Any sequence of calls on one bus: the log is the calls' logs one after the
    other, START and STOP stand only where a transaction begins and ends. */
module I2cRuns {
  import opened I2cSlave
  import opened I2cMaster
  import opened I2cTransactions
  import opened I2cRoundTrip
  import opened I2cReset

  datatype Call =
    | Probing(chip: byte)
    | Writing(chip: byte, address: seq<byte>, buffer: seq<byte>)
    | Reading(chip: byte, address: seq<byte>, len: nat)

  /** What the call leaves of the slave, as the contracts of Probe, Write and Read have it. */
  function After(s: Slave, call: Call, world: World): Slave {
    match call
    case Probing(chip) => Stopped(AfterBytes(Started(s), [WriteHead(chip)], world))
    case Writing(chip, address, buffer) => Written(s, chip, address, buffer, world)
    case Reading(chip, address, len) => ReadBack(s, chip, address, len, world)
  }

  function CallLog(call: Call, h: nat, told: nat, world: World): seq<Event> {
    match call
    case Probing(chip) => [Start] + Bytes([WriteHead(chip)], h, world) + [Stop]
    case Writing(chip, address, buffer) => WriteLog(chip, address, buffer, h, world)
    case Reading(chip, address, len) => ReadLog(chip, address, len, h, told, world)
  }

  lemma {:induction false} CallLogged(s: Slave, call: Call, world: World)
    ensures After(s, call, world).log == s.log + CallLog(call, s.heard, s.told, world)
    ensures !(call.Reading? && call.len == 0) ==> !Pulls(After(s, call, world).phase)
  {
    match call
    case Probing(chip) =>
      var x := Bytes([WriteHead(chip)], s.heard, world);
      assert s.log + [Start] + x + [Stop] == s.log + ([Start] + x + [Stop]);
    case Writing(chip, address, buffer) => WriteLogged(s, chip, address, buffer, world);
    case Reading(chip, address, len) => ReadLogged(s, chip, address, len, world);
  }

  // ---------------------------------------------------------------------
  // Frames
  // ---------------------------------------------------------------------

  /** Where an observer of the log stands: between frames, after a START, or
      after a byte that was acknowledged or not. */
  datatype Place = Between | Begun | Within(acked: bool) | Spurious

  /** A START may come between frames or after a refused byte, a STOP only
      after a byte, and no byte outside a frame. */
  function Next(p: Place, e: Event): Place {
    match (p, e)
    case (Between, Start) => Begun
    case (Within(acked), Start) => if acked then Spurious else Begun
    case (Within(_), Stop) => Between
    case (Begun, Byte(_, acked)) => Within(acked)
    case (Within(_), Byte(_, acked)) => Within(acked)
    case (Within(_), Sent(_, acked)) => Within(acked)
    case _ => Spurious
  }

  function Follow(p: Place, log: seq<Event>): Place
    decreases |log|
  {
    if log == [] then p else Follow(Next(p, log[0]), log[1..])
  }

  lemma {:induction false} FollowTogether(p: Place, x: seq<Event>, y: seq<Event>)
    ensures Follow(p, x + y) == Follow(Follow(p, x), y)
    decreases |x|
  {
    if x == [] {
      assert x + y == y;
    } else {
      assert (x + y)[1..] == x[1..] + y;
      FollowTogether(Next(p, x[0]), x[1..], y);
    }
  }

  predicate IsByte(e: Event) { e.Byte? || e.Sent? }

  /** Bytes alone leave the observer within the frame, at the last of them. */
  lemma {:induction false} FollowBytes(p: Place, log: seq<Event>)
    requires log != [] && p.Within? && forall i :: 0 <= i < |log| ==> IsByte(log[i])
    ensures IsByte(log[|log| - 1]) && Follow(p, log) == Within(log[|log| - 1].acked)
    decreases |log|
  {
    assert IsByte(log[0]);
    if |log| > 1 { FollowBytes(Next(p, log[0]), log[1..]); }
  }

  /** The place between two calls. */
  predicate Idle(p: Place) { p == Between || p == Within(false) }

  lemma {:induction false} FollowHead(p: Place, chip: byte, address: seq<byte>, h: nat, world: World)
    requires Idle(p)
    ensures var q := Follow(p, HeadLog(chip, address, h, world));
      && (Reached(address, h, world) ==> q == Within(true))
      && (!Reached(address, h, world) ==> Idle(q))
  {
    var bytes := HeadBytes(chip, address, h, world);
    var b := Bytes(bytes, h, world);
    FollowFrame(p, b);
    LastOfHead(chip, address, h, world);
    if world.acks(h) {
      assert HeadLog(chip, address, h, world) == [Start] + b;
    } else {
      FollowTogether(p, [Start] + b, [Stop]);
    }
  }

  lemma {:induction false} LastOfHead(chip: byte, address: seq<byte>, h: nat, world: World)
    ensures var b := Bytes(HeadBytes(chip, address, h, world), h, world);
      b != [] && IsByte(b[|b| - 1]) && b[|b| - 1].acked == Reached(address, h, world)
  {
    var n := |HeadBytes(chip, address, h, world)|;
    if world.acks(h) && Reached(address, h, world) {
      assert n == 1 + |address| && world.acks(h + n - 1);
    }
  }

  lemma {:induction false} FollowFrame(p: Place, b: seq<Event>)
    requires Idle(p) && b != [] && b[0].Byte? && forall i :: 0 <= i < |b| ==> IsByte(b[i])
    ensures IsByte(b[|b| - 1]) && Follow(p, [Start] + b) == Within(b[|b| - 1].acked)
  {
    FollowTogether(p, [Start], b);
    if |b| > 1 { FollowBytes(Next(Begun, b[0]), b[1..]); }
  }

  lemma {:induction false} FollowWrite(p: Place, chip: byte, address: seq<byte>, buffer: seq<byte>, h: nat, world: World)
    requires Idle(p)
    ensures Idle(Follow(p, WriteLog(chip, address, buffer, h, world)))
  {
    FollowHead(p, chip, address, h, world);
    var x := HeadLog(chip, address, h, world);
    if Reached(address, h, world) {
      var y := Bytes(buffer, h + 1 + |address|, world);
      FollowTogether(p, x + y, [Stop]);
      FollowTogether(p, x, y);
      if y != [] { FollowBytes(Within(true), y); }
    } else {
      assert x + [] + [] == x;
    }
  }

  lemma {:induction false} FollowReadOut(p: Place, chip: byte, len: nat, h: nat, told: nat, world: World)
    requires Idle(p) && len > 0
    ensures Follow(p, ReadOutLog(chip, len, h, told, world)) == Between
  {
    var head := Byte(ReadHead(chip), world.acks(h));
    var y := Answers(Outs(len, told, world.acks(h), world));
    assert [Start, head] + y == [Start] + ([head] + y);
    FollowFrame(p, [head] + y);
    FollowTogether(p, [Start, head] + y, [Stop]);
  }

  lemma {:induction false} FollowCall(p: Place, call: Call, h: nat, told: nat, world: World)
    requires Idle(p) && (call.Reading? ==> call.len > 0)
    ensures Idle(Follow(p, CallLog(call, h, told, world)))
  {
    match call
    case Probing(chip) =>
      var b := Bytes([WriteHead(chip)], h, world);
      FollowFrame(p, b);
      FollowTogether(p, [Start] + b, [Stop]);
    case Writing(chip, address, buffer) => FollowWrite(p, chip, address, buffer, h, world);
    case Reading(chip, address, len) =>
      if address == [] {
        FollowReadOut(p, chip, len, h, told, world);
      } else {
        FollowHead(p, chip, address, h, world);
        if Reached(address, h, world) {
          var x, y := HeadLog(chip, address, h, world), ReadOutLog(chip, len, h + 1 + |address|, told, world);
          FollowTogether(p, x + [Stop], y);
          FollowTogether(p, x, [Stop]);
          FollowReadOut(Between, chip, len, h + 1 + |address|, told, world);
        }
      }
  }

  // ---------------------------------------------------------------------
  // Runs
  // ---------------------------------------------------------------------

  function AfterAll(s: Slave, calls: seq<Call>, world: World): Slave
    decreases |calls|
  {
    if calls == [] then s else AfterAll(After(s, calls[0], world), calls[1..], world)
  }

  /** The calls' logs, one after the other. */
  function RunLog(s: Slave, calls: seq<Call>, world: World): seq<Event>
    decreases |calls|
  {
    if calls == [] then []
    else CallLog(calls[0], s.heard, s.told, world) + RunLog(After(s, calls[0], world), calls[1..], world)
  }

  predicate AllAsk(calls: seq<Call>) { forall i :: 0 <= i < |calls| && calls[i].Reading? ==> calls[i].len > 0 }

  lemma {:induction false} RunLogged(s: Slave, calls: seq<Call>, world: World)
    ensures AfterAll(s, calls, world).log == s.log + RunLog(s, calls, world)
    decreases |calls|
  {
    if calls == [] {
      assert s.log + [] == s.log;
    } else {
      var t := After(s, calls[0], world);
      CallLogged(s, calls[0], world);
      RunLogged(t, calls[1..], world);
      var x, y := CallLog(calls[0], s.heard, s.told, world), RunLog(t, calls[1..], world);
      Associates(s.log, x, y);
    }
  }

  lemma {:induction false} RunFollowed(p: Place, s: Slave, calls: seq<Call>, world: World)
    requires Idle(p) && !Pulls(s.phase) && AllAsk(calls)
    ensures Idle(Follow(p, RunLog(s, calls, world))) && !Pulls(AfterAll(s, calls, world).phase)
    decreases |calls|
  {
    if calls != [] {
      var x, t := CallLog(calls[0], s.heard, s.told, world), After(s, calls[0], world);
      CallLogged(s, calls[0], world);
      FollowCall(p, calls[0], s.heard, s.told, world);
      FollowTogether(p, x, RunLog(t, calls[1..], world));
      RunFollowed(Follow(p, x), t, calls[1..], world);
    }
  }

  /** In every run whose reads ask for something, from any bus that the slave
      lets go of, whatever it acknowledges and sends: what the log gains is the
      calls' frames, with no START and no STOP but theirs, and the slave lets go
      of the bus after every call. */
  lemma {:induction false} NoSpuriousConditions(s: Slave, calls: seq<Call>, world: World)
    requires !Pulls(s.phase) && AllAsk(calls)
    ensures var t := AfterAll(s, calls, world);
      && t.log == s.log + RunLog(s, calls, world) && Idle(Follow(Between, RunLog(s, calls, world))) && !Pulls(t.phase)
  {
    RunLogged(s, calls, world);
    RunFollowed(Between, s, calls, world);
  }

  /** So after the reset that every program begins with, from any state of the
      bus and of the slave but the stuck ones. */
  lemma {:induction false} NoSpuriousAfterReset(w: Wires, calls: seq<Call>, world: World)
    requires !Stuck(Raised(w, world).slave, world) && AllAsk(calls)
    ensures var r := Reset(w, world); var t := AfterAll(r.slave, calls, world);
      && Ready(r) && r.slave.log != [] && r.slave.log[|r.slave.log| - 1] == Stop
      && t.log == r.slave.log + RunLog(r.slave, calls, world)
      && Idle(Follow(Between, RunLog(r.slave, calls, world))) && !Pulls(t.phase)
  {
    ResetFreesExactly(w, world);
    NoSpuriousConditions(Reset(w, world).slave, calls, world);
  }

  /** A read of nothing can leave the frame open: the chip acknowledges its
      address and holds a zero, the STOP does not show, and the START of a
      later call does not either. */
  lemma {:induction false} EmptyReadKeepsBus(s: Slave, chip: byte, address: seq<byte>, world: World)
    requires address == [] || Reached(address, s.heard, world)
    ensures var t := ReadBack(s, chip, address, 0, world);
      var h := if address == [] then s.heard else s.heard + 1 + |address|;
      Pulls(t.phase) <==> world.acks(h) && !BitOf(world.data(s.told), 0)
  {
    if address == [] {
      ReadOutLogged(s, chip, 0, world);
    } else {
      HeadLogged(s, chip, address, world);
      ReadOutLogged(Stopped(Addressed(s, chip, address, world)), chip, 0, world);
    }
  }
}
