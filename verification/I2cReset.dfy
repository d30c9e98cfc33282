/** The reset sequence: from which slaves it frees the bus. */
module I2cReset {
  import opened Wrappers
  import opened I2cSlave
  import opened I2cMaster

  predicate High(w: Wires) { w.scl && w.sda }

  /** The bus is free: the slave is idle and the STOP is the last it has seen. */
  predicate Free(w: Wires) {
    High(w) && w.slave.phase == Off && w.slave.log != [] && w.slave.log[|w.slave.log| - 1] == Stop
  }

  // ---------------------------------------------------------------------
  // The final STOP
  // ---------------------------------------------------------------------

  /** The STOP is seen exactly when the slave lets go of SDA as the clock falls for it. */
  lemma {:induction false} StopFrees(w: Wires, world: World)
    requires High(w)
    ensures var s := Fallen(w.slave, world); var r := StopSent(w, world);
      && (!Pulls(s.phase) ==> Free(r))
      && (Pulls(s.phase) ==> !Free(r) && Pulls(r.slave.phase))
  {
    var w1 := SclTo(w, false, world);
    var w2 := SdaTo(w1, false);
    var w3 := SclTo(w2, true, world);
    assert w1.slave == w2.slave == Fallen(w.slave, world);
    assert w3.slave == Risen(w2.slave, false) && Pulls(w3.slave.phase) == Pulls(w2.slave.phase);
  }

  // ---------------------------------------------------------------------
  // The nine pulses, by what the slave is doing
  // ---------------------------------------------------------------------

  lemma {:induction false} ClockedTogether(w: Wires, m: nat, n: nat, world: World)
    ensures Clocked(w, m + n, world) == Clocked(Clocked(w, m, world), n, world)
    decreases m
  {
    if m > 0 {
      assert Clocked(w, m + n, world) == Clocked(Pulse(w, world), m - 1 + n, world);
      ClockedTogether(Pulse(w, world), m - 1, n, world);
    }
  }

  lemma {:induction false} OffStays(w: Wires, n: nat, world: World)
    requires High(w) && w.slave.phase == Off
    ensures Clocked(w, n, world) == w
    decreases n
  {
    if n > 0 { OffStays(w, n - 1, world); }
  }

  /** A slave that sends goes on to its last bit. */
  lemma {:induction false} SendingGoesOn(w: Wires, n: nat, world: World)
    requires High(w) && w.slave.phase.Sending? && w.slave.phase.k + n <= 7
    ensures Clocked(w, n, world) == w.(slave := w.slave.(phase := Sending(w.slave.phase.out, w.slave.phase.k + n)))
    decreases n
  {
    if n > 0 { SendingGoesOn(Pulse(w, world), n - 1, world); }
  }

  /** Past the last bit it finds no acknowledge, and is idle two pulses later. */
  lemma {:induction false} SendingEnds(w: Wires, n: nat, world: World)
    requires High(w) && w.slave.phase.Sending? && w.slave.phase.k >= 7 && n >= 1
    ensures var u := Clocked(w, n, world);
      High(u) && if n == 1 then u.slave.phase == Listening(w.slave.phase.out, Some(false)) else u.slave.phase == Off
  {
    var v := Pulse(w, world);
    assert High(v) && v.slave.phase == Listening(w.slave.phase.out, Some(false));
    if n == 1 {
      assert Clocked(v, 0, world) == v;
    } else {
      var u := Pulse(v, world);
      assert u.slave.phase == Off && High(u);
      OffStays(u, n - 2, world);
      assert Clocked(w, n, world) == Clocked(v, n - 1, world) == Clocked(u, n - 2, world);
    }
  }

  /** Where a slave that sends bit `k` stands after `n` pulses and one more fall of the clock: it pulls for a zero. */
  lemma {:induction false} SendingAfter(w: Wires, n: nat, world: World)
    requires High(w) && w.slave.phase.Sending?
    ensures var u := Clocked(w, n, world); var p := w.slave.phase;
      High(u) && Pulls(Fallen(u.slave, world).phase) == (p.k + n < 7 && !BitOf(p.out, p.k + n + 1))
  {
    var k := w.slave.phase.k;
    if k + n <= 7 {
      SendingGoesOn(w, n, world);
    } else if k >= 7 {
      if n > 0 { SendingEnds(w, n, world); }
    } else {
      SendingPast(w, 7 - k, k + n - 7, world);
    }
  }

  lemma {:induction false} SendingPast(w: Wires, m: nat, n: nat, world: World)
    requires High(w) && w.slave.phase.Sending? && w.slave.phase.k + m == 7 && n > 0
    ensures var u := Clocked(w, m + n, world); High(u) && !Pulls(Fallen(u.slave, world).phase)
  {
    ClockedTogether(w, m, n, world);
    SendingGoesOn(w, m, world);
    SendingEnds(Clocked(w, m, world), n, world);
  }

  function Ones(acc: byte, n: nat): byte
    decreases n
  {
    if n == 0 then acc else Ones((acc << 1) | 1, n - 1)
  }

  lemma {:induction false} OnesOdd(acc: byte, n: nat)
    requires n > 0
    ensures Ones(acc, n) & 1 == 1
    decreases n
  {
    if n > 1 {
      OnesOdd((acc << 1) | 1, n - 1);
    } else {
      assert ((acc << 1) | 1) & 1 == 1;
    }
  }

  /** A slave that hears takes the high line for ones. */
  lemma {:induction false} HearingGoesOn(w: Wires, n: nat, world: World)
    requires High(w) && w.slave.phase.Receiving? && w.slave.phase.count + n <= 8
    ensures var p := w.slave.phase;
      Clocked(w, n, world) == w.(slave := w.slave.(phase := Receiving(p.count + n, Ones(p.acc, n), p.first)))
    decreases n
  {
    if n > 0 { HearingGoesOn(Pulse(w, world), n - 1, world); }
  }

  /** With eight bits it answers at the next fall. */
  lemma {:induction false} HeardAnswers(w: Wires, world: World)
    requires High(w) && w.slave.phase.Receiving? && w.slave.phase.count == 8
    ensures var p := w.slave.phase; var s := w.slave;
      Fallen(s, world).phase == Acking(p.acc, world.acks(s.heard), p.first) &&
      Pulse(w, world) == w.(slave := s.(phase := Acking(p.acc, world.acks(s.heard), p.first), heard := s.heard + 1))
  {}

  /** The address of a read makes it send, anything else makes it hear again. */
  predicate TurnsToSend(p: Phase)
    requires p.Acking?
  {
    p.first && p.value & 1 == 1
  }

  /** The byte that an answering slave would send; with no answer the line stays high. */
  function Offer(ack: bool, told: nat, world: World): byte { if ack then world.data(told) else 255 }

  lemma {:induction false} AnswerEnds(w: Wires, world: World)
    requires High(w) && w.slave.phase.Acking?
    ensures var p := w.slave.phase; var u := Pulse(w, world); var f := Fallen(w.slave, world);
      && High(u) && u.slave.heard == w.slave.heard
      && u.slave.phase == (if TurnsToSend(p) then Sending(Offer(p.ack, w.slave.told, world), 0) else Receiving(1, 1, false))
      && Pulls(f.phase) == (TurnsToSend(p) && !BitOf(Offer(p.ack, w.slave.told, world), 0))
  {
    assert (0 << 1) | 1 == 1 as byte;
  }

  lemma {:induction false} HighByte()
    ensures forall k :: 0 <= k < 8 ==> BitOf(255, k)
  {}

  /** What an answering slave pulls after `n` pulses and one more fall. */
  lemma {:induction false} AnsweringAfter(w: Wires, n: nat, world: World)
    requires High(w) && w.slave.phase.Acking? && n <= 9
    ensures var u := Clocked(w, n, world); var p := w.slave.phase;
      High(u) && Pulls(Fallen(u.slave, world).phase) ==
        if TurnsToSend(p) then n < 8 && !BitOf(Offer(p.ack, w.slave.told, world), n)
        else n == 8 && world.acks(w.slave.heard)
  {
    var p := w.slave.phase;
    AnswerEnds(w, world);
    if n > 0 {
      var v := Pulse(w, world);
      assert Clocked(w, n, world) == Clocked(v, n - 1, world);
      if TurnsToSend(p) {
        SendingAfter(v, n - 1, world);
      } else {
        HearsAgain(v, n - 1, world);
      }
    }
  }

  /** A slave that has begun to hear a byte that is not the first is not yet
      through with it before the eighth pulse. */
  lemma {:induction false} HearsAgain(w: Wires, n: nat, world: World)
    requires High(w) && w.slave.phase == Receiving(1, 1, false) && n <= 8
    ensures var u := Clocked(w, n, world);
      High(u) && Pulls(Fallen(u.slave, world).phase) == (n == 7 && world.acks(w.slave.heard))
  {
    if n <= 7 {
      HearingGoesOn(w, n, world);
    } else {
      ClockedTogether(w, 7, 1, world);
      HearingGoesOn(w, 7, world);
      var v := Clocked(w, 7, world);
      HeardAnswers(v, world);
      assert Clocked(v, 1, world) == Clocked(Pulse(v, world), 0, world) == Pulse(v, world);
      AnswerEnds(Pulse(v, world), world);
    }
  }

  // ---------------------------------------------------------------------
  // The reset
  // ---------------------------------------------------------------------

  /** The slaves that the reset does not free, by their state under the high
      clock: one that has heard fewer than eight bits of its first byte, would
      answer, and would send a byte whose bit with that number is a zero; and
      one that has heard a whole byte that is not the address of a read, and
      would answer the byte after it as well. */
  predicate Stuck(s: Slave, world: World) {
    s.phase.Receiving? &&
    var p := s.phase;
    if p.count < 8 then p.first && world.acks(s.heard) && !BitOf(world.data(s.told), p.count)
    else p.count == 8 && !(p.first && p.acc & 1 == 1) && world.acks(s.heard + 1)
  }

  /** Whatever the slave is doing, the reset frees the bus exactly when it is not stuck. */
  lemma {:induction false} ResetFreesExactly(w: Wires, world: World)
    ensures Free(Reset(w, world)) <==> !Stuck(Raised(w, world).slave, world)
    ensures Stuck(Raised(w, world).slave, world) ==> Pulls(Reset(w, world).slave.phase)
  {
    var v := Raised(w, world);
    var u := Clocked(v, 9, world);
    NinePulses(v, world);
    StopFrees(u, world);
  }

  lemma {:induction false} NinePulses(v: Wires, world: World)
    requires High(v)
    ensures var u := Clocked(v, 9, world); High(u) && Pulls(Fallen(u.slave, world).phase) == Stuck(v.slave, world)
  {
    match v.slave.phase
    case Off => OffStays(v, 9, world);
    case Sending(_, _) => SendingAfter(v, 9, world);
    case Listening(_, _) => ListeningEnds(v, world);
    case Acking(_, _, _) => AnsweringAfter(v, 9, world);
    case Receiving(_, _, _) => HearingEnds(v, world);
  }

  /** A slave that listens for an answer has none yet, a refusal, or goes on with the next byte. */
  lemma {:induction false} ListeningEnds(v: Wires, world: World)
    requires High(v) && v.slave.phase.Listening?
    ensures var u := Clocked(v, 9, world); High(u) && !Pulls(Fallen(u.slave, world).phase)
  {
    var w := Pulse(v, world);
    assert Clocked(v, 9, world) == Clocked(w, 8, world);
    match v.slave.phase.answer
    case Some(acked) =>
      if acked { SendingAfter(w, 8, world); } else { OffStays(w, 8, world); }
    case None =>
      var x := Pulse(w, world);
      assert w.slave.phase == Listening(v.slave.phase.out, Some(false)) && High(x) && x.slave.phase == Off;
      assert Clocked(w, 8, world) == Clocked(x, 7, world);
      OffStays(x, 7, world);
  }

  lemma {:induction false} HearingEnds(v: Wires, world: World)
    requires High(v) && v.slave.phase.Receiving?
    ensures var u := Clocked(v, 9, world); High(u) && Pulls(Fallen(u.slave, world).phase) == Stuck(v.slave, world)
  {
    if v.slave.phase.count > 8 {
      DeafStays(v, 9, world);
    } else if v.slave.phase.count == 8 {
      HeardEnds(v, 8, world);
    } else {
      PartlyHeardEnds(v, world);
    }
  }

  /** After `n + 1` pulses and a fall, from eight bits on. */
  lemma {:induction false} HeardEnds(v: Wires, n: nat, world: World)
    requires High(v) && v.slave.phase.Receiving? && v.slave.phase.count == 8 && n <= 8
    ensures var u := Clocked(v, n + 1, world); var s := v.slave; var p := s.phase;
      High(u) && Pulls(Fallen(u.slave, world).phase) ==
        if p.first && p.acc & 1 == 1 then n < 8 && world.acks(s.heard) && !BitOf(world.data(s.told), n)
        else n == 8 && world.acks(s.heard + 1)
  {
    HeardAnswers(v, world);
    var y := Pulse(v, world);
    assert Clocked(v, n + 1, world) == Clocked(y, n, world);
    AnsweringAfter(y, n, world);
    HighByte();
  }

  lemma {:induction false} PartlyHeardEnds(v: Wires, world: World)
    requires High(v) && v.slave.phase.Receiving? && v.slave.phase.count < 8
    ensures var u := Clocked(v, 9, world); High(u) && Pulls(Fallen(u.slave, world).phase) == Stuck(v.slave, world)
  {
    var p := v.slave.phase;
    var n := 8 - p.count;
    HearingGoesOn(v, n, world);
    OnesOdd(p.acc, n);
    ClockedTogether(v, n, p.count + 1, world);
    HeardEnds(Clocked(v, n, world), p.count, world);
  }

  /** No slave counts beyond eight; one that did would hear nothing. */
  lemma {:induction false} DeafStays(w: Wires, n: nat, world: World)
    requires High(w) && w.slave.phase.Receiving? && w.slave.phase.count > 8
    ensures Clocked(w, n, world) == w
    decreases n
  {
    if n > 0 { DeafStays(w, n - 1, world); }
  }

  /** A slave stopped anywhere inside a byte it was sending is freed, which is
      what the reset is for. */
  lemma {:induction false} ResetFreesSender(w: Wires, world: World)
    requires w.slave.phase.Sending? || w.slave.phase == Off
    ensures Free(Reset(w, world))
  {
    ResetFreesExactly(w, world);
  }

  /** One that has heard six bits of an address, under a low clock, answers
      it, and holds the last bit of a zero byte under the final STOP. */
  lemma {:induction false} ResetMissesHearer(world: World)
    requires world.acks(0) && world.data(0) == 0
    ensures !Free(Reset(Wires(false, true, Slave(Receiving(6, 0, true), [], 0, 0, false)), world))
  {
    var w := Wires(false, true, Slave(Receiving(6, 0, true), [], 0, 0, false));
    assert Raised(w, world).slave.phase.count == 7;
    assert !BitOf(0, 7);
    ResetFreesExactly(w, world);
  }
}
