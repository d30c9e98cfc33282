/** The software FIFO of received CAN messages, filled by the interrupt and
    emptied by the program. */
module CanFifo {

  datatype Message = Message(id: nat, flag: nat, data: seq<bv8>)

  /** `circle_header`, `circle_tailer`, `circle_number`. */
  datatype Ring = Ring(slots: seq<Message>, header: nat, tailer: nat, number: nat)

  /** One turn round the ring, for an index less than two turns long. */
  function Wrap(k: nat, size: nat): nat { if k >= size then k - size else k }

  function Queue(r: Ring): (q: seq<Message>)
    requires r.tailer < |r.slots| && r.number <= |r.slots|
    ensures |q| == r.number && forall i :: 0 <= i < r.number ==> q[i] == r.slots[Wrap(r.tailer + i, |r.slots|)]
  {
    seq(r.number, i requires 0 <= i < r.number => r.slots[Wrap(r.tailer + i, |r.slots|)])
  }

  /** One slot always stays free. */
  predicate Valid(r: Ring) {
    r.tailer < |r.slots| && r.number < |r.slots| && r.header == Wrap(r.tailer + r.number, |r.slots|)
  }

  // ---------------------------------------------------------------------
  // The calls, each as a whole
  // ---------------------------------------------------------------------

  /** A message arrives, with room or without; without room it is lost. */
  function ArrivedDrop(r: Ring, m: Message): Ring
    requires r.header < |r.slots|
  {
    if r.number + 1 == |r.slots| then r
    else r.(number := r.number + 1, slots := r.slots[r.header := m], header := Next(r.header, |r.slots|))
  }

  /** An index is put back only when it has become the size. */
  function Next(k: nat, size: nat): nat { if k + 1 == size then 0 else k + 1 }

  /** The same where the oldest message makes room. */
  function ArrivedOverride(r: Ring, m: Message): Ring
    requires r.header < |r.slots|
  {
    var s := r.(slots := r.slots[r.header := m], header := Next(r.header, |r.slots|));
    if r.number + 1 == |r.slots| then s.(tailer := Next(r.tailer, |r.slots|)) else s.(number := r.number + 1)
  }

  /** The ring without its oldest message. */
  function Shorter(r: Ring): Ring
    requires r.number > 0
  {
    r.(tailer := Next(r.tailer, |r.slots|), number := r.number - 1)
  }

  lemma {:induction false} ShorterQueue(r: Ring)
    requires Valid(r) && r.number > 0
    ensures Valid(Shorter(r)) && Queue(Shorter(r)) == Queue(r)[1..] && Queue(r)[0] == r.slots[r.tailer]
  {
    var t := Shorter(r);
    assert forall i :: 0 <= i < t.number ==> Queue(t)[i] == Queue(r)[i + 1];
  }

  lemma {:induction false} DropKeepsOldest(r: Ring, m: Message)
    requires Valid(r)
    ensures var t := ArrivedDrop(r, m);
      Valid(t) && |t.slots| == |r.slots| && Queue(t) == if |Queue(r)| < |r.slots| - 1 then Queue(r) + [m] else Queue(r)
  {}

  lemma {:induction false} OverrideKeepsNewest(r: Ring, m: Message)
    requires Valid(r) && |r.slots| > 1
    ensures var t := ArrivedOverride(r, m);
      && Valid(t) && |t.slots| == |r.slots|
      && Queue(t) == if |Queue(r)| < |r.slots| - 1 then Queue(r) + [m] else Queue(r)[1..] + [m]
  {
    var t := ArrivedOverride(r, m);
    assert Valid(t);
  }

  function Last(q: seq<Message>, n: nat): seq<Message> { if |q| > n then q[|q| - n..] else q }

  lemma {:induction false} LastOneMore(q: seq<Message>, m: Message, n: nat)
    requires n > 0
    ensures Last(q + [m], n) == if |Last(q, n)| < n then Last(q, n) + [m] else Last(q, n)[1..] + [m]
  {}

  lemma {:induction false} NonePending(q: seq<Message>, pending: seq<Message>)
    ensures q + pending[..0] == q
  {}

  lemma {:induction false} OneMorePending(q: seq<Message>, pending: seq<Message>, k: nat)
    requires k < |pending|
    ensures q + pending[..k + 1] == q + pending[..k] + [pending[k]]
  {}

  class Can {
    var slots: seq<Message>
    var header: nat
    var tailer: nat
    var number: nat

    ghost function R(): Ring
      reads this
    {
      Ring(slots, header, tailer, number)
    }

    constructor (slots: seq<Message>)
      requires slots != []
      ensures Valid(R()) && this.slots == slots && Queue(R()) == []
    {
      this.slots, header, tailer, number := slots, 0, 0, 0;
    }

    /** can_erecv */
    method Receive() returns (r: int, msg: Message)
      requires Valid(R())
      modifies this
      ensures Valid(R()) && slots == old(slots)
      ensures old(Queue(R())) == [] ==> r == -1 && R() == old(R())
      ensures old(Queue(R())) != [] ==> r == 0 && [msg] + Queue(R()) == old(Queue(R()))
    {
      msg := slots[tailer];
      if number == 0 { return -1, msg; }
      ShorterQueue(R());
      number := number - 1;
      tailer := tailer + 1;
      if tailer == |slots| { tailer := 0; }
      assert R() == Shorter(old(R()));
      return 0, msg;
    }

    /** One message in dropping mode; `full` when it is lost. */
    method TakeDrop(msg: Message) returns (full: bool)
      requires Valid(R())
      modifies this
      ensures R() == ArrivedDrop(old(R()), msg) && full == (old(number) + 1 == |slots|)
    {
      number := number + 1;
      if number == |slots| {
        number := number - 1;
        return true;
      }
      slots := slots[header := msg];
      header := header + 1;
      if header == |slots| { header := 0; }
      return false;
    }

    /** The interrupt, dropping mode: as many as there is room for are kept,
        one more is lost, and the others are left in the controller. */
    method InterruptDrop(pending: seq<Message>) returns (left: seq<Message>)
      requires Valid(R())
      modifies this
      ensures Valid(R()) && |slots| == old(|slots|)
      ensures var room := |slots| - 1 - |old(Queue(R()))|;
        && (|pending| <= room ==> Queue(R()) == old(Queue(R())) + pending && left == [])
        && (|pending| > room ==> Queue(R()) == old(Queue(R())) + pending[..room] && left == pending[room + 1..])
    {
      ghost var was, all := Queue(R()), Queue(R());
      var k := 0;
      NonePending(was, pending);
      while k < |pending|
        invariant 0 <= k <= |pending| && Valid(R()) && |slots| == old(|slots|)
        invariant Queue(R()) == all && all == was + pending[..k] && |all| == |was| + k
      {
        var full := TakeOldest(pending[k]);
        if full { return pending[k + 1..]; }
        OneMorePending(was, pending, k);
        all := all + [pending[k]];
        k := k + 1;
      }
      assert pending[..k] == pending;
      return [];
    }

    /** The oldest are kept, and with room `msg` after them. */
    method TakeOldest(msg: Message) returns (full: bool)
      requires Valid(R())
      modifies this
      ensures Valid(R()) && |slots| == old(|slots|) && full == (|old(Queue(R()))| == |slots| - 1)
      ensures Queue(R()) == if full then old(Queue(R())) else old(Queue(R())) + [msg]
    {
      DropKeepsOldest(R(), msg);
      full := TakeDrop(msg);
    }

    /** One message in overriding mode. */
    method TakeOverride(msg: Message)
      requires Valid(R()) && |slots| > 1
      modifies this
      ensures R() == ArrivedOverride(old(R()), msg)
    {
      number := number + 1;
      slots := slots[header := msg];
      if number == |slots| {
        number := number - 1;
        tailer := tailer + 1;
        if tailer == |slots| { tailer := 0; }
      }
      header := header + 1;
      if header == |slots| { header := 0; }
    }

    /** The newest of `q` are kept, and with `msg` the newest of both. */
    method TakeNewest(msg: Message, ghost q: seq<Message>)
      requires Valid(R()) && |slots| > 1 && Queue(R()) == Last(q, |slots| - 1)
      modifies this
      ensures Valid(R()) && |slots| == old(|slots|) && Queue(R()) == Last(q + [msg], |slots| - 1)
    {
      OverrideKeepsNewest(R(), msg);
      LastOneMore(q, msg, |slots| - 1);
      TakeOverride(msg);
    }

    /** The interrupt, overriding mode: all are taken, and the newest are kept. */
    method InterruptOverride(pending: seq<Message>)
      requires Valid(R()) && |slots| > 1
      modifies this
      ensures Valid(R()) && |slots| == old(|slots|)
      ensures Queue(R()) == Last(old(Queue(R())) + pending, |slots| - 1)
    {
      ghost var was, all := Queue(R()), Queue(R());
      var k := 0;
      NonePending(was, pending);
      while k < |pending|
        invariant 0 <= k <= |pending| && Valid(R()) && |slots| == old(|slots|)
        invariant Queue(R()) == Last(all, |slots| - 1) && all == was + pending[..k]
      {
        OneMorePending(was, pending, k);
        TakeNewest(pending[k], all);
        all := all + [pending[k]];
        k := k + 1;
      }
      assert pending[..k] == pending;
    }
  }

  // ---------------------------------------------------------------------
  // The interrupt between any two statements of can_erecv
  // ---------------------------------------------------------------------

  /** The statement of can_erecv that is next: the test, the copy, the
      decrement, the increment, the wrap. */
  datatype At = Test | Copy | Decrement | Increment | Rewind

  /** `msg` is what has been copied; `returned` what the reader has taken so far. */
  datatype Program = Program(ring: Ring, at: At, msg: Message, returned: seq<Message>)

  datatype Move = Statement | Arrival(m: Message)

  predicate InRange(p: Program) { p.ring.header < |p.ring.slots| && p.ring.tailer <= |p.ring.slots| }

  function Stepped(p: Program, move: Move): Program
    requires InRange(p)
  {
    var r := p.ring;
    match move
    case Arrival(m) => p.(ring := ArrivedDrop(r, m))
    case Statement =>
      match p.at
      case Test => if r.number == 0 then p else p.(at := Copy)
      case Copy => if r.tailer < |r.slots| then p.(at := Decrement, msg := r.slots[r.tailer]) else p
      case Decrement =>
        if r.number == 0 then p
        else p.(at := Increment, ring := r.(number := r.number - 1), returned := p.returned + [p.msg])
      case Increment => p.(at := Rewind, ring := r.(tailer := r.tailer + 1))
      case Rewind => p.(at := Test, ring := if r.tailer == |r.slots| then r.(tailer := 0) else r)
  }

  /** After the decrement the message at the tail has been taken already. */
  function Settled(p: Program): Ring {
    match p.at
    case Increment => p.ring.(tailer := Wrap(p.ring.tailer + 1, |p.ring.slots|))
    case Rewind => p.ring.(tailer := Wrap(p.ring.tailer, |p.ring.slots|))
    case _ => p.ring
  }

  /** `accepted` are the messages there was room for, in order of arrival:
      the reader has returned the first of them, and the ring holds the rest. */
  ghost predicate Inv(p: Program, accepted: seq<Message>) {
    && InRange(p) && Valid(Settled(p)) && (p.at == Increment ==> p.ring.tailer < |p.ring.slots|)
    && (p.at == Copy || p.at == Decrement ==> p.ring.number > 0)
    && (p.at == Decrement ==> p.msg == Queue(p.ring)[0])
    && accepted == p.returned + Queue(Settled(p))
  }

  /** Every arrival goes to the end of the accepted messages when fewer than
      `size - 1` of them wait, wherever the reader stands; a statement of the
      reader changes nothing but what has been returned. */
  lemma {:induction false} StepKeepsInv(p: Program, accepted: seq<Message>, move: Move)
    requires Inv(p, accepted)
    ensures var waiting := |accepted| - |p.returned|;
      Inv(Stepped(p, move), if move.Arrival? && waiting < |p.ring.slots| - 1 then accepted + [move.m] else accepted)
  {
    match move
    case Arrival(m) => ArrivalKeepsInv(p, accepted, m);
    case Statement => if p.at == Decrement { DecrementKeepsInv(p, accepted); } else { StatementKeepsInv(p, accepted); }
  }

  lemma {:induction false} StatementKeepsInv(p: Program, accepted: seq<Message>)
    requires Inv(p, accepted) && p.at != Decrement
    ensures Inv(Stepped(p, Statement), accepted)
  {
    assert p.at != Test && p.at != Copy ==> Settled(Stepped(p, Statement)) == Settled(p);
  }

  /** The decrement is where the message is taken. */
  lemma {:induction false} DecrementKeepsInv(p: Program, accepted: seq<Message>)
    requires Inv(p, accepted) && p.at == Decrement
    ensures Inv(Stepped(p, Statement), accepted)
  {
    ShorterQueue(p.ring);
    assert Settled(Stepped(p, Statement)) == Shorter(p.ring);
    HeadMoves(p.returned, Queue(p.ring));
  }

  lemma {:induction false} HeadMoves(x: seq<Message>, q: seq<Message>)
    requires q != []
    ensures x + q == (x + [q[0]]) + q[1..]
  {}

  lemma {:induction false} ArrivalKeepsInv(p: Program, accepted: seq<Message>, m: Message)
    requires Inv(p, accepted)
    ensures Inv(Stepped(p, Arrival(m)), if |accepted| - |p.returned| < |p.ring.slots| - 1 then accepted + [m] else accepted)
  {
    DropKeepsOldest(Settled(p), m);
    var q := Stepped(p, Arrival(m));
    assert Settled(q) == ArrivedDrop(Settled(p), m);
    assert p.returned + (Queue(Settled(p)) + [m]) == (p.returned + Queue(Settled(p))) + [m];
  }

  function Start(slots: seq<Message>, m: Message): Program { Program(Ring(slots, 0, 0, 0), Test, m, []) }

  /** The run of any moves, with the messages accepted on the way. */
  ghost function Run(p: Program, accepted: seq<Message>, moves: seq<Move>): (r: (Program, seq<Message>))
    requires Inv(p, accepted)
    ensures Inv(r.0, r.1)
    decreases |moves|
  {
    if moves == [] then (p, accepted)
    else
      StepKeepsInv(p, accepted, moves[0]);
      var room := |accepted| - |p.returned| < |p.ring.slots| - 1;
      Run(Stepped(p, moves[0]), if moves[0].Arrival? && room then accepted + [moves[0].m] else accepted, moves[1..])
  }

  /** Wherever the interrupts fall, the reader returns the accepted messages in
      order, each once, and none is lost. */
  lemma {:induction false} InterleavingIsSafe(slots: seq<Message>, m: Message, moves: seq<Move>)
    requires slots != []
    ensures Inv(Start(slots, m), [])
    ensures var (p, accepted) := Run(Start(slots, m), [], moves);
      && p.returned <= accepted && Valid(Settled(p)) && Queue(Settled(p)) == accepted[|p.returned|..]
  {
    assert Queue(Start(slots, m).ring) == [];
    var (p, accepted) := Run(Start(slots, m), [], moves);
    assert accepted == p.returned + Queue(Settled(p));
  }

  // ---------------------------------------------------------------------
  // The same in overriding mode
  // ---------------------------------------------------------------------

  function SteppedOverride(p: Program, move: Move): Program
    requires InRange(p)
  {
    if move.Arrival? then p.(ring := ArrivedOverride(p.ring, move.m)) else Stepped(p, move)
  }

  /** The account after an arrival: in a full ring the oldest waiting message goes. */
  ghost function AfterOverride(p: Program, accepted: seq<Message>, m: Message): seq<Message>
    requires Inv(p, accepted)
  {
    if p.ring.number + 1 < |p.ring.slots| then accepted + [m]
    else p.returned + (Queue(Settled(p)) + [m])[1..]
  }

  /** The ring is full, and either the reader has copied the oldest message but
      not yet counted it off, the next one being another message; or it has
      moved past the last slot and not yet gone back to the first. */
  predicate Caught(p: Program, m: Message) {
    p.ring.number + 1 == |p.ring.slots| > 1 &&
    ((p.at == Decrement && Valid(p.ring) && p.msg != (Queue(p.ring) + [m])[1]) ||
     (p.at == Rewind && p.ring.tailer == |p.ring.slots|))
  }

  /** An overriding arrival keeps the account exactly when it does not catch
      the reader there. */
  lemma {:induction false} OverrideExactly(p: Program, accepted: seq<Message>, m: Message)
    requires Inv(p, accepted) && |p.ring.slots| > 1
    ensures Inv(SteppedOverride(p, Arrival(m)), AfterOverride(p, accepted, m)) <==> !Caught(p, m)
  {
    var q := SteppedOverride(p, Arrival(m));
    var full := p.ring.number + 1 == |p.ring.slots|;
    if full && p.at == Rewind && p.ring.tailer == |p.ring.slots| {
      assert !InRange(q);
    } else {
      OverrideSettles(p, accepted, m);
      OverrideKeepsNewest(Settled(p), m);
      if p.at == Decrement { OverrideAtDecrement(p, accepted, m); }
      if !full {
        assert p.returned + (Queue(Settled(p)) + [m]) == (p.returned + Queue(Settled(p))) + [m];
      } else {
        assert (Queue(Settled(p)) + [m])[1..] == Queue(Settled(p))[1..] + [m];
      }
    }
  }

  lemma {:induction false} OverrideSettles(p: Program, accepted: seq<Message>, m: Message)
    requires Inv(p, accepted) && |p.ring.slots| > 1
    requires !(p.ring.number + 1 == |p.ring.slots| && p.at == Rewind && p.ring.tailer == |p.ring.slots|)
    ensures var q := SteppedOverride(p, Arrival(m));
      Settled(q) == ArrivedOverride(Settled(p), m) && InRange(q) && (p.at == Increment ==> q.ring.tailer < |q.ring.slots|)
  {}

  /** Between the copy and the decrement the head of the queue must not change. */
  lemma {:induction false} OverrideAtDecrement(p: Program, accepted: seq<Message>, m: Message)
    requires Inv(p, accepted) && |p.ring.slots| > 1 && p.at == Decrement
    ensures var q := SteppedOverride(p, Arrival(m));
      && Valid(q.ring) && q.ring.number > 0
      && Queue(q.ring)[0] == if p.ring.number + 1 == |p.ring.slots| then (Queue(p.ring) + [m])[1] else p.msg
  {
    OverrideKeepsNewest(p.ring, m);
  }

  /** Caught after the copy, the reader goes on to skip a message: the ring
      then has neither the one it returned nor the next one. */
  lemma {:induction false} CaughtSkips(p: Program, accepted: seq<Message>, m: Message)
    requires Inv(p, accepted) && |p.ring.slots| > 1 && p.at == Decrement && p.ring.number + 1 == |p.ring.slots|
    ensures var q := Stepped(Stepped(SteppedOverride(p, Arrival(m)), Statement), Statement);
      && InRange(q) && q.at == Rewind && Valid(Settled(q))
      && q.returned == p.returned + [p.msg] && Queue(Settled(q)) == (Queue(p.ring) + [m])[2..]
  {
    OverrideKeepsNewest(p.ring, m);
    var a := SteppedOverride(p, Arrival(m));
    TakenOff(a);
    assert (Queue(p.ring) + [m])[2..] == (Queue(p.ring)[1..] + [m])[1..];
  }

  /** The decrement and the increment take the head off the queue, whatever has been copied. */
  lemma {:induction false} TakenOff(p: Program)
    requires InRange(p) && p.at == Decrement && Valid(p.ring) && p.ring.number > 0
    ensures InRange(Stepped(p, Statement)) && InRange(Stepped(Stepped(p, Statement), Statement))
    ensures var q := Stepped(Stepped(p, Statement), Statement);
      && q.at == Rewind && q.returned == p.returned + [p.msg]
      && Valid(Settled(q)) && Settled(q) == Shorter(p.ring) && Queue(Settled(q)) == Queue(p.ring)[1..]
  {
    ShorterQueue(p.ring);
  }

  /** Caught past the last slot, the tail is put back by neither side, and the
      next copy is from behind the array. */
  lemma {:induction false} CaughtRunsPast(p: Program, accepted: seq<Message>, m: Message)
    requires Inv(p, accepted) && p.at == Rewind && p.ring.tailer == |p.ring.slots| && p.ring.number + 1 == |p.ring.slots|
    ensures var r := SteppedOverride(p, Arrival(m)).ring;
      r.tailer == |r.slots| + 1 && (if r.tailer == |r.slots| then 0 else r.tailer) > |r.slots|
  {}

  /** A run in which no arrival catches the reader. */
  ghost predicate Uncaught(p: Program, accepted: seq<Message>, moves: seq<Move>)
    requires Inv(p, accepted) && |p.ring.slots| > 1
    decreases |moves|
  {
    moves == [] ||
    var move := moves[0];
    if move.Arrival? then
      !Caught(p, move.m) &&
      (OverrideExactly(p, accepted, move.m);
       Uncaught(SteppedOverride(p, move), AfterOverride(p, accepted, move.m), moves[1..]))
    else
      StepKeepsInv(p, accepted, move);
      Uncaught(Stepped(p, move), accepted, moves[1..])
  }

  ghost function RunOverride(p: Program, accepted: seq<Message>, moves: seq<Move>): (r: (Program, seq<Message>))
    requires Inv(p, accepted) && |p.ring.slots| > 1 && Uncaught(p, accepted, moves)
    ensures Inv(r.0, r.1)
    decreases |moves|
  {
    if moves == [] then (p, accepted)
    else
      var move := moves[0];
      if move.Arrival? then
        OverrideExactly(p, accepted, move.m);
        RunOverride(SteppedOverride(p, move), AfterOverride(p, accepted, move.m), moves[1..])
      else
        StepKeepsInv(p, accepted, move);
        RunOverride(Stepped(p, move), accepted, moves[1..])
  }

  /** On such a run the reader returns the messages of the account in order,
      each once, and the ring holds the newest of them. */
  lemma {:induction false} UncaughtIsSafe(slots: seq<Message>, m: Message, moves: seq<Move>)
    requires |slots| > 1
    ensures Inv(Start(slots, m), [])
    ensures Uncaught(Start(slots, m), [], moves) ==>
      var (p, accepted) := RunOverride(Start(slots, m), [], moves);
      p.returned <= accepted && Valid(Settled(p)) && Queue(Settled(p)) == accepted[|p.returned|..]
  {
    assert Queue(Start(slots, m).ring) == [];
    if Uncaught(Start(slots, m), [], moves) {
      var (p, accepted) := RunOverride(Start(slots, m), [], moves);
      assert accepted == p.returned + Queue(Settled(p));
    }
  }

  /** The least ring that shows it: of the messages a, b and c, none of them
      overridden but a, which is returned, b is lost. */
  lemma {:induction false} OverrideInterleavedLoses(a: Message, b: Message, c: Message)
    requires a != b
    ensures var p := Program(Ring([a, b, c], 2, 0, 2), Decrement, a, []);
      var q := Stepped(Stepped(SteppedOverride(p, Arrival(c)), Statement), Statement);
      && Inv(p, [a, b]) && Caught(p, c) && q.returned == [a] && Queue(Settled(q)) == [c]
  {
    var p := Program(Ring([a, b, c], 2, 0, 2), Decrement, a, []);
    assert Queue(p.ring) == [a, b];
    CaughtSkips(p, [a, b], c);
    assert ([a, b] + [c])[2..] == [c];
  }
}
