/** A LIN master that publishes a response: identifier parity, checksum, and
    the state machine behind the receive interrupt. */
module LinBus {
  import opened Wrappers

  type byte = x: int | 0 <= x < 256

  // ---------------------------------------------------------------------
  // The checksum
  // ---------------------------------------------------------------------

  /** One byte into the sum; a carry out of eight bits is added back. */
  function Folded(sum: nat, b: byte): nat {
    var s := sum + b;
    if s / 256 % 256 != 0 then s % 256 + 1 else s
  }

  function FoldedAll(data: seq<byte>): nat {
    if data == [] then 0 else Folded(FoldedAll(data[..|data| - 1]), data[|data| - 1])
  }

  function Sum(data: seq<byte>): nat {
    if data == [] then 0 else Sum(data[..|data| - 1]) + data[|data| - 1]
  }

  lemma {:induction false} FoldsBy255(f: nat, b: byte)
    requires f < 256
    ensures Folded(f, b) == if f + b < 256 then f + b else f + b - 255
    ensures Folded(f, b) < 256
  {}

  /** Each carry takes 255 off. */
  lemma {:induction false} CarriesTaken(data: seq<byte>)
    ensures FoldedAll(data) < 256 && FoldedAll(data) <= Sum(data) && (Sum(data) - FoldedAll(data)) % 255 == 0
    ensures FoldedAll(data) == 0 <==> Sum(data) == 0
  {
    if data != [] {
      CarriesTaken(data[..|data| - 1]);
      FoldsBy255(FoldedAll(data[..|data| - 1]), data[|data| - 1]);
    }
  }

  /** The folded sum is a byte, is congruent to the true sum, and is zero for zeros only. */
  lemma {:induction false} FoldedIsSum(data: seq<byte>)
    ensures FoldedAll(data) < 256 && FoldedAll(data) % 255 == Sum(data) % 255
    ensures FoldedAll(data) == 0 <==> Sum(data) == 0
  {
    CarriesTaken(data);
  }

  function Checksum(data: seq<byte>): (c: byte)
  {
    FoldedIsSum(data);
    255 - FoldedAll(data)
  }

  /** With its checksum a list folds to 0xFF. */
  lemma {:induction false} ChecksumCloses(data: seq<byte>)
    ensures FoldedAll(data + [Checksum(data)]) == 255
  {
    FoldedIsSum(data);
    assert (data + [Checksum(data)])[..|data|] == data;
  }

  /** No other byte does, unless the data fold to 0xFF themselves, when 0xFF does as well. */
  lemma {:induction false} ChecksumUnique(data: seq<byte>, c: byte)
    ensures FoldedAll(data + [c]) == 255 <==> c == Checksum(data) || (FoldedAll(data) == 255 && c == 255)
  {
    FoldedIsSum(data);
    assert (data + [c])[..|data|] == data;
  }

  /** The loop of LINCalcChecksum. */
  method CalcChecksum(data: seq<byte>) returns (c: byte)
    requires |data| <= 255
    ensures c == Checksum(data)
  {
    var sum: nat := 0;
    var i := 0;
    FoldedIsSum(data[..0]);
    while i < |data|
      invariant 0 <= i <= |data| && sum == FoldedAll(data[..i]) < 256
    {
      FoldedIsSum(data[..i + 1]);
      assert data[..i + 1][..i] == data[..i];
      sum := sum + data[i];
      if sum / 256 % 256 != 0 { sum := sum % 256 + 1; }
      i := i + 1;
    }
    assert data[..i] == data;
    c := 255 - sum;
  }

  // ---------------------------------------------------------------------
  // The protected identifier
  // ---------------------------------------------------------------------

  function Bit(id: byte, k: nat): nat
    requires k < 8
  {
    match k
    case 0 => id % 2
    case 1 => id / 2 % 2
    case 2 => id / 4 % 2
    case 3 => id / 8 % 2
    case 4 => id / 16 % 2
    case 5 => id / 32 % 2
    case 6 => id / 64 % 2
    case 7 => id / 128 % 2
  }

  /** LINCalcParity: two bits are set above the identifier, or left set. */
  function Protected(id: byte): byte {
    var even := (Bit(id, 0) + Bit(id, 1) + Bit(id, 2) + Bit(id, 4)) % 2;
    var odd := (Bit(id, 1) + Bit(id, 3) + Bit(id, 4) + Bit(id, 5)) % 2;
    id % 64 + (if Bit(id, 6) == 1 || even == 1 then 64 else 0) + (if Bit(id, 7) == 1 || odd == 0 then 128 else 0)
  }

  /** The identifier is kept below the two bits. */
  lemma {:induction false} ProtectedKeepsId(id: byte)
    ensures Protected(id) % 64 == id % 64
  {}

  /** For an identifier of six bits the two above are its parities, the second inverted. */
  lemma {:induction false} ProtectedParities(id: byte)
    requires id < 64
    ensures Bit(Protected(id), 6) == (Bit(id, 0) + Bit(id, 1) + Bit(id, 2) + Bit(id, 4)) % 2
    ensures Bit(Protected(id), 7) == 1 - (Bit(id, 1) + Bit(id, 3) + Bit(id, 4) + Bit(id, 5)) % 2
  {
    var even := (Bit(id, 0) + Bit(id, 1) + Bit(id, 2) + Bit(id, 4)) % 2;
    var odd := (Bit(id, 1) + Bit(id, 3) + Bit(id, 4) + Bit(id, 5)) % 2;
    NoHighBits(id);
    HighBits(id, even, 1 - odd);
  }

  lemma {:induction false} NoHighBits(id: byte)
    requires id < 64
    ensures Bit(id, 6) == 0 && Bit(id, 7) == 0 && id % 64 == id
  {}

  lemma {:induction false} HighBits(low: nat, a: nat, b: nat)
    requires low < 64 && a < 2 && b < 2
    ensures var p := low + 64 * a + 128 * b; p < 256 && Bit(p, 6) == a && Bit(p, 7) == b
  {}

  // ---------------------------------------------------------------------
  // The master
  // ---------------------------------------------------------------------

  datatype Phase = Idle | Break | Sync | Pid | Transmitting | Receiving | Checking | Failed
  datatype Status = Fine | BreakError | SyncError | PidError | ChecksumError

  /** A response of the slave task: the array, and how much of it counts. */
  datatype Response = Response(dlc: nat, data: seq<byte>)
  datatype Message = Message(pid: byte, data: seq<byte>)
  datatype Out = BreakOut | ByteOut(value: byte)

  predicate Fits(r: Response) { |r.data| == 8 && r.dlc <= 8 }

  datatype State = State(phase: Phase, status: Status, masterPid: byte, msg: Message, rsp: Response, rspCount: nat,
                         length: nat, queue: seq<Message>, sent: seq<Out>)

  /** What the interrupt finds: the break flag, and the byte in `ch`. */
  datatype Irq = Irq(broke: bool, ch: byte)

  /** lin_sendpid */
  function Begun(s: State, pid: byte): State {
    if s.phase != Idle then s else s.(masterPid := pid, sent := s.sent + [BreakOut], phase := Break)
  }

  /** lin_error_reset */
  function Cleared(s: State): State { s.(rspCount := 0, msg := s.msg.(data := []), phase := Idle) }

  function Put(s: State, b: byte): State { s.(sent := s.sent + [ByteOut(b)]) }

  /** The end of a frame: the checksum is looked at, but the status is set
      back to no error, and what is left of the message is queued. */
  function Closed(s: State, ch: byte, room: nat): State {
    var t := if ch != Checksum(s.msg.data) then Cleared(s).(status := ChecksumError) else s;
    var u := if |t.queue| < room then t.(queue := t.queue + [t.msg]) else t;
    Cleared(u).(status := Fine)
  }

  /** master_node_process. `answer` is the slave task; the receiving state
      falls through into the end of the frame. */
  function Served(s: State, irq: Irq, answer: byte -> Option<Response>, room: nat): State {
    match s.phase
    case Break =>
      if irq.broke then Put(s, 0x55).(phase := Sync) else Cleared(s).(status := BreakError)
    case Sync =>
      if irq.ch == 0x55 then Put(s, Protected(s.masterPid)).(phase := Pid) else Cleared(s).(status := SyncError)
    case Pid =>
      var id := irq.ch % 64;
      var t := s.(msg := s.msg.(pid := id));
      (match answer(id)
       case Some(r) =>
         if t.rspCount < |r.data| then Put(t, r.data[t.rspCount]).(rsp := r, rspCount := t.rspCount + 1, phase := Transmitting)
         else t.(rsp := r)
       case None => t.(length := if id < 0x20 then 2 else if id < 0x30 then 4 else 8, phase := Receiving))
    case Transmitting =>
      var t := if s.rspCount < s.rsp.dlc && s.rspCount < |s.rsp.data|
               then Put(s, s.rsp.data[s.rspCount]).(rspCount := s.rspCount + 1)
               else Put(s, Checksum(s.rsp.data[..if s.rsp.dlc <= |s.rsp.data| then s.rsp.dlc else |s.rsp.data|])).(phase := Checking);
      t.(msg := t.msg.(data := t.msg.data + [irq.ch]))
    case Receiving => Closed(s.(msg := s.msg.(data := s.msg.data + [irq.ch])), irq.ch, room)
    case Checking => Closed(s, irq.ch, room)
    case _ => s
  }

  /** What a bus that echoes brings: the break when a break went out last, else the last byte. */
  function Echoed(s: State, ch: byte): Irq
    requires s.sent != []
  {
    match s.sent[|s.sent| - 1]
    case BreakOut => Irq(true, ch)
    case ByteOut(b) => Irq(false, b)
  }

  /** One interrupt on such a bus; `ch` is what the receiver holds at a break. */
  predicate Turned(s: State, t: State, ch: byte, answer: byte -> Option<Response>, room: nat) {
    t == if s.phase == Idle || s.sent == [] then s else Served(s, Echoed(s, ch), answer, room)
  }

  predicate TurnedAt(run: seq<State>, i: nat, ch: byte, answer: byte -> Option<Response>, room: nat)
    requires i + 1 < |run|
  {
    Turned(run[i], run[i + 1], ch, answer, room)
  }

  /** The states after lin_sendpid and after each interrupt, one after the other. */
  predicate EchoRun(run: seq<State>, s: State, pid: byte, ch: byte, answer: byte -> Option<Response>, room: nat) {
    |run| > 0 && run[0] == Begun(s, pid) && forall i: nat :: i + 1 < |run| ==> TurnedAt(run, i, ch, answer, room)
  }

  function Outs(bytes: seq<byte>): (r: seq<Out>)
    ensures |r| == |bytes| && forall i :: 0 <= i < |bytes| ==> r[i] == ByteOut(bytes[i])
  {
    seq(|bytes|, i requires 0 <= i < |bytes| => ByteOut(bytes[i]))
  }

  function Header(pid: byte): seq<Out> { [BreakOut, ByteOut(0x55), ByteOut(Protected(pid))] }

  /** `j` of the response's bytes have come back. */
  function Publishing(was: State, pid: byte, r: Response, j: nat): State
    requires j < |r.data|
  {
    was.(phase := Transmitting, masterPid := pid, msg := Message(pid % 64, r.data[..j]), rsp := r, rspCount := j + 1,
         sent := was.sent + Header(pid) + Outs(r.data[..j + 1]))
  }

  /** All of them have, and the checksum has gone out. */
  function Published(was: State, pid: byte, r: Response): State
    requires Fits(r)
  {
    var data := r.data[..r.dlc];
    was.(phase := Checking, masterPid := pid, msg := Message(pid % 64, data), rsp := r, rspCount := r.dlc,
         sent := was.sent + Header(pid) + Outs(data) + [ByteOut(Checksum(data))])
  }

  /** The master may take a frame, and the slave task answers the identifier with `r`. */
  predicate Asks(s: State, pid: byte, r: Response, answer: byte -> Option<Response>) {
    s.phase == Idle && s.rspCount == 0 && s.msg.data == [] && answer(pid % 64) == Some(r) && Fits(r)
  }

  /** The header: break, synchronisation byte, identifier, and the first byte of the response. */
  lemma {:induction false} HeaderSent(run: seq<State>, s: State, pid: byte, r: Response, ch: byte,
                                      answer: byte -> Option<Response>, room: nat)
    requires EchoRun(run, s, pid, ch, answer, room) && Asks(s, pid, r, answer) && |run| > 3
    ensures run[3] == Publishing(s, pid, r, 0)
  {
    assert TurnedAt(run, 0, ch, answer, room) && TurnedAt(run, 1, ch, answer, room) && TurnedAt(run, 2, ch, answer, room);
    ProtectedKeepsId(pid);
    HeaderAdded(s.sent, pid, r.data);
    assert r.data[..0] == [];
  }

  lemma {:induction false} HeaderAdded(sent: seq<Out>, pid: byte, data: seq<byte>)
    requires data != []
    ensures sent + [BreakOut] + [ByteOut(0x55)] + [ByteOut(Protected(pid))] + [ByteOut(data[0])] ==
            sent + Header(pid) + Outs(data[..1])
  {}

  /** A byte comes back, and the next one goes out. */
  lemma {:induction false} ByteSent(was: State, pid: byte, r: Response, j: nat, ch: byte, answer: byte -> Option<Response>, room: nat)
    requires Fits(r) && j + 1 < r.dlc
    ensures var s := Publishing(was, pid, r, j);
      s.sent != [] && Served(s, Echoed(s, ch), answer, room) == Publishing(was, pid, r, j + 1)
  {
    LastOut(was.sent + Header(pid), r.data, j);
    OneMoreSent(was.sent + Header(pid), r.data, j + 1);
    Longer(r.data, j);
  }

  lemma {:induction false} LastByteSent(was: State, pid: byte, r: Response, j: nat, ch: byte, answer: byte -> Option<Response>, room: nat)
    requires Fits(r) && j + 1 == r.dlc
    ensures var s := Publishing(was, pid, r, j);
      s.sent != [] && Served(s, Echoed(s, ch), answer, room) == Published(was, pid, r)
  {
    LastOut(was.sent + Header(pid), r.data, j);
    Longer(r.data, j);
  }

  /** The response goes out byte by byte. */
  lemma {:induction false} BytesSent(run: seq<State>, s: State, pid: byte, r: Response, j: nat, ch: byte,
                                     answer: byte -> Option<Response>, room: nat)
    requires EchoRun(run, s, pid, ch, answer, room) && Asks(s, pid, r, answer) && j < r.dlc && |run| > 3 + j
    ensures run[3 + j] == Publishing(s, pid, r, j)
    decreases j
  {
    if j == 0 {
      HeaderSent(run, s, pid, r, ch, answer, room);
    } else {
      BytesSent(run, s, pid, r, j - 1, ch, answer, room);
      ByteSent(s, pid, r, j - 1, ch, answer, room);
      assert TurnedAt(run, 2 + j, ch, answer, room);
    }
  }

  /** Then its checksum, and then the frame is closed. */
  lemma {:induction false} ResponseSent(run: seq<State>, s: State, pid: byte, r: Response, ch: byte,
                                        answer: byte -> Option<Response>, room: nat)
    requires EchoRun(run, s, pid, ch, answer, room) && Asks(s, pid, r, answer) && r.dlc >= 1 && |run| > 4 + r.dlc
    ensures run[4 + r.dlc] == Closed(Published(s, pid, r), Checksum(r.data[..r.dlc]), room)
  {
    BytesSent(run, s, pid, r, r.dlc - 1, ch, answer, room);
    LastByteSent(s, pid, r, r.dlc - 1, ch, answer, room);
    assert TurnedAt(run, 2 + r.dlc, ch, answer, room);
    assert TurnedAt(run, 3 + r.dlc, ch, answer, room);
    PublishedCloses(s, pid, r, run[4 + r.dlc], ch, answer, room);
  }

  lemma {:induction false} PublishedCloses(was: State, pid: byte, r: Response, t: State, ch: byte,
                                           answer: byte -> Option<Response>, room: nat)
    requires Fits(r) && Turned(Published(was, pid, r), t, ch, answer, room)
    ensures t == Closed(Published(was, pid, r), Checksum(r.data[..r.dlc]), room)
  {
    LastAdded(was.sent + Header(pid) + Outs(r.data[..r.dlc]), ByteOut(Checksum(r.data[..r.dlc])));
  }

  /** An idle master stays as it is. */
  lemma {:induction false} StaysIdle(run: seq<State>, s: State, pid: byte, i: nat, j: nat, ch: byte,
                                     answer: byte -> Option<Response>, room: nat)
    requires EchoRun(run, s, pid, ch, answer, room) && i <= j < |run| && run[i].phase == Idle
    ensures run[j] == run[i]
    decreases j
  {
    if i < j {
      StaysIdle(run, s, pid, i, j - 1, ch, answer, room);
      assert TurnedAt(run, j - 1, ch, answer, room);
    }
  }

  lemma {:induction false} LastAdded(before: seq<Out>, o: Out)
    ensures var sent := before + [o]; sent != [] && sent[|sent| - 1] == o
  {}

  lemma {:induction false} LastOut(before: seq<Out>, data: seq<byte>, j: nat)
    requires j < |data|
    ensures var sent := before + Outs(data[..j + 1]); sent != [] && sent[|sent| - 1] == ByteOut(data[j])
  {}

  lemma {:induction false} Longer(data: seq<byte>, j: nat)
    requires j < |data|
    ensures data[..j] + [data[j]] == data[..j + 1]
  {}

  lemma {:induction false} OneMoreSent(before: seq<Out>, data: seq<byte>, j: nat)
    requires j < |data|
    ensures before + Outs(data[..j]) + [ByteOut(data[j])] == before + Outs(data[..j + 1])
  {
    assert Outs(data[..j]) + [ByteOut(data[j])] == Outs(data[..j + 1]);
  }

  /** From `s` to `t` the frame of the response has gone out whole, a copy is
      queued if there is room, and the master is idle with its counters cleared. */
  predicate FrameSent(s: State, t: State, pid: byte, r: Response, room: nat)
    requires Fits(r)
  {
    var data := r.data[..r.dlc];
    t.sent == s.sent + Header(pid) + Outs(data) + [ByteOut(Checksum(data))] &&
    t.queue == (if |s.queue| < room then s.queue + [Message(pid % 64, data)] else s.queue) &&
    t.phase == Idle && t.rspCount == 0 && t.msg.data == [] && t.status == Fine
  }

  /** A whole frame on a bus that echoes. */
  lemma {:induction false} PublishesFrame(run: seq<State>, s: State, pid: byte, r: Response, ch: byte,
                                          answer: byte -> Option<Response>, room: nat)
    requires EchoRun(run, s, pid, ch, answer, room) && Asks(s, pid, r, answer) && r.dlc >= 1 && |run| > 4 + r.dlc
    ensures FrameSent(s, run[|run| - 1], pid, r, room)
  {
    ResponseSent(run, s, pid, r, ch, answer, room);
    FrameClosed(s, pid, r, room);
    StaysIdle(run, s, pid, 4 + r.dlc, |run| - 1, ch, answer, room);
  }

  lemma {:induction false} FrameClosed(was: State, pid: byte, r: Response, room: nat)
    requires Fits(r) && was.phase == Idle
    ensures FrameSent(was, Closed(Published(was, pid, r), Checksum(r.data[..r.dlc]), room), pid, r, room)
  {}

  /** From `s` to `t` the first byte of the array has gone out nevertheless, and
      the checksum of no bytes. The two do not agree unless that byte is zero,
      so an empty message is queued, or one of a zero byte. */
  predicate EmptySent(s: State, t: State, pid: byte, r: Response, room: nat)
    requires Fits(r)
  {
    var data := if r.data[0] == 0 then [0] else [];
    t.sent == s.sent + Header(pid) + [ByteOut(r.data[0]), ByteOut(255)] &&
    t.queue == (if |s.queue| < room then s.queue + [Message(pid % 64, data)] else s.queue) &&
    t.phase == Idle && t.rspCount == 0 && t.msg.data == [] && t.status == Fine
  }

  /** An empty response on a bus that echoes. */
  lemma {:induction false} EmptyResponseSends(run: seq<State>, s: State, pid: byte, r: Response, ch: byte,
                                              answer: byte -> Option<Response>, room: nat)
    requires EchoRun(run, s, pid, ch, answer, room) && Asks(s, pid, r, answer) && r.dlc == 0 && |run| > 5
    ensures EmptySent(s, run[|run| - 1], pid, r, room)
  {
    HeaderSent(run, s, pid, r, ch, answer, room);
    EmptyByteBack(s, pid, r, ch, answer, room);
    assert TurnedAt(run, 3, ch, answer, room) && TurnedAt(run, 4, ch, answer, room);
    EmptyCloses(s, pid, r, run[5], ch, answer, room);
    StaysIdle(run, s, pid, 5, |run| - 1, ch, answer, room);
  }

  lemma {:induction false} EmptyCloses(was: State, pid: byte, r: Response, t: State, ch: byte,
                                       answer: byte -> Option<Response>, room: nat)
    requires Fits(r) && was.phase == Idle && Turned(EmptyPublished(was, pid, r), t, ch, answer, room)
    ensures EmptySent(was, t, pid, r, room)
  {
    OneByteSum(r.data[0]);
    var sent := was.sent + Header(pid) + [ByteOut(r.data[0]), ByteOut(255)];
    assert sent[|sent| - 1] == ByteOut(255);
  }

  function EmptyPublished(was: State, pid: byte, r: Response): State
    requires r.data != []
  {
    was.(phase := Checking, masterPid := pid, msg := Message(pid % 64, [r.data[0]]), rsp := r, rspCount := 1,
         sent := was.sent + Header(pid) + [ByteOut(r.data[0]), ByteOut(255)])
  }

  lemma {:induction false} EmptyByteBack(was: State, pid: byte, r: Response, ch: byte, answer: byte -> Option<Response>, room: nat)
    requires Fits(r) && r.dlc == 0
    ensures var s := Publishing(was, pid, r, 0);
      s.sent != [] && Served(s, Echoed(s, ch), answer, room) == EmptyPublished(was, pid, r)
  {
    LastOut(was.sent + Header(pid), r.data, 0);
    Longer(r.data, 0);
    OneByteSum(r.data[0]);
    assert r.data[..0] == [] && r.data[..1] == [r.data[0]];
    TwoSent(was.sent + Header(pid), r.data[0]);
  }

  lemma {:induction false} TwoSent(before: seq<Out>, b: byte)
    ensures before + Outs([b]) + [ByteOut(255)] == before + [ByteOut(b), ByteOut(255)]
  {}

  lemma {:induction false} OneByteSum(b: byte)
    ensures Checksum([b]) == 255 - b && Checksum([]) == 255
  {
    FoldedOne(b);
  }

  lemma {:induction false} FoldedOne(b: byte)
    ensures FoldedAll([b]) == b && FoldedAll([]) == 0
  {
    assert [b][..0] == [];
    FoldsBy255(0, b);
  }

  /** So what has gone out, and is queued, is the frame of the response exactly for responses of a byte or more. */
  lemma {:induction false} PublishesExactly(run: seq<State>, s: State, pid: byte, r: Response, ch: byte,
                                            answer: byte -> Option<Response>, room: nat)
    requires EchoRun(run, s, pid, ch, answer, room) && Asks(s, pid, r, answer) && |run| > 5 + r.dlc
    ensures FrameSent(s, run[|run| - 1], pid, r, room) <==> r.dlc >= 1
  {
    if r.dlc >= 1 {
      PublishesFrame(run, s, pid, r, ch, answer, room);
    } else {
      EmptyResponseSends(run, s, pid, r, ch, answer, room);
      assert |Outs(r.data[..r.dlc])| == 0;
    }
  }

  /** The master as the interrupt handler runs it. */
  class Master {
    var phase: Phase
    var status: Status
    var masterPid: byte
    var msg: Message
    var rsp: Response
    var rspCount: nat
    var length: nat
    var queue: seq<Message>
    var sent: seq<Out>
    const answer: byte -> Option<Response>
    const room: nat

    constructor (answer: byte -> Option<Response>, room: nat, rsp: Response)
      ensures S() == State(Idle, Fine, 0, Message(0, []), rsp, 0, 0, [], []) && this.answer == answer && this.room == room
    {
      phase, status, masterPid, msg, rspCount, length := Idle, Fine, 0, Message(0, []), 0, 0;
      queue, sent := [], [];
      this.rsp, this.answer, this.room := rsp, answer, room;
    }

    ghost function S(): State
      reads this
    {
      State(phase, status, masterPid, msg, rsp, rspCount, length, queue, sent)
    }

    method Transmit(b: byte)
      modifies this`sent
      ensures sent == old(sent) + [ByteOut(b)]
    {
      sent := sent + [ByteOut(b)];
    }

    /** lin_sendpid; a call is refused while a frame is under way. */
    method SendPid(pid: byte) returns (ret: int)
      modifies this
      ensures S() == Begun(old(S()), pid) && ret == if old(phase) == Idle then 0 else 1
    {
      if phase != Idle { return 1; }
      masterPid := pid;
      sent := sent + [BreakOut];
      phase := Break;
      return 0;
    }

    /** lin_error_reset */
    method Reset()
      modifies this`rspCount, this`msg, this`phase
      ensures S() == Cleared(old(S()))
    {
      rspCount := 0;
      msg := msg.(data := []);
      phase := Idle;
    }

    /** The end of a frame. */
    method Close(ch: byte)
      requires |msg.data| <= 255
      modifies this
      ensures S() == Closed(old(S()), ch, room)
    {
      var cs := CalcChecksum(msg.data);
      if ch != cs {
        Reset();
        status := ChecksumError;
      }
      if |queue| < room { queue := queue + [msg]; }
      Reset();
      status := Fine;
    }

    /** LIN_PID */
    method TakePid(received: byte)
      requires phase == Pid
      modifies this
      ensures S() == Served(old(S()), Irq(false, received), answer, room)
    {
      var ch := received % 64;
      msg := msg.(pid := ch);
      var r := answer(ch);
      if r.Some? {
        rsp := r.value;
        if rspCount < |rsp.data| {
          Transmit(rsp.data[rspCount]);
          rspCount := rspCount + 1;
          phase := Transmitting;
        }
      } else {
        length := if ch < 0x20 then 2 else if ch < 0x30 then 4 else 8;
        phase := Receiving;
      }
    }

    /** LIN_TRANSMITING */
    method TakeEcho(ch: byte)
      requires phase == Transmitting && Fits(rsp)
      modifies this
      ensures S() == Served(old(S()), Irq(false, ch), answer, room)
    {
      if rspCount < rsp.dlc {
        Transmit(rsp.data[rspCount]);
        rspCount := rspCount + 1;
      } else {
        phase := Checking;
        var cs := CalcChecksum(rsp.data[..rsp.dlc]);
        Transmit(cs);
      }
      msg := msg.(data := msg.data + [ch]);
    }

    /** master_node_process */
    method Process(irq: Irq)
      requires |msg.data| < 255 && (phase == Transmitting ==> Fits(rsp))
      modifies this
      ensures S() == Served(old(S()), irq, answer, room)
    {
      match phase
      case Break =>
        if !irq.broke {
          Reset();
          status := BreakError;
          return;
        }
        Transmit(0x55);
        phase := Sync;
      case Sync =>
        if irq.ch == 0x55 {
          Transmit(Protected(masterPid));
          phase := Pid;
        } else {
          Reset();
          status := SyncError;
        }
      case Pid => TakePid(irq.ch);
      case Transmitting => TakeEcho(irq.ch);
      case Receiving =>
        msg := msg.(data := msg.data + [irq.ch]);
        Close(irq.ch);
      case Checking => Close(irq.ch);
      case _ =>
    }
  }
}
