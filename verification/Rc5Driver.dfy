/** The decoder as the interrupt handler runs it. */
module Rc5Driver {
  import opened Rc5

  class Receiver {
    var sm: Sm
    var bits: nat
    var shift: nat
    var idl: nat
    var key: Key

    constructor ()
      ensures S() == State(Idle, 0, 0, 0, Key(0, 0, 0, 0, true))
    {
      sm, bits, shift, idl, key := Idle, 0, 0, 0, Key(0, 0, 0, 0, true);
    }

    ghost function S(): State
      reads this
    {
      State(sm, bits, shift, idl, key)
    }

    /** Append bits to the shift register. */
    method ShiftIn(n: nat, bit: nat)
      requires n == 1 || n == 2
      modifies this`shift, this`bits
      ensures S() == Shifted(old(S()), sm, n, bit)
    {
      shift := if n == 2 then shift * 4 else shift * 2;
      shift := shift + bit;
      bits := bits + n;
    }

    /** The state machine. */
    method Move(width: int)
      modifies this
      ensures S() == Moved(old(S()), width)
    {
      match sm
      case Idle =>
        idl, bits, shift := 0, 0, 0;
        sm := Last1;
      case Last1 =>
        if width >= 0 && bits == 0 {
          shift := 1;
          bits := 1;
          return;
        }
        if width == 4 {
          ShiftIn(1, 1);
        } else if width == 6 {
          ShiftIn(2, 0);
          sm := Last00;
        } else if width == 8 {
          ShiftIn(2, 1);
        } else if width < 0 {
          if bits > 1 {
            sm := Ready;
          } else {
            idl := idl + 1;
            if idl > N_IDL {
              idl := 0;
              key := Key(0, 0, 0, 0, true);
            }
          }
        } else {
          sm := Failed;
        }
      case Last00 =>
        if width == 4 {
          ShiftIn(1, 0);
        } else if width == 6 {
          ShiftIn(1, 1);
          sm := Last1;
        } else if width < 0 {
          sm := Ready;
        } else {
          sm := Failed;
        }
      case Failed =>
        if width < 0 { sm := Idle; }
      case Ready => sm := Idle;
    }

    /** rc5_rx_bits */
    method RxBits(pulsewidth: int)
      modifies this
      ensures S() == Received(old(S()), pulsewidth)
    {
      var width := pulsewidth;
      if width > 0 {
        width := width + HALF_ERR;
        width := width / T;
      }
      Move(width);
      if sm != Ready { return; }
      sm := Idle;
      if bits == 13 {
        shift := shift * 2;
        bits := bits + 1;
      }
      if bits != 14 { return; }
      key := Key(0, 0, 0, 0, false);
      key := key.(data := shift % 64);
      shift := shift / 64;
      key := key.(system := shift % 32);
      shift := shift / 32;
      key := key.(toggle := shift % 2);
      shift := shift / 2;
      key := key.(edata := shift % 2);
    }

    /** The interrupts of a run of pulses and timeouts. */
    method Run(pulses: seq<int>)
      modifies this
      ensures S() == ReceivedAll(old(S()), pulses)
    {
      ghost var goal := ReceivedAll(S(), pulses);
      for i := 0 to |pulses|
        invariant ReceivedAll(S(), pulses[i..]) == goal
      {
        assert pulses[i..][1..] == pulses[i + 1..];
        RxBits(pulses[i]);
      }
    }
  }
}
