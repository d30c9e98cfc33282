/** The RC-5 remote control: the biphase waveform of a bit string, and the
    decoder that sees the gaps between its falling edges. */
module Rc5 {

  // ---------------------------------------------------------------------
  // The decoder
  // ---------------------------------------------------------------------

  /** A quarter of a bit, in timer ticks; half the tolerance; the patience. */
  const T := 4000
  const HALF_ERR := 512
  const N_IDL := 20

  datatype Sm = Idle | Last1 | Last00 | Failed | Ready

  datatype Key = Key(data: nat, system: nat, toggle: nat, edata: nat, nokey: bool)

  datatype State = State(sm: Sm, bits: nat, shift: nat, idl: nat, key: Key)

  /** The gap in units of T; a timeout is negative. */
  function Width(pulse: int): int { if pulse > 0 then (pulse + HALF_ERR) / T else pulse }

  function Shifted(s: State, sm: Sm, n: nat, bit: nat): State {
    s.(sm := sm, shift := (if n == 2 then 4 * s.shift else 2 * s.shift) + bit, bits := s.bits + n)
  }

  /** The state machine of rc5_rx_bits. */
  function Moved(s: State, width: int): State {
    match s.sm
    case Idle => s.(idl := 0, bits := 0, shift := 0, sm := Last1)
    case Last1 =>
      if width >= 0 && s.bits == 0 then s.(shift := 1, bits := 1)
      else if width == 4 then Shifted(s, Last1, 1, 1)
      else if width == 6 then Shifted(s, Last00, 2, 0)
      else if width == 8 then Shifted(s, Last1, 2, 1)
      else if width < 0 then
        if s.bits > 1 then s.(sm := Ready)
        else if s.idl + 1 > N_IDL then s.(idl := 0, key := Key(0, 0, 0, 0, true))
        else s.(idl := s.idl + 1)
      else s.(sm := Failed)
    case Last00 =>
      if width == 4 then Shifted(s, Last00, 1, 0)
      else if width == 6 then Shifted(s, Last1, 1, 1)
      else if width < 0 then s.(sm := Ready)
      else s.(sm := Failed)
    case Failed => if width < 0 then s.(sm := Idle) else s
    case Ready => s.(sm := Idle)
  }

  /** What is made of a whole frame: a last 0 that left no edge is put back. */
  function Finished(s: State): State {
    var t := if s.bits == 13 then s.(shift := 2 * s.shift, bits := 14) else s;
    if t.bits != 14 then t.(sm := Idle)
    else t.(sm := Idle, shift := t.shift / 64 / 32 / 2,
            key := Key(t.shift % 64, t.shift / 64 % 32, t.shift / 64 / 32 % 2, t.shift / 64 / 32 / 2 % 2, false))
  }

  /** rc5_rx_bits. */
  function Received(s: State, pulse: int): State {
    var t := Moved(s, Width(pulse));
    if t.sm == Ready then Finished(t) else t
  }

  function ReceivedAll(s: State, pulses: seq<int>): State
    decreases |pulses|
  {
    if pulses == [] then s else ReceivedAll(Received(s, pulses[0]), pulses[1..])
  }

  // ---------------------------------------------------------------------
  // The waveform
  // ---------------------------------------------------------------------

  /** Two half bits a bit: a one is high then low, a zero low then high. */
  function Levels(bits: seq<bool>): (r: seq<bool>)
    ensures |r| == 2 * |bits|
    ensures forall k :: 0 <= k < |r| ==> r[k] == if k % 2 == 0 then bits[k / 2] else !bits[k / 2]
  {
    seq(2 * |bits|, k requires 0 <= k < 2 * |bits| => if k % 2 == 0 then bits[k / 2] else !bits[k / 2])
  }

  /** The line is high before the frame. */
  predicate Falls(levels: seq<bool>, k: int) {
    0 <= k < |levels| && !levels[k] && (k == 0 || levels[k - 1])
  }

  /** The falling edges among the first `n` half bits, in order. */
  function Edges(levels: seq<bool>, n: nat): (r: seq<nat>)
    requires n <= |levels|
  {
    if n == 0 then [] else Edges(levels, n - 1) + if Falls(levels, n - 1) then [n - 1] else []
  }

  lemma {:induction false} EdgesAre(levels: seq<bool>, n: nat)
    requires n <= |levels|
    ensures var r := Edges(levels, n);
      && (forall i :: 0 <= i < |r| ==> r[i] < n && Falls(levels, r[i]))
      && (forall i, j :: 0 <= i < j < |r| ==> r[i] < r[j])
      && forall k :: 0 <= k < n && Falls(levels, k) ==> k in r
  {
    if n > 0 { EdgesAre(levels, n - 1); }
  }

  /** A measured gap for `d` half bits: at most an eighth of T too short,
      less than seven eighths too long. */
  predicate Measures(pulse: int, d: int) { d * 2 * T - HALF_ERR <= pulse < d * 2 * T + T - HALF_ERR }

  /** The gaps between the falling edges of the waveform, as measured. */
  ghost predicate GapsOf(pulses: seq<int>, edges: seq<nat>) { GapsFrom(pulses, edges, 0) }

  /** The same from edge `j` on. */
  ghost predicate GapsFrom(pulses: seq<int>, edges: seq<nat>, j: nat) {
    |edges| == j + |pulses| + 1 &&
    forall i :: 0 <= i < |pulses| ==> Measures(pulses[i], (edges[j + i + 1] as int) - edges[j + i])
  }

  // ---------------------------------------------------------------------
  // Decoding inverts encoding
  // ---------------------------------------------------------------------

  /** The number a bit string stands for, most significant bit first. */
  function Value(bits: seq<bool>): nat {
    if bits == [] then 0 else 2 * Value(bits[..|bits| - 1]) + if bits[|bits| - 1] then 1 else 0
  }

  lemma {:induction false} ValueGrows(bits: seq<bool>, n: nat)
    requires n < |bits|
    ensures Value(bits[..n + 1]) == 2 * Value(bits[..n]) + if bits[n] then 1 else 0
  {
    assert bits[..n + 1][..n] == bits[..n];
  }

  /** Where the decoder stands at falling edge `k`: it has all bits so far. */
  ghost predicate At(s: State, bits: seq<bool>, k: int) {
    0 <= k && k / 2 < |bits| && s.bits == k / 2 + 1 && s.shift == Value(bits[..k / 2 + 1]) &&
    s.sm == if k % 2 == 1 then Last1 else Last00
  }

  /** An edge is the middle of a one, or the border between two zeros. */
  lemma {:induction false} EdgeKinds(bits: seq<bool>, k: nat)
    requires k < 2 * |bits|
    ensures Falls(Levels(bits), k) <==>
      if k % 2 == 1 then bits[k / 2] else !bits[k / 2] && (k == 0 || !bits[k / 2 - 1])
  {
    var l := Levels(bits);
    if k > 0 { assert l[k - 1] == if k % 2 == 1 then bits[k / 2] else !bits[k / 2 - 1]; }
  }

  /** How far the next falling edge is, by the bits that follow. */
  ghost predicate Apart(bits: seq<bool>, k: nat, d: nat) {
    k / 2 + 1 < |bits| &&
    if k % 2 == 0 then d == if bits[k / 2 + 1] then 3 else 2
    else if bits[k / 2 + 1] then d == 2
    else k / 2 + 2 < |bits| && d == if bits[k / 2 + 2] then 4 else 3
  }

  lemma {:induction false} NextApart(bits: seq<bool>, k: nat, next: nat)
    requires k < next < 2 * |bits| && Falls(Levels(bits), k) && Falls(Levels(bits), next)
    requires forall e :: k < e < next ==> !Falls(Levels(bits), e)
    ensures Apart(bits, k, next - k)
  {
    EdgeKinds(bits, k);
    EdgeKinds(bits, next);
    if next > k + 1 { EdgeKinds(bits, k + 1); }
    if next > k + 2 { EdgeKinds(bits, k + 2); }
    if next > k + 3 { EdgeKinds(bits, k + 3); }
    if next > k + 4 { EdgeKinds(bits, k + 4); }
    if k % 2 == 0 {
      assert (k + 1) / 2 == k / 2 && (k + 2) / 2 == k / 2 + 1 && (k + 3) / 2 == k / 2 + 1;
    } else {
      assert (k + 1) / 2 == k / 2 + 1 && (k + 2) / 2 == k / 2 + 1 && (k + 3) / 2 == k / 2 + 2 && (k + 4) / 2 == k / 2 + 2;
    }
  }

  /** The decoder gets the bits in between from the gap alone. */
  lemma {:induction false} DecodesGap(bits: seq<bool>, k: nat, d: nat, s: State, pulse: int)
    requires At(s, bits, k) && Apart(bits, k, d) && Measures(pulse, d)
    ensures At(Received(s, pulse), bits, k + d)
  {
    var i := k / 2;
    assert Width(pulse) == 2 * d;
    ValueGrows(bits, i + 1);
    if i + 2 < |bits| { ValueGrows(bits, i + 2); }
    if k % 2 == 0 {
      assert (k + 2) / 2 == i + 1 && (k + 3) / 2 == i + 1;
    } else {
      assert (k + 2) / 2 == i + 1 && (k + 3) / 2 == i + 2 && (k + 4) / 2 == i + 2;
    }
  }

  /** Neighbours in the list of edges are neighbours on the line. */
  lemma {:induction false} Neighbours(bits: seq<bool>, edges: seq<nat>, j: nat)
    requires edges == Edges(Levels(bits), 2 * |bits|) && j + 1 < |edges|
    ensures edges[j] < edges[j + 1] < 2 * |bits| && Falls(Levels(bits), edges[j]) && Falls(Levels(bits), edges[j + 1])
    ensures forall e :: edges[j] < e < edges[j + 1] ==> !Falls(Levels(bits), e)
  {
    EdgesAre(Levels(bits), 2 * |bits|);
    forall e | edges[j] < e < edges[j + 1] ensures !Falls(Levels(bits), e) { NoneBetween(edges, j, e); }
  }

  lemma {:induction false} NoneBetween(s: seq<nat>, j: nat, e: nat)
    requires j + 1 < |s| && s[j] < e < s[j + 1] && forall i, k :: 0 <= i < k < |s| ==> s[i] < s[k]
    ensures e !in s
  {
    forall i | 0 <= i < |s| ensures s[i] != e {}
  }

  lemma {:induction false} DecodesGaps(bits: seq<bool>, edges: seq<nat>, j: nat, s: State, pulses: seq<int>)
    requires edges == Edges(Levels(bits), 2 * |bits|) && GapsFrom(pulses, edges, j) && At(s, bits, edges[j])
    ensures At(ReceivedAll(s, pulses), bits, edges[|edges| - 1])
    decreases |pulses|
  {
    if pulses != [] {
      Neighbours(bits, edges, j);
      NextApart(bits, edges[j], edges[j + 1]);
      assert Measures(pulses[0], (edges[j + 0 + 1] as int) - edges[j + 0]);
      DecodesGap(bits, edges[j], edges[j + 1] - edges[j], s, pulses[0]);
      forall i | 0 <= i < |pulses[1..]| ensures Measures(pulses[1..][i], (edges[j + 1 + i + 1] as int) - edges[j + 1 + i]) {
        assert Measures(pulses[i + 1], (edges[j + (i + 1) + 1] as int) - edges[j + (i + 1)]);
      }
      DecodesGaps(bits, edges, j + 1, Received(s, pulses[0]), pulses[1..]);
    }
  }

  /** The bits that leave an edge: all but a last zero after a one. */
  function Heard(bits: seq<bool>): seq<bool> {
    var n := |bits|;
    if n >= 2 && bits[n - 2] && !bits[n - 1] then bits[..n - 1] else bits
  }

  lemma {:induction false} LastEdge(bits: seq<bool>, edges: seq<nat>)
    requires bits != [] && bits[0] && edges == Edges(Levels(bits), 2 * |bits|)
    ensures edges != [] && edges[0] == 1
    ensures edges[|edges| - 1] / 2 + 1 == |Heard(bits)|
  {
    var n := |bits|;
    FirstEdge(bits, edges);
    EdgesAre(Levels(bits), 2 * n);
    var k := edges[|edges| - 1];
    forall e: nat | k < e < 2 * n ensures !Falls(Levels(bits), e) { NoneAfter(edges, k, e); }
    LastFall(bits, k);
  }

  /** The last falling edge is in the last bit that is heard. */
  lemma {:induction false} LastFall(bits: seq<bool>, k: nat)
    requires bits != [] && bits[0] && k < 2 * |bits| && Falls(Levels(bits), k)
    requires forall e: nat :: k < e < 2 * |bits| ==> !Falls(Levels(bits), e)
    ensures k / 2 + 1 == |Heard(bits)|
  {
    var n := |bits|;
    EdgeKinds(bits, k);
    if n >= 2 {
      EdgeKinds(bits, 2 * n - 1);
      EdgeKinds(bits, 2 * n - 2);
      EdgeKinds(bits, 2 * n - 3);
      assert (2 * n - 1) / 2 == n - 1 && (2 * n - 2) / 2 == n - 1 && (2 * n - 3) / 2 == n - 2;
    }
  }

  lemma {:induction false} FirstEdge(bits: seq<bool>, edges: seq<nat>)
    requires bits != [] && bits[0] && edges == Edges(Levels(bits), 2 * |bits|)
    ensures edges != [] && edges[0] == 1
  {
    EdgesAre(Levels(bits), 2 * |bits|);
    EdgeKinds(bits, 0);
    EdgeKinds(bits, 1);
    assert 1 in edges;
    assert edges[0] <= 1;
  }

  lemma {:induction false} NoneAfter(edges: seq<nat>, k: nat, e: nat)
    requires edges != [] && k == edges[|edges| - 1] < e
    requires forall i, j :: 0 <= i < j < |edges| ==> edges[i] < edges[j]
    ensures e !in edges
  {}

  predicate Armed(s: State) { s.sm == Last1 && s.bits == 0 }

  /** For every bit string that starts with a one, and every measurement of
      its gaps within the tolerance, the decoder holds the string. */
  lemma {:induction false} DecodesString(bits: seq<bool>, sync: int, pulses: seq<int>, s: State)
    requires bits != [] && bits[0] && Armed(s) && sync > 0
    requires GapsOf(pulses, Edges(Levels(bits), 2 * |bits|))
    ensures var t := ReceivedAll(s, [sync] + pulses);
      && t.bits == |Heard(bits)| && t.shift == Value(Heard(bits)) && (t.sm == Last1 || t.sm == Last00)
  {
    var edges := Edges(Levels(bits), 2 * |bits|);
    LastEdge(bits, edges);
    var t := Received(s, sync);
    assert bits[..1] == [bits[0]] && Value([true]) == 1;
    assert At(t, bits, edges[0]);
    assert ([sync] + pulses)[1..] == pulses;
    DecodesGaps(bits, edges, 0, t, pulses);
    assert bits[..|Heard(bits)|] == Heard(bits);
  }

  // ---------------------------------------------------------------------
  // Nothing else is accepted
  // ---------------------------------------------------------------------

  /** The bits that a gap adds. */
  function More(k: nat, width: int): seq<bool> {
    if k % 2 == 1 then
      if width == 4 then [true] else if width == 6 then [false, false] else [false, true]
    else if width == 4 then [false] else [true]
  }

  /** `k` is the last falling edge, in the last bit. */
  ghost predicate EndsAt(bits: seq<bool>, k: nat) {
    k / 2 + 1 == |bits| && Falls(Levels(bits), k) && bits[0]
  }

  /** Behind `k` no edge falls but the one at `next`. */
  ghost predicate OneFall(b: seq<bool>, k: nat, next: nat) {
    k < next < 2 * |b| && Falls(Levels(b), next) && forall e :: k < e < 2 * |b| && e != next ==> !Falls(Levels(b), e)
  }

  /** A gap that does not fail measures the way to the next edge of a longer string. */
  lemma {:induction false} GapExtends(bits: seq<bool>, k: nat, s: State, pulse: int)
    requires EndsAt(bits, k) && At(s, bits, k) && pulse > 0 && Received(s, pulse).sm != Failed
    ensures var b := bits + More(k, Width(pulse)); var d := Width(pulse) / 2;
      && Measures(pulse, d) && d >= 2 && EndsAt(b, k + d) && At(Received(s, pulse), b, k + d)
      && OneFall(b, k, k + d)
  {
    var w := Width(pulse);
    assert w == 4 || w == 6 || (w == 8 && k % 2 == 1);
    var b, d := bits + More(k, w), w / 2;
    EdgeKinds(bits, k);
    EdgeKinds(b, k);
    assert b[..k / 2 + 1] == bits && bits[..k / 2 + 1] == bits;
    assert At(s, b, k) && Apart(b, k, d);
    DecodesGap(b, k, d, s, pulse);
    OnlyFall(b, k, d);
  }

  /** Behind `k` there is one falling edge, in the last bit. */
  lemma {:induction false} OnlyFall(b: seq<bool>, k: nat, d: nat)
    requires k < 2 * |b| && Falls(Levels(b), k) && Apart(b, k, d) && (k + d) / 2 + 1 == |b|
    ensures forall e :: k < e < 2 * |b| ==> (Falls(Levels(b), e) <==> e == k + d)
  {
    EdgeKinds(b, k);
    forall e: nat | k < e < 2 * |b| ensures Falls(Levels(b), e) <==> e == k + d {
      EdgeKinds(b, e);
      assert e <= k + 5;
    }
  }

  lemma {:induction false} EdgesSame(x: seq<bool>, y: seq<bool>, n: nat)
    requires n <= |x| && n <= |y| && forall i :: 0 <= i < n ==> x[i] == y[i]
    ensures Edges(x, n) == Edges(y, n)
  {
    if n > 0 { EdgesSame(x, y, n - 1); }
  }

  lemma {:induction false} NoEdges(levels: seq<bool>, m: nat, n: nat)
    requires m <= n <= |levels| && forall e :: m <= e < n ==> !Falls(levels, e)
    ensures Edges(levels, n) == Edges(levels, m)
    decreases n
  {
    if m < n { NoEdges(levels, m, n - 1); }
  }

  /** A longer string has the same edges and one more. */
  lemma {:induction false} EdgesExtend(bits: seq<bool>, b: seq<bool>, k: nat, next: nat)
    requires |bits| <= |b| && b[..|bits|] == bits && k < 2 * |bits| && OneFall(b, k, next)
    ensures Edges(Levels(b), 2 * |b|) == Edges(Levels(b), k + 1) + [next]
    ensures Edges(Levels(b), k + 1) == Edges(Levels(bits), k + 1)
  {
    OneFallEdges(b, k, next);
    LevelsSame(bits, b, k + 1);
  }

  lemma {:induction false} OneFallEdges(b: seq<bool>, k: nat, next: nat)
    requires OneFall(b, k, next)
    ensures Edges(Levels(b), 2 * |b|) == Edges(Levels(b), k + 1) + [next] == Edges(Levels(b), next + 1)
  {
    NoEdges(Levels(b), next + 1, 2 * |b|);
    NoEdges(Levels(b), k + 1, next);
  }

  lemma {:induction false} LevelsSame(bits: seq<bool>, b: seq<bool>, n: nat)
    requires |bits| <= |b| && b[..|bits|] == bits && n <= 2 * |bits|
    ensures Edges(Levels(b), n) == Edges(Levels(bits), n)
  {
    forall i | 0 <= i < n ensures Levels(b)[i] == Levels(bits)[i] {
      assert b[i / 2] == b[..|bits|][i / 2];
    }
    EdgesSame(Levels(b), Levels(bits), n);
  }

  /** The pulses so far measure the string so far. */
  ghost predicate Stands(bits: seq<bool>, k: nat, s: State, done: seq<int>) {
    EndsAt(bits, k) && At(s, bits, k) && GapsOf(done, Edges(Levels(bits), 2 * |bits|)) &&
    Edges(Levels(bits), 2 * |bits|) == Edges(Levels(bits), k + 1)
  }

  lemma {:induction false} OneGap(bits: seq<bool>, k: nat, s: State, done: seq<int>, pulse: int)
    requires Stands(bits, k, s, done) && pulse > 0 && Received(s, pulse).sm != Failed
    ensures Stands(bits + More(k, Width(pulse)), k + Width(pulse) / 2, Received(s, pulse), done + [pulse])
  {
    OneEdge(bits, k, s, pulse);
    LastOfEdges(bits, k);
    GapsExtend(done, Edges(Levels(bits), k + 1), pulse, k + Width(pulse) / 2);
  }

  ghost predicate EdgesGrow(bits: seq<bool>, b: seq<bool>, k: nat, next: nat)
    requires k < 2 * |bits| && next < 2 * |b|
  {
    Edges(Levels(b), 2 * |b|) == Edges(Levels(bits), k + 1) + [next] == Edges(Levels(b), next + 1)
  }

  lemma {:induction false} OneEdge(bits: seq<bool>, k: nat, s: State, pulse: int)
    requires EndsAt(bits, k) && At(s, bits, k) && pulse > 0 && Received(s, pulse).sm != Failed
    ensures var b := bits + More(k, Width(pulse)); var d := Width(pulse) / 2;
      && d >= 2 && Measures(pulse, d) && EndsAt(b, k + d) && At(Received(s, pulse), b, k + d)
      && k < 2 * |bits| && k + d < 2 * |b|
      && EdgesGrow(bits, b, k, k + d)
  {
    var d, b := Width(pulse) / 2, bits + More(k, Width(pulse));
    GapExtends(bits, k, s, pulse);
    assert b[..|bits|] == bits;
    EdgesOfLonger(bits, b, k, k + d);
  }

  lemma {:induction false} EdgesOfLonger(bits: seq<bool>, b: seq<bool>, k: nat, next: nat)
    requires |bits| <= |b| && b[..|bits|] == bits && k < 2 * |bits| && OneFall(b, k, next)
    ensures EdgesGrow(bits, b, k, next)
  {
    EdgesExtend(bits, b, k, next);
    OneFallEdges(b, k, next);
  }

  lemma {:induction false} AcceptedFrom(bits: seq<bool>, k: nat, s: State, done: seq<int>, pulses: seq<int>) returns (b: seq<bool>)
    requires Stands(bits, k, s, done)
    requires (forall i :: 0 <= i < |pulses| ==> pulses[i] > 0) && ReceivedAll(s, pulses).sm != Failed
    ensures b != [] && b[0] && GapsOf(done + pulses, Edges(Levels(b), 2 * |b|))
    decreases |pulses|
  {
    if pulses == [] {
      assert done + pulses == done;
      return bits;
    }
    var p := pulses[0];
    FailedStays(Received(s, p), pulses[1..]);
    OneGap(bits, k, s, done, p);
    b := AcceptedFrom(bits + More(k, Width(p)), k + Width(p) / 2, Received(s, p), done + [p], pulses[1..]);
    Shifts(done, pulses);
  }

  lemma {:induction false} Shifts(x: seq<int>, y: seq<int>)
    requires y != []
    ensures x + [y[0]] + y[1..] == x + y
  {}

  lemma {:induction false} GapsExtend(done: seq<int>, edges: seq<nat>, pulse: int, next: nat)
    requires GapsOf(done, edges) && edges != [] && Measures(pulse, next - edges[|edges| - 1])
    ensures GapsOf(done + [pulse], edges + [next])
  {
    var all := edges + [next];
    forall i | 0 <= i < |done + [pulse]| ensures Measures((done + [pulse])[i], (all[0 + i + 1] as int) - all[0 + i]) {
      if i < |done| { assert Measures(done[i], (edges[0 + i + 1] as int) - edges[0 + i]); }
    }
  }

  lemma {:induction false} LastOfEdges(bits: seq<bool>, k: nat)
    requires k < 2 * |bits| && Falls(Levels(bits), k)
    ensures var r := Edges(Levels(bits), k + 1); r != [] && r[|r| - 1] == k
  {}

  lemma {:induction false} FailedStays(s: State, pulses: seq<int>)
    requires forall i :: 0 <= i < |pulses| ==> pulses[i] > 0
    ensures s.sm == Failed ==> ReceivedAll(s, pulses).sm == Failed
    decreases |pulses|
  {
    if s.sm == Failed && pulses != [] { FailedStays(Received(s, pulses[0]), pulses[1..]); }
  }

  /** An armed decoder fails on a run of pulses exactly when they are not the
      measured gaps of any string that starts with a one. */
  lemma {:induction false} AcceptsExactlyWaveforms(s: State, sync: int, pulses: seq<int>)
    requires Armed(s) && sync > 0 && forall i :: 0 <= i < |pulses| ==> pulses[i] > 0
    ensures ReceivedAll(s, [sync] + pulses).sm != Failed <==>
      exists bits :: bits != [] && bits[0] && GapsOf(pulses, Edges(Levels(bits), 2 * |bits|))
  {
    if ReceivedAll(s, [sync] + pulses).sm != Failed {
      var t := Received(s, sync);
      assert ([sync] + pulses)[1..] == pulses && [true][..1] == [true] && Value([true]) == 1;
      EdgeKinds([true], 0);
      EdgeKinds([true], 1);
      assert Edges(Levels([true]), 1) == [] && Edges(Levels([true]), 2) == [1];
      var b := AcceptedFrom([true], 1, t, [], pulses);
      assert [] + pulses == pulses;
    }
    forall bits | bits != [] && bits[0] && GapsOf(pulses, Edges(Levels(bits), 2 * |bits|))
      ensures ReceivedAll(s, [sync] + pulses).sm != Failed
    {
      DecodesString(bits, sync, pulses, s);
    }
  }

  // ---------------------------------------------------------------------
  // Frames
  // ---------------------------------------------------------------------

  /** A frame: two start bits, the second of them data, toggle, system, data. */
  function Frame(edata: nat, toggle: nat, system: nat, data: nat): seq<bool> {
    [true] + Bits(edata, 1) + Bits(toggle, 1) + Bits(system, 5) + Bits(data, 6)
  }

  function Bits(v: nat, n: nat): (r: seq<bool>)
    ensures |r| == n
  {
    if n == 0 then [] else Bits(v / 2, n - 1) + [v % 2 == 1]
  }

  function Pow2(n: nat): (p: nat)
    ensures p > 0
  {
    if n == 0 then 1 else 2 * Pow2(n - 1)
  }

  /** Appending `n` bits multiplies by 2^n and adds their value. */
  lemma {:induction false} ValueOfBits(x: seq<bool>, v: nat, n: nat)
    requires v < Pow2(n)
    ensures Value(x + Bits(v, n)) == Value(x) * Pow2(n) + v
    decreases n
  {
    if n == 0 {
      assert x + Bits(v, n) == x;
    } else {
      var b := x + Bits(v, n);
      assert b[..|b| - 1] == x + Bits(v / 2, n - 1) && b[|b| - 1] == (v % 2 == 1);
      ValueOfBits(x, v / 2, n - 1);
      Twice(Value(x), Pow2(n - 1));
    }
  }

  lemma {:induction false} Twice(v: nat, p: nat)
    ensures 2 * (v * p) == v * (2 * p)
  {}

  lemma {:induction false} ValueOfFrame(edata: nat, toggle: nat, system: nat, data: nat)
    requires edata < 2 && toggle < 2 && system < 32 && data < 64
    ensures Value(Frame(edata, toggle, system, data)) == (((1 * 2 + edata) * 2 + toggle) * 32 + system) * 64 + data
    ensures |Frame(edata, toggle, system, data)| == 14 && Frame(edata, toggle, system, data)[0]
  {
    assert Pow2(1) == 2 && Pow2(5) == 32 && Pow2(6) == 64;
    assert Value([true]) == 1;
    var x := [true] + Bits(edata, 1);
    ValueOfBits([true], edata, 1);
    ValueOfBits(x, toggle, 1);
    ValueOfBits(x + Bits(toggle, 1), system, 5);
    ValueOfBits(x + Bits(toggle, 1) + Bits(system, 5), data, 6);
  }

  /** The fields come out of the register again. */
  lemma {:induction false} FieldsOf(v: nat, edata: nat, toggle: nat, system: nat, data: nat)
    requires edata < 2 && toggle < 2 && system < 32 && data < 64
    requires v == (((1 * 2 + edata) * 2 + toggle) * 32 + system) * 64 + data
    ensures v % 64 == data && v / 64 % 32 == system && v / 64 / 32 % 2 == toggle && v / 64 / 32 / 2 % 2 == edata
  {
    assert v / 64 == ((1 * 2 + edata) * 2 + toggle) * 32 + system;
    assert v / 64 / 32 == (1 * 2 + edata) * 2 + toggle;
  }

  /** Every frame, measured within the tolerance and followed by a timeout,
      sets the key to its fields, the last bit being lost or not. */
  lemma {:induction false} DecodesFrame(edata: nat, toggle: nat, system: nat, data: nat, sync: int, pulses: seq<int>, s: State)
    requires edata < 2 && toggle < 2 && system < 32 && data < 64 && Armed(s) && sync > 0
    requires var f := Frame(edata, toggle, system, data); GapsOf(pulses, Edges(Levels(f), 2 * |f|))
    ensures var t := Received(ReceivedAll(s, [sync] + pulses), -1);
      t.key == Key(data, system, toggle, edata, false) && t.sm == Idle
  {
    var f := Frame(edata, toggle, system, data);
    ValueOfFrame(edata, toggle, system, data);
    DecodesString(f, sync, pulses, s);
    var t := ReceivedAll(s, [sync] + pulses);
    if |Heard(f)| == 13 {
      ValueGrows(f, 13);
      assert f[..14] == f && Heard(f) == f[..13];
    }
    FieldsOf(Value(f), edata, toggle, system, data);
    assert Finished(t).key == Key(data, system, toggle, edata, false);
  }

  /** A string that is not a frame leaves the key alone. */
  lemma {:induction false} OthersIgnored(bits: seq<bool>, sync: int, pulses: seq<int>, s: State)
    requires bits != [] && bits[0] && Armed(s) && sync > 0 && |Heard(bits)| != 13 && |Heard(bits)| != 14 && |Heard(bits)| > 1
    requires GapsOf(pulses, Edges(Levels(bits), 2 * |bits|))
    ensures var t := Received(ReceivedAll(s, [sync] + pulses), -1); t.key == s.key && t.sm == Idle
  {
    DecodesString(bits, sync, pulses, s);
    EdgesAre(Levels(bits), 2 * |bits|);
    var edges := Edges(Levels(bits), 2 * |bits|);
    forall i | 0 <= i < |pulses| ensures pulses[i] > 0 {
      assert Measures(pulses[i], (edges[0 + i + 1] as int) - edges[0 + i]);
      Neighbours(bits, edges, i);
    }
    KeyKept(s, [sync] + pulses);
  }

  /** No pulse changes the key before a timeout. */
  lemma {:induction false} KeyKept(s: State, pulses: seq<int>)
    requires forall i :: 0 <= i < |pulses| ==> pulses[i] > 0
    requires s.sm != Ready
    ensures ReceivedAll(s, pulses).key == s.key
    decreases |pulses|
  {
    if pulses != [] { KeyKept(Received(s, pulses[0]), pulses[1..]); }
  }
}
