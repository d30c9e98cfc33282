/** Flash memory as words. A page erase and a word program are the steps that
    happen as a whole; the supply may fail between any two of them. */
module FlashSteps {
  import opened Wrappers
  import opened Multiples

  const BLANK := -1

  /** `power` is the number of steps left before the supply fails. A step that
      is due when none is left does not happen, and nothing happens after it. */
  datatype Device = Device(words: seq<int>, power: nat, alive: bool)

  function Blank(n: nat): (r: seq<int>)
    ensures |r| == n && forall i :: 0 <= i < n ==> r[i] == BLANK
  {
    seq(n, i => BLANK)
  }

  /** The steps of the flash controller: FLASH_ErasePage and FLASH_ProgramWord. */
  function ErasePage(d: Device, a: nat, pw: nat): (r: Device)
    requires a + pw <= |d.words|
    ensures |r.words| == |d.words|
  {
    if !d.alive then d
    else if d.power == 0 then d.(alive := false)
    else Device(Put(d.words, a, Blank(pw)), d.power - 1, true)
  }

  /** Only a blank word can be programmed: `ok` is FLASH_COMPLETE. */
  function ProgramWord(d: Device, a: nat, w: int): (r: (Device, bool))
    requires a < |d.words|
    ensures |r.0.words| == |d.words|
  {
    if !d.alive then (d, false)
    else if d.power == 0 then (d.(alive := false), false)
    else if d.words[a] == BLANK then (Device(d.words[a := w], d.power - 1, true), true)
    else (d.(power := d.power - 1), false)
  }

  /** The loop of flash_Erase: `n` pages from word `a` on. */
  function ErasedFrom(d: Device, a: nat, n: nat, pw: nat): (r: Device)
    requires a + Span(n, pw) <= |d.words|
    ensures |r.words| == |d.words|
    decreases n
  {
    if n == 0 then d
    else
      var e := ErasePage(d, a, pw);
      if e.alive then ErasedFrom(e, a + pw, n - 1, pw) else e
  }

  /** flash_Erase: a start that is not on a page border erases nothing. */
  function Erased(d: Device, a: nat, n: nat, pw: nat): (r: Device)
    requires pw > 0 && a + Span(n, pw) <= |d.words|
    ensures |r.words| == |d.words|
  {
    if a % pw != 0 then d else ErasedFrom(d, a, n, pw)
  }

  /** flash_Write: stops at the first word that does not program. */
  function Written(d: Device, a: nat, data: seq<int>): (r: Device)
    requires a + |data| <= |d.words|
    ensures |r.words| == |d.words|
    decreases |data|
  {
    if data == [] then d
    else
      var (e, ok) := ProgramWord(d, a, data[0]);
      if ok then Written(e, a + 1, data[1..]) else e
  }

  // ---------------------------------------------------------------------
  // What a whole erase and a whole write leave behind
  // ---------------------------------------------------------------------

  lemma {:induction false} DeadStays(d: Device, a: nat, n: nat, pw: nat, b: nat, data: seq<int>)
    requires !d.alive && pw > 0 && a + Span(n, pw) <= |d.words| && b + |data| <= |d.words|
    ensures Erased(d, a, n, pw) == d && Written(d, b, data) == d
  {
  }

  function Least(a: nat, b: nat): nat { if a <= b then a else b }

  lemma {:induction false} ErasedExactly(d: Device, a: nat, n: nat, pw: nat)
    requires d.alive && a + Span(n, pw) <= |d.words|
    ensures var m := Least(n, d.power);
      && a + Span(m, pw) <= |d.words|
      && ErasedFrom(d, a, n, pw) == Device(Put(d.words, a, Blank(Span(m, pw))), d.power - m, d.power >= n)
    decreases n
  {
    var m := Least(n, d.power);
    PagesUpTo(m, n, pw);
    if n == 0 || d.power == 0 {
      assert Put(d.words, a, Blank(0)) == d.words;
    } else {
      var e := ErasePage(d, a, pw);
      ErasedExactly(e, a + pw, n - 1, pw);
      assert Least(n - 1, e.power) == m - 1 && Span(m, pw) == pw + Span(m - 1, pw);
      assert ErasedFrom(d, a, n, pw) == ErasedFrom(e, a + pw, n - 1, pw);
      BlankTogether(d.words, a, pw, Span(m - 1, pw));
    }
  }

  lemma {:induction false} BlankTogether(words: seq<int>, a: nat, b: nat, c: nat)
    requires a + b + c <= |words|
    ensures Put(Put(words, a, Blank(b)), a + b, Blank(c)) == Put(words, a, Blank(b + c))
  {}

  lemma {:induction false} PagesUpTo(m: nat, n: nat, pw: nat)
    requires m <= n
    ensures Span(m, pw) <= Span(n, pw)
    decreases n
  {
    if m < n { PagesUpTo(m, n - 1, pw); }
  }

  /** On blank words a write programs a prefix of its data, as far as the supply lasts. */
  lemma {:induction false} WrittenExactly(d: Device, a: nat, data: seq<int>)
    requires d.alive && a + |data| <= |d.words|
    requires forall i :: a <= i < a + |data| ==> d.words[i] == BLANK
    ensures var m := Least(|data|, d.power);
      Written(d, a, data) == Device(Put(d.words, a, data[..m]), d.power - m, d.power >= |data|)
    decreases |data|
  {
    var m := Least(|data|, d.power);
    if data != [] && d.power > 0 {
      var (e, ok) := ProgramWord(d, a, data[0]);
      WrittenExactly(e, a + 1, data[1..]);
      assert Put(e.words, a + 1, data[1..][..m - 1]) == Put(d.words, a, data[..m]);
    } else {
      assert Put(d.words, a, data[..0]) == d.words;
    }
  }

  /** A word that is not blank stops the write in front of it. */
  lemma {:induction false} WrittenUpTo(d: Device, a: nat, data: seq<int>, m: nat)
    requires d.alive && a + |data| <= |d.words| && m < |data| && d.power > m
    requires (forall i :: a <= i < a + m ==> d.words[i] == BLANK) && d.words[a + m] != BLANK
    ensures Written(d, a, data) == Device(Put(d.words, a, data[..m]), d.power - m - 1, true)
    decreases m
  {
    if m > 0 {
      var (e, ok) := ProgramWord(d, a, data[0]);
      WrittenUpTo(e, a + 1, data[1..], m - 1);
      assert Put(e.words, a + 1, data[1..][..m - 1]) == Put(d.words, a, data[..m]);
    } else {
      assert Put(d.words, a, data[..0]) == d.words;
    }
  }
}
