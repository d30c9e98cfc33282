/** What the owner of the data may rely on over whole runs with any losses of power. */
module NvmSafety {
  import opened Wrappers
  import opened FlashSteps
  import opened Multiples
  import opened NvmStore

  /** The two sequences agree on `[a, b)`. */
  predicate SameOn(x: seq<int>, y: seq<int>, a: nat, b: nat) {
    b <= |x| == |y| && forall i :: a <= i < b ==> x[i] == y[i]
  }

  /** They agree everywhere else. */
  predicate SameOutside(x: seq<int>, y: seq<int>, a: nat, b: nat) {
    |x| == |y| && forall i :: 0 <= i < |x| && !(a <= i < b) ==> x[i] == y[i]
  }

  predicate BlankOn(x: seq<int>, a: nat, b: nat) {
    b <= |x| && forall i :: a <= i < b ==> x[i] == BLANK
  }

  // ---------------------------------------------------------------------
  // One record, one erase
  // ---------------------------------------------------------------------

  function Record(l: Layout, data: seq<int>): seq<int> { [MAGIC, l.RecordBytes()] + data }

  lemma {:induction false} RecordedAll(l: Layout, d: Device, base: nat, data: seq<int>)
    requires d.alive && base + 2 + |data| <= |d.words| && BlankOn(d.words, base, base + 2 + |data|)
    requires d.power >= |data| + 2
    ensures Recorded(l, d, base, data) == Device(Put(d.words, base, Record(l, data)), d.power - |data| - 2, true)
  {
    var size := [l.RecordBytes()];
    WrittenExactly(d, base + 1, size);
    var d1 := Written(d, base + 1, size);
    assert size[..1] == size && d1.words == Put(d.words, base + 1, size);
    WrittenExactly(d1, base + 2, data);
    var d2 := Written(d1, base + 2, data);
    assert data[..|data|] == data;
    WrittenExactly(d2, base, [MAGIC]);
    var d3 := Written(d2, base, [MAGIC]);
    assert [MAGIC][..1] == [MAGIC];
    RecordPut(l, d.words, base, data);
  }

  /** Size word, data and magic word laid down one after the other are the record. */
  lemma {:induction false} RecordPut(l: Layout, words: seq<int>, base: nat, data: seq<int>)
    requires base + 2 + |data| <= |words|
    ensures Put(Put(Put(words, base + 1, [l.RecordBytes()]), base + 2, data), base, [MAGIC]) == Put(words, base, Record(l, data))
  {}

  /** A cut record has no magic word, and its size word tells it from a blank one. */
  lemma {:induction false} RecordedCut(l: Layout, d: Device, base: nat, data: seq<int>)
    requires d.alive && base + 2 + |data| <= |d.words| && BlankOn(d.words, base, base + 2 + |data|)
    requires d.power < |data| + 2
    ensures var r := Recorded(l, d, base, data);
      && !r.alive && r.words[base] == BLANK && SameOutside(r.words, d.words, base, base + 2 + |data|)
      && (r.words == d.words || r.words[base + 1] == l.RecordBytes())
  {
    var size := [l.RecordBytes()];
    WrittenExactly(d, base + 1, size);
    var d1 := Written(d, base + 1, size);
    if d.power == 0 {
      assert d1.words == d.words;
      return;
    }
    WrittenExactly(d1, base + 2, data);
    var d2 := Written(d1, base + 2, data);
    if d.power == |data| + 1 {
      WrittenExactly(d2, base, [MAGIC]);
      assert Written(d2, base, [MAGIC]).words == d2.words;
    }
  }

  lemma {:induction false} ErasedCopy(l: Layout, d: Device, base: nat)
    requires l.Valid() && d.alive && base + l.Room() <= |d.words| && base % l.pageWords == 0
    ensures d.power >= l.Pages() ==>
      EraseCopy(l, d, base) == Device(Put(d.words, base, Blank(l.Room())), d.power - l.Pages(), true)
    ensures d.power < l.Pages() ==>
      && Span(d.power, l.pageWords) <= l.Room()
      && EraseCopy(l, d, base) == Device(Put(d.words, base, Blank(Span(d.power, l.pageWords))), 0, false)
  {
    ErasedExactly(d, base, l.Pages(), l.pageWords);
    if d.power < l.Pages() { PagesUpTo(d.power, l.Pages(), l.pageWords); }
  }

  lemma {:induction false} LoadedSame(l: Layout, x: seq<int>, y: seq<int>, base: nat)
    requires base + 2 + l.RecordWords() <= |x| && SameOn(x, y, base, base + 2 + l.RecordWords())
    ensures Loaded(l, x, base) == Loaded(l, y, base)
  {
    var n := l.RecordWords();
    assert x[base + 2..base + 2 + n] == y[base + 2..base + 2 + n];
  }

  lemma {:induction false} LoadedRecord(l: Layout, x: seq<int>, base: nat, data: seq<int>)
    requires |data| == l.RecordWords() && base + 2 + |data| <= |x|
    ensures Loaded(l, Put(x, base, Record(l, data)), base) == Some(data)
  {
    var y := Put(x, base, Record(l, data));
    assert y[base + 2..base + 2 + |data|] == data;
  }

  // ---------------------------------------------------------------------
  // The invariant
  // ---------------------------------------------------------------------

  /** What a boot finds: the first copy if it is good, else the second. */
  function Recovered(l: Layout, words: seq<int>): (r: Option<seq<int>>)
    requires Fits(l, words)
    ensures r.Some? ==> |r.value| == l.RecordWords()
  {
    var rom1 := Loaded(l, words, l.Rom1());
    if rom1.Some? then rom1 else Loaded(l, words, l.Rom2())
  }

  ghost predicate Rom1Blank(l: Layout, words: seq<int>)
    requires Fits(l, words)
  {
    BlankOn(words, l.Rom1(), l.Size())
  }

  /** The data owed can be read back, a ROM 1 with a blank size word is blank
      throughout, and while the system runs ROM 1 is blank. */
  ghost predicate Inv(l: Layout, s: System, owed: Option<seq<int>>) {
    && Fits(l, s.words)
    && Recovered(l, s.words) == owed
    && (s.words[l.Rom1() + 1] == BLANK ==> Rom1Blank(l, s.words))
    && (s.running ==> Rom1Blank(l, s.words))
  }

  /** The part of the invariant that a cut at this point must leave. */
  ghost predicate Safe(l: Layout, words: seq<int>, owed: Option<seq<int>>) {
    Inv(l, System(words, false), owed)
  }

  lemma {:induction false} SafeByRom2(l: Layout, words: seq<int>)
    requires Fits(l, words) && Rom1Blank(l, words)
    ensures Inv(l, System(words, true), Loaded(l, words, l.Rom2()))
    ensures Safe(l, words, Loaded(l, words, l.Rom2()))
  {
    assert words[l.Rom1()] == BLANK;
  }

  /** While ROM 1 holds the data nothing else in the flash matters. */
  lemma {:induction false} SafeWhileRom1(l: Layout, was: seq<int>, words: seq<int>, data: seq<int>)
    requires Fits(l, was) && Loaded(l, was, l.Rom1()) == Some(data)
    requires SameOn(was, words, l.Rom1(), l.Size())
    ensures Safe(l, words, Some(data)) && Loaded(l, words, l.Rom1()) == Some(data)
  {
    LoadedSame(l, was, words, l.Rom1());
  }

  lemma {:induction false} DeadErase(l: Layout, d: Device, base: nat)
    requires l.Valid() && base + l.Room() <= |d.words| && !d.alive
    ensures EraseCopy(l, d, base) == d
  {
    DeadStays(d, base, l.Pages(), l.pageWords, 0, []);
  }

  /** ROM 2 is rewritten while ROM 1 is good: after any cut ROM 1 still is,
      and without a cut ROM 2 holds the same data. */
  lemma {:induction false} CopiedBackKeeps(l: Layout, d: Device, data: seq<int>)
    requires Fits(l, d.words) && d.alive && Loaded(l, d.words, l.Rom1()) == Some(data)
    ensures var c := CopiedBack(l, d, data);
      && SameOn(d.words, c.words, l.Rom1(), l.Size())
      && (c.alive ==> Loaded(l, c.words, l.Rom2()) == Some(data))
      && c.alive == (d.power >= l.Pages() + l.RecordWords() + 2)
      && (c.alive ==> c.power == d.power - l.Pages() - l.RecordWords() - 2)
  {
    var rom2 := l.Rom2();
    ErasedCopy(l, d, rom2);
    var e := EraseCopy(l, d, rom2);
    assert SameOn(d.words, e.words, l.Rom1(), l.Size());
    if !e.alive {
      DeadRecord(l, e, rom2, data);
    } else if e.power < l.RecordWords() + 2 {
      RecordedCut(l, e, rom2, data);
    } else {
      RecordedAll(l, e, rom2, data);
      LoadedRecord(l, e.words, rom2, data);
    }
  }

  /** The second half of both nvm_save and the good branch of nvm_init: ROM 1
      is good, ROM 2 is rewritten from the same data, ROM 1 is erased. */
  lemma {:induction false} Rewritten(l: Layout, d: Device, data: seq<int>)
    requires Fits(l, d.words) && d.alive && Loaded(l, d.words, l.Rom1()) == Some(data)
    requires var c := CopiedBack(l, d, data); !(c.alive && 0 < c.power < l.Pages())
    ensures var r := EraseCopy(l, CopiedBack(l, d, data), l.Rom1()); Inv(l, System(r.words, r.alive), Some(data))
  {
    var c := CopiedBack(l, d, data);
    CopiedBackKeeps(l, d, data);
    SafeWhileRom1(l, d.words, c.words, data);
    if c.alive {
      EndsBlank(l, c, data);
    } else {
      DeadErase(l, c, l.Rom1());
    }
  }

  lemma {:induction false} DeadRecord(l: Layout, d: Device, base: nat, data: seq<int>)
    requires !d.alive && base + 2 + |data| <= |d.words|
    ensures Recorded(l, d, base, data) == d
  {
    DeadStays(d, 0, 0, 1, base + 1, [l.RecordBytes()]);
    DeadStays(d, 0, 0, 1, base + 2, data);
    DeadStays(d, 0, 0, 1, base, [MAGIC]);
  }

  /** Both copies hold the data; the first one is erased. */
  lemma {:induction false} EndsBlank(l: Layout, c: Device, data: seq<int>)
    requires Fits(l, c.words) && c.alive
    requires Loaded(l, c.words, l.Rom1()) == Loaded(l, c.words, l.Rom2()) == Some(data)
    requires !(0 < c.power < l.Pages())
    ensures var r := EraseCopy(l, c, l.Rom1()); Inv(l, System(r.words, r.alive), Some(data))
  {
    var r := EraseCopy(l, c, l.Rom1());
    ErasedCopy(l, c, l.Rom1());
    LoadedSame(l, c.words, r.words, l.Rom2());
    if c.power == 0 {
      assert r.words == c.words;
    } else {
      SafeByRom2(l, r.words);
    }
  }

  // ---------------------------------------------------------------------
  // Every event keeps the invariant
  // ---------------------------------------------------------------------

  lemma {:induction false} BootKeeps(l: Layout, s: System, owed: Option<seq<int>>, power: nat)
    requires Inv(l, s, owed) && !Torn(l, s, Boot(power))
    ensures Inv(l, Step(l, s, Boot(power)), owed)
    ensures var (d, data) := Initialised(l, Device(s.words, power, true)); d.alive ==> data == owed
  {
    var d := Device(s.words, power, true);
    match Loaded(l, s.words, l.Rom1())
    case Some(data) => Rewritten(l, d, data);
    case None =>
      if s.words[l.Rom1() + 1] != BLANK {
        ErasedCopy(l, d, l.Rom1());
        var e := EraseCopy(l, d, l.Rom1());
        LoadedSame(l, d.words, e.words, l.Rom2());
        if power == 0 {
          assert e.words == d.words;
        } else {
          SafeByRom2(l, e.words);
        }
      }
  }

  lemma {:induction false} SaveKeeps(l: Layout, s: System, owed: Option<seq<int>>, data: seq<int>, power: nat)
    requires Inv(l, s, owed) && s.running && |data| == l.RecordWords() && !Torn(l, s, Save(data, power))
    ensures Inv(l, Step(l, s, Save(data, power)), Owed(l, s, Save(data, power), owed))
    ensures Owed(l, s, Save(data, power), owed) == if power >= |data| + 2 then Some(data) else owed
  {
    var d := Device(s.words, power, true);
    var r := Recorded(l, d, l.Rom1(), data);
    if power >= |data| + 2 {
      RecordedAll(l, d, l.Rom1(), data);
      LoadedRecord(l, d.words, l.Rom1(), data);
      Rewritten(l, r, data);
    } else {
      RecordedCut(l, d, l.Rom1(), data);
      LoadedSame(l, s.words, r.words, l.Rom2());
      DeadErase(l, r, l.Rom2());
      DeadRecord(l, r, l.Rom2(), data);
      DeadErase(l, r, l.Rom1());
    }
  }

  lemma {:induction false} ClearKeeps(l: Layout, s: System, owed: Option<seq<int>>, power: nat)
    requires Inv(l, s, owed) && s.running
    ensures Inv(l, Step(l, s, Clear(power)), Owed(l, s, Clear(power), owed))
  {
    var d := Device(s.words, power, true);
    ErasedCopy(l, d, l.Rom2());
    var e := EraseCopy(l, d, l.Rom2());
    var r := EraseCopy(l, e, l.Rom1());
    if e.alive {
      ErasedCopy(l, e, l.Rom1());
    } else {
      DeadErase(l, e, l.Rom1());
    }
    assert Rom1Blank(l, r.words);
    if power == 0 {
      assert r.words == s.words;
    } else {
      PagesHold(l);
      assert r.words[l.Rom2()] == BLANK;
    }
    SafeByRom2(l, r.words);
    SafeByRom2(l, s.words);
  }

  // ---------------------------------------------------------------------
  // Whole runs
  // ---------------------------------------------------------------------

  predicate AllSized(l: Layout, events: seq<Event>) { forall i :: 0 <= i < |events| ==> WellSized(l, events[i]) }

  /** The system after the events, and the data it owes. */
  function Run(l: Layout, s: System, owed: Option<seq<int>>, events: seq<Event>): (r: (System, Option<seq<int>>))
    requires Fits(l, s.words) && AllSized(l, events)
    ensures |r.0.words| == |s.words|
    decreases |events|
  {
    if events == [] then (s, owed)
    else Run(l, Step(l, s, events[0]), Owed(l, s, events[0], owed), events[1..])
  }

  /** No erase of ROM 1 is cut between two of its pages. */
  predicate Untorn(l: Layout, s: System, events: seq<Event>)
    requires Fits(l, s.words) && AllSized(l, events)
    decreases |events|
  {
    events == [] || (!Torn(l, s, events[0]) && Untorn(l, Step(l, s, events[0]), events[1..]))
  }

  lemma {:induction false} StepKeeps(l: Layout, s: System, owed: Option<seq<int>>, e: Event)
    requires Inv(l, s, owed) && WellSized(l, e) && !Torn(l, s, e)
    ensures Inv(l, Step(l, s, e), Owed(l, s, e, owed))
  {
    match e
    case Boot(power) => BootKeeps(l, s, owed, power);
    case Save(data, power) => if s.running { SaveKeeps(l, s, owed, data, power); }
    case Clear(power) => if s.running { ClearKeeps(l, s, owed, power); }
  }

  lemma {:induction false} RunKeeps(l: Layout, s: System, owed: Option<seq<int>>, events: seq<Event>)
    requires Inv(l, s, owed) && AllSized(l, events) && Untorn(l, s, events)
    ensures var (t, o) := Run(l, s, owed, events); Inv(l, t, o)
    decreases |events|
  {
    if events != [] {
      StepKeeps(l, s, owed, events[0]);
      RunKeeps(l, Step(l, s, events[0]), Owed(l, s, events[0], owed), events[1..]);
    }
  }

  /** A new flash, not yet booted. */
  function Blanked(l: Layout): System requires l.Valid() { System(Blank(l.Size()), false) }

  /** After any events from a new flash, a boot that completes has read the
      data owed, and leaves ROM 1 blank. */
  ghost predicate LoadsOwed(l: Layout, events: seq<Event>)
    requires l.Valid() && AllSized(l, events)
  {
    var (s, owed) := Run(l, Blanked(l), None, events);
    forall power: nat :: BootLoads(l, s.words, owed, power)
  }

  ghost predicate BootLoads(l: Layout, words: seq<int>, owed: Option<seq<int>>, power: nat)
    requires Fits(l, words)
  {
    var (d, data) := Initialised(l, Device(words, power, true));
    d.alive ==> data == owed && Rom1Blank(l, d.words)
  }

  lemma {:induction false} BlankStarts(l: Layout)
    requires l.Valid()
    ensures Inv(l, Blanked(l), None)
  {
    SafeByRom2(l, Blanked(l).words);
  }

  /** Whatever is cut, and however often, as long as no erase of ROM 1 is torn. */
  lemma {:induction false} UntornLoadsOwed(l: Layout, events: seq<Event>)
    requires l.Valid() && AllSized(l, events) && Untorn(l, Blanked(l), events)
    ensures LoadsOwed(l, events)
  {
    BlankStarts(l);
    RunKeeps(l, Blanked(l), None, events);
    var (s, owed) := Run(l, Blanked(l), None, events);
    forall power: nat ensures BootLoads(l, s.words, owed, power) {
      InvBootLoads(l, s, owed, power);
    }
  }

  lemma {:induction false} InvBootLoads(l: Layout, s: System, owed: Option<seq<int>>, power: nat)
    requires Inv(l, s, owed)
    ensures BootLoads(l, s.words, owed, power)
  {
    if Torn(l, s, Boot(power)) {
      TornBootDies(l, s, power);
    } else {
      BootKeeps(l, s, owed, power);
    }
  }

  lemma {:induction false} TornBootDies(l: Layout, s: System, power: nat)
    requires Fits(l, s.words) && Torn(l, s, Boot(power))
    ensures !Initialised(l, Device(s.words, power, true)).0.alive
  {
    var d := Device(s.words, power, true);
    match Loaded(l, s.words, l.Rom1())
    case Some(data) => ErasedCopy(l, CopiedBack(l, d, data), l.Rom1());
    case None => ErasedCopy(l, d, l.Rom1());
  }

  lemma {:induction false} OnePageIsUntorn(l: Layout, s: System, events: seq<Event>)
    requires Fits(l, s.words) && AllSized(l, events) && l.Pages() == 1
    ensures Untorn(l, s, events)
    decreases |events|
  {
    if events != [] { OnePageIsUntorn(l, Step(l, s, events[0]), events[1..]); }
  }

  // ---------------------------------------------------------------------
  // Two pages or more: a torn erase mixes two saves
  // ---------------------------------------------------------------------

  function Fill(n: nat, w: int): (r: seq<int>)
    ensures |r| == n && forall i :: 0 <= i < n ==> r[i] == w
  {
    seq(n, i => w)
  }

  predicate ZeroOn(x: seq<int>, a: nat, b: nat) {
    b <= |x| && forall i :: a <= i < b ==> x[i] == 0
  }

  /** One save is cut in the erase of ROM 1, after its first page. The next one
      is cut after its magic word, which it programs although the words behind
      the first page could not be programmed. */
  function MixingRun(l: Layout): seq<Event>
    requires l.Valid()
  {
    var n := l.RecordWords();
    [Boot(0), Save(Fill(n, 0), FirstPower(l)), Boot(0), Save(Fill(n, 1), l.pageWords + 1)]
  }

  /** Both copies are written, and one step is left for the erase of ROM 1. */
  lemma {:induction false} WrittenTwice(l: Layout, data: seq<int>)
    requires l.Valid() && |data| == l.RecordWords()
    ensures var c := SavedTwice(l, Device(Blank(l.Size()), FirstPower(l), true), data);
      && c.alive && c.power == 1
      && Loaded(l, c.words, l.Rom1()) == Loaded(l, c.words, l.Rom2()) == Some(data)
  {
    var d := Device(Blank(l.Size()), FirstPower(l), true);
    RecordedAll(l, d, l.Rom1(), data);
    var r := Recorded(l, d, l.Rom1(), data);
    LoadedRecord(l, d.words, l.Rom1(), data);
    CopiedBackKeeps(l, r, data);
    LoadedSame(l, r.words, CopiedBack(l, r, data).words, l.Rom1());
  }

  function FirstPower(l: Layout): nat
    requires l.Valid()
  {
    l.RecordWords() + 2 + l.Pages() + l.RecordWords() + 2 + 1
  }

  /** Page 0 of ROM 1 is blank, the rest of the record is not. */
  lemma {:induction false} TornHalf(l: Layout, c: Device)
    requires Fits(l, c.words) && l.Pages() >= 2 && c.alive && c.power == 1
    requires Loaded(l, c.words, l.Rom1()) == Some(Fill(l.RecordWords(), 0))
    ensures var r := EraseCopy(l, c, l.Rom1());
      && !r.alive && SameOn(c.words, r.words, l.Rom2(), l.Rom1())
      && BlankOn(r.words, l.Rom1(), l.Rom1() + l.pageWords)
      && ZeroOn(r.words, l.Rom1() + l.pageWords, l.Rom1() + l.RecordWords() + 2)
  {
    var n, rom1 := l.RecordWords(), l.Rom1();
    ErasedCopy(l, c, rom1);
    assert Span(1, l.pageWords) == l.pageWords;
    var r := EraseCopy(l, c, rom1);
    assert r.words == Put(c.words, rom1, Blank(l.pageWords));
    forall i | rom1 + 2 <= i < rom1 + 2 + n ensures c.words[i] == 0 {
      assert c.words[i] == c.words[rom1 + 2..rom1 + 2 + n][i - rom1 - 2];
    }
  }

  /** The flash after the first save. */
  lemma {:induction false} FirstSaveIsTorn(l: Layout)
    requires l.Valid() && l.Pages() >= 2
    ensures var n := l.RecordWords(); var zeros := Fill(n, 0);
      var s := Step(l, System(Blank(l.Size()), true), Save(zeros, FirstPower(l)));
      && !s.running && Loaded(l, s.words, l.Rom2()) == Some(zeros)
      && BlankOn(s.words, l.Rom1(), l.Rom1() + l.pageWords)
      && ZeroOn(s.words, l.Rom1() + l.pageWords, l.Rom1() + n + 2)
  {
    var zeros := Fill(l.RecordWords(), 0);
    WrittenTwice(l, zeros);
    var c := SavedTwice(l, Device(Blank(l.Size()), FirstPower(l), true), zeros);
    TornHalf(l, c);
    LoadedSame(l, c.words, EraseCopy(l, c, l.Rom1()).words, l.Rom2());
  }

  /** On such a flash a save of ones programs the first page only, and then the magic word. */
  lemma {:induction false} SecondSaveMixes(l: Layout, words: seq<int>)
    requires Fits(l, words) && BlankOn(words, l.Rom1(), l.Rom1() + l.pageWords)
    requires l.RecordWords() + 2 > l.pageWords
    requires ZeroOn(words, l.Rom1() + l.pageWords, l.Rom1() + l.RecordWords() + 2)
    ensures var n := l.RecordWords(); var ones := Fill(n, 1); var k := l.pageWords - 2;
      var d := Device(words, l.pageWords + 1, true);
      && var r := Recorded(l, d, l.Rom1(), ones);
      && r.alive && r.power == 0 && r.words[l.Rom1()] == MAGIC
      && Loaded(l, r.words, l.Rom1()) == Some(Fill(k, 1) + Fill(n - k, 0))
  {
    var n, pw, rom1 := l.RecordWords(), l.pageWords, l.Rom1();
    var ones, size := Fill(n, 1), [l.RecordBytes()];
    var d := Device(words, pw + 1, true);
    WrittenExactly(d, rom1 + 1, size);
    var d1 := Written(d, rom1 + 1, size);
    assert d1 == Device(Put(words, rom1 + 1, size), pw, true);
    WrittenUpTo(d1, rom1 + 2, ones, pw - 2);
    var d2 := Written(d1, rom1 + 2, ones);
    WrittenExactly(d2, rom1, [MAGIC]);
    assert [MAGIC][..1] == [MAGIC];
    MixedRecord(l, words, d1.words, d2.words);
  }

  lemma {:induction false} MixedRecord(l: Layout, words: seq<int>, words1: seq<int>, words2: seq<int>)
    requires Fits(l, words) && |words1| == |words2| == |words| && l.RecordWords() + 2 > l.pageWords
    requires ZeroOn(words, l.Rom1() + l.pageWords, l.Rom1() + l.RecordWords() + 2)
    requires words1 == Put(words, l.Rom1() + 1, [l.RecordBytes()])
    requires words2 == Put(words1, l.Rom1() + 2, Fill(l.RecordWords(), 1)[..l.pageWords - 2])
    ensures var n := l.RecordWords(); var k := l.pageWords - 2;
      Loaded(l, Put(words2, l.Rom1(), [MAGIC]), l.Rom1()) == Some(Fill(k, 1) + Fill(n - k, 0))
  {
    var n, pw, rom1 := l.RecordWords(), l.pageWords, l.Rom1();
    var words3 := Put(words2, rom1, [MAGIC]);
    assert words3[rom1 + 2..rom1 + 2 + n] == Fill(pw - 2, 1) + Fill(n - (pw - 2), 0);
  }

  /** What the next boot reads after the mixing run, and what it owes. */
  lemma {:induction false} MixingRunMixes(l: Layout)
    requires l.Valid() && l.Pages() >= 2
    ensures var n := l.RecordWords(); var k := l.pageWords - 2;
      && k < n && AllSized(l, MixingRun(l))
      && var (s, owed) := Run(l, Blanked(l), None, MixingRun(l));
      && owed == Some(Fill(n, 1))
      && Loaded(l, s.words, l.Rom1()) == Some(Fill(k, 1) + Fill(n - k, 0))
  {
    PagesHold(l);
    var n := l.RecordWords();
    BootSkipsErase(l, Blanked(l).words);
    FirstSaveIsTorn(l);
    var s2 := Step(l, System(Blank(l.Size()), true), Save(Fill(n, 0), FirstPower(l)));
    TornFlashMixes(l, s2.words);
    RunOfFour(l, Blanked(l), None, MixingRun(l));
  }

  /** A boot and a save of ones on the torn flash. */
  lemma {:induction false} TornFlashMixes(l: Layout, words: seq<int>)
    requires Fits(l, words) && BlankOn(words, l.Rom1(), l.Rom1() + l.pageWords)
    requires l.RecordWords() + 2 > l.pageWords
    requires ZeroOn(words, l.Rom1() + l.pageWords, l.Rom1() + l.RecordWords() + 2)
    ensures var n := l.RecordWords(); var k := l.pageWords - 2;
      var s := Step(l, System(words, false), Boot(0));
      var e := Save(Fill(n, 1), l.pageWords + 1);
      && (forall owed :: Owed(l, s, e, owed) == Some(Fill(n, 1)))
      && Loaded(l, Step(l, s, e).words, l.Rom1()) == Some(Fill(k, 1) + Fill(n - k, 0))
  {
    BootSkipsErase(l, words);
    SecondSaveMixes(l, words);
    SecondSaveStops(l, words, Fill(l.RecordWords(), 1));
  }

  /** On a blank header the boot has no step to do. */
  lemma {:induction false} BootSkipsErase(l: Layout, words: seq<int>)
    requires Fits(l, words) && BlankOn(words, l.Rom1(), l.Rom1() + l.pageWords)
    ensures Step(l, System(words, false), Boot(0)) == System(words, true)
  {}

  lemma {:induction false} SecondSaveStops(l: Layout, words: seq<int>, data: seq<int>)
    requires Fits(l, words) && |data| == l.RecordWords()
    requires var r := Recorded(l, Device(words, l.pageWords + 1, true), l.Rom1(), data); r.alive && r.power == 0
    ensures var d := Device(words, l.pageWords + 1, true);
      Saved(l, d, data).words == Recorded(l, d, l.Rom1(), data).words
  {
    PagesHold(l);
    var r := Recorded(l, Device(words, l.pageWords + 1, true), l.Rom1(), data);
    ErasedCopy(l, r, l.Rom2());
    var e := EraseCopy(l, r, l.Rom2());
    assert e.words == r.words && !e.alive;
    DeadRecord(l, e, l.Rom2(), data);
    DeadErase(l, e, l.Rom1());
  }

  lemma {:induction false} RunOfFour(l: Layout, s: System, owed: Option<seq<int>>, es: seq<Event>)
    requires Fits(l, s.words) && AllSized(l, es) && |es| == 4
    ensures var s1 := Step(l, s, es[0]); var s2 := Step(l, s1, es[1]); var s3 := Step(l, s2, es[2]);
      var o1 := Owed(l, s, es[0], owed); var o2 := Owed(l, s1, es[1], o1); var o3 := Owed(l, s2, es[2], o2);
      Run(l, s, owed, es) == (Step(l, s3, es[3]), Owed(l, s3, es[3], o3))
  {
    var s1 := Step(l, s, es[0]);
    var o1 := Owed(l, s, es[0], owed);
    var s2, o2 := Step(l, s1, es[1]), Owed(l, s1, es[1], o1);
    var s3, o3 := Step(l, s2, es[2]), Owed(l, s2, es[2], o2);
    assert Run(l, s, owed, es) == Run(l, s1, o1, es[1..]);
    assert es[1..][1..] == es[2..] && es[2..][1..] == es[3..] && es[3..][1..] == [];
    assert Run(l, s1, o1, es[1..]) == Run(l, s2, o2, es[2..]) == Run(l, s3, o3, es[3..]);
  }

  /** Any run, with any cuts, is followed by boots that load what is owed. */
  ghost predicate CrashSafe(l: Layout)
    requires l.Valid()
  {
    forall events :: AllSized(l, events) ==> LoadsOwed(l, events)
  }

  lemma {:induction false} MixingRunLoadsWrong(l: Layout)
    requires l.Valid() && l.Pages() >= 2
    ensures AllSized(l, MixingRun(l)) && !LoadsOwed(l, MixingRun(l))
  {
    MixingRunMixes(l);
    var (s, owed) := Run(l, Blanked(l), None, MixingRun(l));
    var data := Loaded(l, s.words, l.Rom1()).value;
    var power := 2 * l.Pages() + l.RecordWords() + 2;
    var d := Device(s.words, power, true);
    CopiedBackKeeps(l, d, data);
    ErasedCopy(l, CopiedBack(l, d, data), l.Rom1());
    assert data[l.pageWords - 2] == 0 && owed.value[l.pageWords - 2] == 1;
    assert !BootLoads(l, s.words, owed, power);
  }

  /** The storage survives every run exactly when a record fits one page. */
  lemma {:induction false} CrashSafeExactlyOnOnePage(l: Layout)
    requires l.Valid()
    ensures CrashSafe(l) <==> l.RecordWords() + 2 <= l.pageWords
  {
    PagesHold(l);
    if l.Pages() == 1 {
      forall events | AllSized(l, events) ensures LoadsOwed(l, events) {
        OnePageIsUntorn(l, Blanked(l), events);
        UntornLoadsOwed(l, events);
      }
    } else {
      MixingRunLoadsWrong(l);
    }
  }

  // ---------------------------------------------------------------------
  // The rest of the flash
  // ---------------------------------------------------------------------

  lemma {:induction false} WrittenWithin(d: Device, a: nat, data: seq<int>, b: nat)
    requires b <= a && a + |data| <= |d.words|
    ensures SameOn(d.words, Written(d, a, data).words, 0, b)
    decreases |data|
  {
    if data != [] && ProgramWord(d, a, data[0]).1 {
      WrittenWithin(ProgramWord(d, a, data[0]).0, a + 1, data[1..], b);
    }
  }

  lemma {:induction false} ErasedWithin(d: Device, a: nat, n: nat, pw: nat, b: nat)
    requires b <= a && a + Span(n, pw) <= |d.words|
    ensures SameOn(d.words, ErasedFrom(d, a, n, pw).words, 0, b)
    decreases n
  {
    if n > 0 && ErasePage(d, a, pw).alive {
      ErasedWithin(ErasePage(d, a, pw), a + pw, n - 1, pw, b);
    }
  }

  lemma {:induction false} RecordedWithin(l: Layout, d: Device, base: nat, data: seq<int>, b: nat)
    requires b <= base && base + 2 + |data| <= |d.words|
    ensures SameOn(d.words, Recorded(l, d, base, data).words, 0, b)
  {
    var d1 := Written(d, base + 1, [l.RecordBytes()]);
    var d2 := Written(d1, base + 2, data);
    WrittenWithin(d, base + 1, [l.RecordBytes()], b);
    WrittenWithin(d1, base + 2, data, b);
    WrittenWithin(d2, base, [MAGIC], b);
  }

  /** No event touches a word below ROM 2, whatever the flash holds. */
  lemma {:induction false} StepWithinCopies(l: Layout, s: System, e: Event)
    requires Fits(l, s.words) && WellSized(l, e)
    ensures SameOn(s.words, Step(l, s, e).words, 0, l.Rom2())
  {
    var d, p, pw, b := Device(s.words, e.power, true), l.Pages(), l.pageWords, l.Rom2();
    match e
    case Boot(_) =>
      match Loaded(l, s.words, l.Rom1()) {
        case Some(data) => RewriteWithin(l, d, data);
        case None => ErasedWithin(d, l.Rom1(), p, pw, b);
      }
    case Save(data, _) =>
      RecordedWithin(l, d, l.Rom1(), data, b);
      RewriteWithin(l, Recorded(l, d, l.Rom1(), data), data);
    case Clear(_) =>
      ErasedWithin(d, b, p, pw, b);
      ErasedWithin(EraseCopy(l, d, b), l.Rom1(), p, pw, b);
  }

  lemma {:induction false} RewriteWithin(l: Layout, d: Device, data: seq<int>)
    requires Fits(l, d.words) && |data| == l.RecordWords()
    ensures SameOn(d.words, EraseCopy(l, CopiedBack(l, d, data), l.Rom1()).words, 0, l.Rom2())
  {
    var p, pw, b := l.Pages(), l.pageWords, l.Rom2();
    ErasedWithin(d, b, p, pw, b);
    RecordedWithin(l, EraseCopy(l, d, b), b, data, b);
    ErasedWithin(CopiedBack(l, d, data), l.Rom1(), p, pw, b);
  }
}
