/** The two flash copies of the non-volatile data: what nvm_init, nvm_save and
    nvm_clear do to the flash, and what survives a loss of power. */
module NvmStore {
  import opened Wrappers
  import opened FlashSteps
  import opened Multiples

  const MAGIC := 0x13572468

  /** The least multiple of `pageSize` that is not below `value`. */
  function Align(value: nat, pageSize: nat): (r: nat)
    requires pageSize > 0
    ensures value <= r < value + pageSize && r % pageSize == 0
  {
    var left := value % pageSize;
    assert (value / pageSize) * pageSize + left == value;
    if left != 0 then
      MultipleOf(value / pageSize + 1, pageSize);
      assert value + pageSize - left == (value / pageSize + 1) * pageSize;
      value + pageSize - left
    else value
  }

  /** Page size in words, pages of flash, bytes of the `.nvm.ram` section. */
  datatype Layout = Layout(pageWords: nat, pageCount: nat, ramBytes: nat) {
    /** The record in bytes and in words, and the pages it takes. */
    function RecordBytes(): nat { Align(ramBytes, 4) }
    function RecordWords(): nat { RecordBytes() / 4 }
    function Pages(): nat requires pageWords > 0 { Align(RecordBytes() + 8, 4 * pageWords) / (4 * pageWords) }
    /** Pages of two words or more (the header fits one), room for both copies, some data. */
    predicate Valid() { pageWords >= 2 && ramBytes > 0 && 2 * Pages() <= pageCount }
    /** The words of one copy: a record fits. */
    function Room(): (r: nat)
      requires Valid()
      ensures RecordWords() + 2 <= r
    {
      PagesHold(this);
      Span(Pages(), pageWords)
    }
    function Size(): nat requires pageWords > 0 { Span(pageCount, pageWords) }
    /** The first copy ends the flash, the second one ends where the first one
        starts, and both start on a page border. */
    function Rom1(): (r: nat)
      requires Valid()
      ensures r + Room() == Size() && r % pageWords == 0
    {
      SpanAdds(pageCount - Pages(), Pages(), pageWords);
      SpanOnBorder(pageCount - Pages(), pageWords);
      Span(pageCount - Pages(), pageWords)
    }
    function Rom2(): (r: nat)
      requires Valid()
      ensures r + Room() == Rom1() && r % pageWords == 0
    {
      SpanAdds(pageCount - Pages() - Pages(), Pages(), pageWords);
      SpanOnBorder(pageCount - Pages() - Pages(), pageWords);
      Span(pageCount - Pages() - Pages(), pageWords)
    }
  }

  lemma {:induction false} SpanAdds(m: nat, n: nat, pw: nat)
    ensures Span(m + n, pw) == Span(m, pw) + Span(n, pw)
    decreases n
  {
    if n > 0 { SpanAdds(m, n - 1, pw); }
  }

  lemma {:induction false} SpanOnBorder(n: nat, pw: nat)
    requires pw > 0
    ensures Span(n, pw) % pw == 0
  {
    SpanIsProduct(n, pw);
    MultipleOf(n, pw);
  }

  lemma {:induction false} PagesHold(l: Layout)
    requires l.pageWords > 0 && l.ramBytes > 0
    ensures l.RecordBytes() == 4 * l.RecordWords() && l.RecordWords() >= 1
    ensures l.RecordWords() + 2 <= Span(l.Pages(), l.pageWords)
    ensures l.Pages() >= 1 && (l.Pages() == 1 <==> l.RecordWords() + 2 <= l.pageWords)
  {
    var p, pw, b := l.Pages(), l.pageWords, l.RecordBytes() + 8;
    var a := Align(b, 4 * pw);
    assert a == p * (4 * pw);
    SpanIsProduct(p, pw);
    assert p * (4 * pw) == 4 * (p * pw);
    if p >= 2 { assert p * pw >= 2 * pw; }
  }


  // ---------------------------------------------------------------------
  // The operations
  // ---------------------------------------------------------------------

  /** The three writes of a record: size, data, and last the magic word. */
  function Recorded(l: Layout, d: Device, base: nat, data: seq<int>): (r: Device)
    requires base + 2 + |data| <= |d.words|
    ensures |r.words| == |d.words|
  {
    Written(Written(Written(d, base + 1, [l.RecordBytes()]), base + 2, data), base, [MAGIC])
  }

  /** `words` are a flash of this layout. */
  predicate Fits(l: Layout, words: seq<int>) { l.Valid() && |words| == l.Size() }

  function EraseCopy(l: Layout, d: Device, base: nat): (r: Device)
    requires l.Valid() && base + l.Room() <= |d.words|
    ensures |r.words| == |d.words|
  {
    Erased(d, base, l.Pages(), l.pageWords)
  }

  /** What the copy at `base` holds, when its header is good. */
  function Loaded(l: Layout, words: seq<int>, base: nat): (r: Option<seq<int>>)
    requires base + 2 + l.RecordWords() <= |words|
    ensures r.Some? ==> |r.value| == l.RecordWords()
  {
    if words[base] == MAGIC && words[base + 1] == l.RecordBytes()
    then Some(words[base + 2..base + 2 + l.RecordWords()]) else None
  }

  /** nvm_save up to the last erase. */
  function SavedTwice(l: Layout, d: Device, data: seq<int>): (r: Device)
    requires Fits(l, d.words) && |data| == l.RecordWords()
    ensures |r.words| == |d.words|
  {
    Recorded(l, EraseCopy(l, Recorded(l, d, l.Rom1(), data), l.Rom2()), l.Rom2(), data)
  }

  function Saved(l: Layout, d: Device, data: seq<int>): (r: Device)
    requires Fits(l, d.words) && |data| == l.RecordWords()
    ensures |r.words| == |d.words|
  {
    EraseCopy(l, SavedTwice(l, d, data), l.Rom1())
  }

  /** nvm_init on a good ROM 1, up to the erase of ROM 1. */
  function CopiedBack(l: Layout, d: Device, data: seq<int>): (r: Device)
    requires Fits(l, d.words) && |data| == l.RecordWords()
    ensures |r.words| == |d.words|
  {
    Recorded(l, EraseCopy(l, d, l.Rom2()), l.Rom2(), data)
  }

  /** nvm_init: the flash it leaves and the data it puts into RAM. */
  function Initialised(l: Layout, d: Device): (r: (Device, Option<seq<int>>))
    requires Fits(l, d.words)
    ensures |r.0.words| == |d.words|
  {
    match Loaded(l, d.words, l.Rom1())
    case Some(data) => (EraseCopy(l, CopiedBack(l, d, data), l.Rom1()), Some(data))
    case None =>
      var e := if d.words[l.Rom1() + 1] != BLANK then EraseCopy(l, d, l.Rom1()) else d;
      (e, Loaded(l, e.words, l.Rom2()))
  }

  function Cleared(l: Layout, d: Device): (r: Device)
    requires Fits(l, d.words)
    ensures |r.words| == |d.words|
  {
    EraseCopy(l, EraseCopy(l, d, l.Rom2()), l.Rom1())
  }

  // ---------------------------------------------------------------------
  // Runs
  // ---------------------------------------------------------------------

  /** Each event brings the number of flash steps the supply lasts for from then on. */
  datatype Event = Boot(power: nat) | Save(data: seq<int>, power: nat) | Clear(power: nat)

  /** `running`: nvm_init has completed and the supply has not failed since. */
  datatype System = System(words: seq<int>, running: bool)

  predicate WellSized(l: Layout, e: Event) { e.Save? ==> |e.data| == l.RecordWords() }

  function Step(l: Layout, s: System, e: Event): (r: System)
    requires Fits(l, s.words) && WellSized(l, e)
    ensures |r.words| == |s.words|
  {
    var d := Device(s.words, e.power, true);
    match e
    case Boot(_) => var r := Initialised(l, d).0; System(r.words, r.alive)
    case Save(data, _) => if !s.running then s else var r := Saved(l, d, data); System(r.words, r.alive)
    case Clear(_) => if !s.running then s else var r := Cleared(l, d); System(r.words, r.alive)
  }

  /** The data a later boot owes: those of the last save that programmed the
      magic word of ROM 1, unless a clear has begun after it. */
  function Owed(l: Layout, s: System, e: Event, owed: Option<seq<int>>): Option<seq<int>>
    requires Fits(l, s.words) && WellSized(l, e)
  {
    var d := Device(s.words, e.power, true);
    match e
    case Boot(_) => owed
    case Save(data, _) =>
      if s.running && Recorded(l, d, l.Rom1(), data).words[l.Rom1()] == MAGIC then Some(data) else owed
    case Clear(power) => if s.running && power > 0 then None else owed
  }

  /** The erase of ROM 1 is cut between two of its pages. */
  predicate Torn(l: Layout, s: System, e: Event)
    requires Fits(l, s.words) && WellSized(l, e)
  {
    var d := Device(s.words, e.power, true);
    match e
    case Boot(_) =>
      var rom1 := Loaded(l, s.words, l.Rom1());
      var before := if rom1.Some? then CopiedBack(l, d, rom1.value) else d;
      (rom1.Some? || s.words[l.Rom1() + 1] != BLANK) && before.alive && 0 < before.power < l.Pages()
    case Save(data, _) => s.running && SavedTwice(l, d, data).alive && 0 < SavedTwice(l, d, data).power < l.Pages()
    case Clear(_) => false
  }
}
