/** The flash driver and the storage of non-volatile data, as the code runs
    them: loops over pages and words, and state kept in the chip. */
module NvmDriver {
  import opened Wrappers
  import opened FlashSteps
  import opened Multiples
  import opened NvmStore

  class Flash {
    const words: array<int>
    const pageWords: nat
    /** The steps the supply lasts for; the environment sets it. */
    var power: nat
    var alive: bool

    constructor (words: array<int>, pageWords: nat, power: nat)
      ensures this.words == words && this.pageWords == pageWords
      ensures State() == Device(words[..], power, true)
    {
      this.words, this.pageWords, this.power, this.alive := words, pageWords, power, true;
    }

    ghost function State(): (d: Device)
      reads this, words
      ensures |d.words| == words.Length
    {
      Device(words[..], power, alive)
    }

    method EraseOnePage(a: nat) returns (complete: bool)
      requires a + pageWords <= words.Length
      modifies this, words
      ensures State() == ErasePage(old(State()), a, pageWords) && complete == alive
    {
      if alive && power == 0 { alive := false; }
      if !alive { return false; }
      power := power - 1;
      forall i | a <= i < a + pageWords { words[i] := BLANK; }
      assert words[..] == Put(old(words[..]), a, Blank(pageWords));
      return true;
    }

    method ProgramOneWord(a: nat, w: int) returns (complete: bool)
      requires a < words.Length
      modifies this, words
      ensures (State(), complete) == ProgramWord(old(State()), a, w)
    {
      if alive && power == 0 { alive := false; }
      if !alive { return false; }
      power := power - 1;
      complete := words[a] == BLANK;
      if complete { words[a] := w; }
    }

    /** flash_Erase */
    method Erase(dest: nat, n: nat) returns (i: nat)
      requires pageWords > 0 && dest + Span(n, pageWords) <= words.Length
      modifies this, words
      ensures State() == Erased(old(State()), dest, n, pageWords)
      ensures i <= n && (alive && dest % pageWords == 0 ==> i == n)
    {
      i := 0;
      if dest % pageWords != 0 { return; }
      var idest: nat := dest;
      ghost var goal := Erased(State(), dest, n, pageWords);
      while i < n
        invariant i <= n && idest + Span(n - i, pageWords) <= words.Length
        invariant ErasedFrom(State(), idest, n - i, pageWords) == goal
      {
        var complete := EraseOnePage(idest);
        if !complete { break; }
        idest := idest + pageWords;
        i := i + 1;
      }
    }

    /** flash_Write; the result counts bytes. */
    method Write(pdest: nat, src: seq<int>) returns (i: nat)
      requires pdest + |src| <= words.Length
      modifies this, words
      ensures State() == Written(old(State()), pdest, src)
    {
      var dest: nat, k: nat := pdest, 0;
      i := 0;
      ghost var goal := Written(State(), pdest, src);
      while i < 4 * |src|
        invariant k <= |src| && dest == pdest + k && i == 4 * k
        invariant Written(State(), dest, src[k..]) == goal
        decreases |src| - k
      {
        var complete := ProgramOneWord(dest, src[k]);
        if !complete { break; }
        i := i + 4;
        dest := dest + 1;
        assert src[k..][1..] == src[k + 1..];
        k := k + 1;
      }
    }

    /** flash_Read */
    method Read(src: nat, n: nat) returns (data: seq<int>)
      requires src + n <= words.Length
      ensures data == State().words[src..src + n]
    {
      data := words[src..src + n];
    }
  }

  /** The `.nvm.ram` section, the chip below it and `nvm_flag_null`. */
  class Nvm {
    const flash: Flash
    const ram: array<int>
    const layout: Layout
    var flagNull: bool

    /** With an empty section the calls do not touch the flash at all. */
    ghost predicate Valid()
      reads this, flash
    {
      layout.ramBytes != 0 ==>
        layout.Valid() && flash.pageWords == layout.pageWords && flash.words.Length == layout.Size() &&
        ram.Length == layout.RecordWords() && ram != flash.words
    }

    constructor (flash: Flash, ram: array<int>, layout: Layout)
      requires layout.ramBytes != 0 ==>
        layout.Valid() && flash.pageWords == layout.pageWords && flash.words.Length == layout.Size() &&
        ram.Length == layout.RecordWords() && ram != flash.words
      ensures Valid() && this.flash == flash && this.ram == ram && this.layout == layout
    {
      this.flash, this.ram, this.layout := flash, ram, layout;
    }

    /** The three writes of a record. */
    method WriteRecord(base: nat, size: int, data: seq<int>, magic: int)
      requires Valid() && layout.ramBytes != 0 && base + 2 + |data| <= flash.words.Length
      requires size == layout.RecordBytes() && magic == MAGIC
      modifies flash, flash.words
      ensures flash.State() == Recorded(layout, old(flash.State()), base, data)
    {
      var _ := flash.Write(base + 1, [size]);
      var _ := flash.Write(base + 2, data);
      var _ := flash.Write(base, [magic]);
    }

    /** nvm_init. A boot is complete when the chip is still alive at the end. */
    method Init() returns (r: int)
      requires Valid()
      modifies this`flagNull, ram, flash, flash.words
      ensures Valid()
      ensures layout.ramBytes == 0 ==>
        r == 0 && !flagNull && ram[..] == old(ram[..]) && flash.State() == old(flash.State())
      ensures layout.ramBytes != 0 ==> var (d, data) := Initialised(layout, old(flash.State()));
        && flash.State() == d
        && (if data.Some? then r == 0 && !flagNull && ram[..] == data.value
            else r == -1 && flagNull && ram[..] == old(ram[..]))
    {
      if layout.ramBytes == 0 {
        flagNull := false;
        return 0;
      }
      var szRam := layout.RecordBytes();
      var pages := layout.Pages();
      var src: nat, bak: nat := layout.Rom1(), layout.Rom2();
      ghost var was := flash.State();
      var header := flash.Read(src, 2);
      var magic, szNvm := header[0], header[1];
      assert magic == was.words[src] && szNvm == was.words[src + 1];
      if magic == MAGIC && szNvm == szRam {
        TakeFirst(src, bak, pages, magic, szNvm);
        assert Loaded(layout, was.words, src) == Some(ram[..]);
        return 0;
      }
      assert Loaded(layout, was.words, src) == None;
      if szNvm != BLANK {
        var _ := flash.Erase(src, pages);
      }
      ghost var erased := if szNvm != BLANK then EraseCopy(layout, was, src) else was;
      assert flash.State() == erased && Initialised(layout, was) == (erased, Loaded(layout, erased.words, bak));
      r := TakeSecond(bak, szRam);
    }

    /** ROM 1 is good: rom 1 -> ram -> rom 2, and ROM 1 is erased. */
    method TakeFirst(src: nat, bak: nat, pages: nat, magic: int, szNvm: int)
      requires Valid() && layout.ramBytes != 0 && pages == layout.Pages() && src == layout.Rom1() && bak == layout.Rom2()
      requires magic == MAGIC && szNvm == layout.RecordBytes()
      modifies this`flagNull, ram, flash, flash.words
      ensures Valid() && !flagNull
      ensures ram[..] == old(flash.State()).words[src + 2..src + 2 + layout.RecordWords()]
      ensures flash.State() == EraseCopy(layout, CopiedBack(layout, old(flash.State()), ram[..]), src)
    {
      CopyToRam(src + 2);
      var _ := flash.Erase(bak, pages);
      WriteRecord(bak, szNvm, ram[..], magic);
      var _ := flash.Erase(src, pages);
      flagNull := false;
    }

    /** ROM 2 -> ram, if it is good. */
    method TakeSecond(src: nat, szRam: int) returns (r: int)
      requires Valid() && layout.ramBytes != 0 && src == layout.Rom2() && szRam == layout.RecordBytes()
      modifies this`flagNull, ram
      ensures Valid()
      ensures var data := Loaded(layout, flash.State().words, src);
        if data.Some? then r == 0 && !flagNull && ram[..] == data.value
        else r == -1 && flagNull && ram[..] == old(ram[..])
    {
      var header := flash.Read(src, 2);
      var magic, szNvm := header[0], header[1];
      if magic == MAGIC && szNvm == szRam {
        CopyToRam(src + 2);
        flagNull := false;
        return 0;
      }
      flagNull := true;
      return -1;
    }

    method CopyToRam(from: nat)
      requires Valid() && layout.ramBytes != 0 && from + layout.RecordWords() <= flash.words.Length
      modifies ram
      ensures ram[..] == flash.State().words[from..from + layout.RecordWords()]
    {
      forall i | 0 <= i < ram.Length { ram[i] := flash.words[from + i]; }
    }

    /** nvm_save */
    method Save() returns (r: int)
      requires Valid()
      modifies flash, flash.words
      ensures Valid() && r == 0
      ensures flash.State() == if layout.ramBytes == 0 then old(flash.State())
                               else Saved(layout, old(flash.State()), ram[..])
    {
      r := 0;
      if layout.ramBytes == 0 { return; }
      var szRam := layout.RecordBytes();
      var pages := layout.Pages();
      var dest: nat, bak: nat := layout.Rom1(), layout.Rom2();
      WriteRecord(dest, szRam, ram[..], MAGIC);
      var _ := flash.Erase(bak, pages);
      WriteRecord(bak, szRam, ram[..], MAGIC);
      var _ := flash.Erase(dest, pages);
    }

    /** nvm_clear */
    method Clear() returns (r: int)
      requires Valid()
      modifies flash, flash.words
      ensures Valid() && r == 0
      ensures flash.State() == if layout.ramBytes == 0 then old(flash.State()) else Cleared(layout, old(flash.State()))
    {
      r := 0;
      if layout.ramBytes == 0 { return; }
      var pages := layout.Pages();
      var _ := flash.Erase(layout.Rom2(), pages);
      var _ := flash.Erase(layout.Rom1(), pages);
    }
  }
}
