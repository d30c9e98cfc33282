/** Writing a buffer to a serial EEPROM page by page. */
module At24 {
  import opened Wrappers
  import opened Multiples

  type byte = bv8

  /** The address counter of the chip wraps at the end of a page. */
  function NextInPage(a: nat, page: nat): nat
    requires page > 0
  {
    if (a + 1) % page == 0 && a + 1 >= page then a + 1 - page else a + 1
  }

  /** What the chip does with one write. */
  function PageWritten(mem: seq<byte>, a: nat, data: seq<byte>, page: nat): (r: seq<byte>)
    requires page > 0 && |mem| % page == 0 && (data != [] ==> a < |mem|)
    ensures |r| == |mem|
    decreases |data|
  {
    if data == [] then mem
    else
      assert a + 1 == |mem| ==> NextInPage(a, page) < |mem| || |mem| < page;
      NextStays(a, |mem|, page);
      PageWritten(mem[a := data[0]], NextInPage(a, page), data[1..], page)
  }

  lemma {:induction false} NextStays(a: nat, size: nat, page: nat)
    requires page > 0 && a < size && size % page == 0
    ensures NextInPage(a, page) < size
  {
    if a + 1 == size && size < page { OnlyRemainder(size, 0, size, page); }
  }

  /** Inside one page a write does what the caller asks for. */
  lemma {:induction false} InsidePage(mem: seq<byte>, a: nat, data: seq<byte>, page: nat)
    requires page > 0 && |mem| % page == 0 && a + |data| <= |mem| && a % page + |data| <= page
    ensures PageWritten(mem, a, data, page) == Put(mem, a, data)
    decreases |data|
  {
    if |data| > 1 {
      RemainderSteps(a, 1, page);
      InsidePage(mem[a := data[0]], a + 1, data[1..], page);
    }
  }

  /** Across a page border it does not: the bytes behind the border land at
      the start of the same page, and the next page is not written. */
  lemma {:induction false} AcrossBorder(mem: seq<byte>, a: nat, data: seq<byte>, page: nat)
    requires page > 0 && |mem| % page == 0 && a + |data| <= |mem|
    requires a % page + |data| == page + 1
    ensures var r := PageWritten(mem, a, data, page);
      && r[a + |data| - 1] == mem[a + |data| - 1]
      && r[a - a % page] == data[|data| - 1]
    decreases |data|
  {
    if |data| > 2 {
      RemainderSteps(a, 1, page);
      AcrossBorder(mem[a := data[0]], a + 1, data[1..], page);
    } else {
      OntoBorder(mem, a, data[0], data[1], page);
      assert data == [data[0], data[1]];
    }
  }

  lemma {:induction false} OntoBorder(mem: seq<byte>, a: nat, x: byte, y: byte, page: nat)
    requires page > 0 && |mem| % page == 0 && a + 2 <= |mem| && a % page + 1 == page
    ensures a + 1 >= page && a - a % page == a + 1 - page
    ensures PageWritten(mem, a, [x, y], page) == mem[a := x][a + 1 - page := y]
  {
    RemainderSteps(a, 1, page);
    if a + 1 < page { OnlyRemainder(a + 1, 0, a + 1, page); }
    var m, b := mem[a := x], a + 1 - page;
    assert NextInPage(a, page) == b && [x, y][1..] == [y];
    assert PageWritten(m, b, [y], page) == m[b := y];
  }

  lemma {:induction false} PutTwice(mem: seq<byte>, a: nat, x: seq<byte>, y: seq<byte>)
    requires a + |x| + |y| <= |mem|
    ensures Put(Put(mem, a, x), a + |x|, y) == Put(mem, a, x + y)
  {}

  datatype PageWrite = PageWrite(addr: nat, data: seq<byte>)

  predicate InRange(writes: seq<PageWrite>, size: nat) {
    forall i :: 0 <= i < |writes| ==> writes[i].addr + |writes[i].data| <= size
  }

  /** The memory after some writes, each of them wrapping in its page. */
  function WritesDone(mem: seq<byte>, writes: seq<PageWrite>, page: nat): (r: seq<byte>)
    requires page > 0 && |mem| % page == 0 && InRange(writes, |mem|)
    ensures |r| == |mem|
  {
    if writes == [] then mem
    else
      var n := |writes| - 1;
      PageWritten(WritesDone(mem, writes[..n], page), writes[n].addr, writes[n].data, page)
  }

  // ---------------------------------------------------------------------
  // Splitting at page borders
  // ---------------------------------------------------------------------

  /** As much as there is, up to the end of the page. */
  function Chunk(a: nat, len: nat, page: nat): (n: nat)
    requires page > 0
    ensures n <= len && a % page + n <= page && (len > 0 ==> n > 0)
    ensures n < len ==> a % page + n == page
  {
    var room := page - a % page;
    if len <= room then len else room
  }

  /** The data cut at every page border. */
  function Split(a: nat, data: seq<byte>, page: nat): seq<PageWrite>
    requires page > 0
    decreases |data|
  {
    if data == [] then []
    else
      var n := Chunk(a, |data|, page);
      [PageWrite(a, data[..n])] + Split(a + n, data[n..], page)
  }

  /** The writes for a buffer; for an empty one there is one write of nothing. */
  function Writes(a: nat, buffer: seq<byte>, page: nat): seq<PageWrite>
    requires page > 0
  {
    if buffer == [] then [PageWrite(a, [])] else Split(a, buffer, page)
  }

  lemma {:induction false} WritesDoneTogether(mem: seq<byte>, x: seq<PageWrite>, y: seq<PageWrite>, page: nat)
    requires page > 0 && |mem| % page == 0 && InRange(x, |mem|) && InRange(y, |mem|)
    ensures InRange(x + y, |mem|) && WritesDone(mem, x + y, page) == WritesDone(WritesDone(mem, x, page), y, page)
    decreases |y|
  {
    if y == [] {
      assert x + y == x;
    } else {
      var n := |y| - 1;
      assert (x + y)[..|x| + n] == x + y[..n];
      WritesDoneTogether(mem, x, y[..n], page);
    }
  }

  lemma {:induction false} OneWriteDone(mem: seq<byte>, w: PageWrite, page: nat)
    requires page > 0 && |mem| % page == 0 && w.addr + |w.data| <= |mem|
    ensures WritesDone(mem, [w], page) == PageWritten(mem, w.addr, w.data, page)
  {
    assert [w][..0] == [] && WritesDone(mem, [], page) == mem;
  }

  lemma {:induction false} SplitInRange(a: nat, data: seq<byte>, page: nat, size: nat)
    requires page > 0 && a + |data| <= size
    ensures InRange(Split(a, data, page), size)
    decreases |data|
  {
    if data != [] {
      var n := Chunk(a, |data|, page);
      SplitInRange(a + n, data[n..], page, size);
    }
  }

  /** The writes do to a chip that wraps in its pages what the caller asks for. */
  lemma {:induction false} SplitIsPut(mem: seq<byte>, a: nat, data: seq<byte>, page: nat)
    requires page > 0 && |mem| % page == 0 && a + |data| <= |mem|
    ensures InRange(Split(a, data, page), |mem|) && WritesDone(mem, Split(a, data, page), page) == Put(mem, a, data)
    decreases |data|
  {
    if data == [] {
      assert Put(mem, a, data) == mem;
    } else {
      var n := Chunk(a, |data|, page);
      var w := PageWrite(a, data[..n]);
      InsidePage(mem, a, data[..n], page);
      SplitIsPut(Put(mem, a, data[..n]), a + n, data[n..], page);
      FirstWriteDone(mem, w, Split(a + n, data[n..], page), page);
      PutRest(mem, a, data, n);
    }
  }

  lemma {:induction false} FirstWriteDone(mem: seq<byte>, w: PageWrite, rest: seq<PageWrite>, page: nat)
    requires page > 0 && |mem| % page == 0 && w.addr + |w.data| <= |mem| && InRange(rest, |mem|)
    ensures InRange([w] + rest, |mem|)
    ensures WritesDone(mem, [w] + rest, page) == WritesDone(PageWritten(mem, w.addr, w.data, page), rest, page)
  {
    OneWriteDone(mem, w, page);
    WritesDoneTogether(mem, [w], rest, page);
  }

  lemma {:induction false} PutMore(mem: seq<byte>, a: nat, data: seq<byte>, j: nat, k: nat)
    requires j <= k <= |data| && a + k <= |mem|
    ensures Put(Put(mem, a, data[..j]), a + j, data[j..k]) == Put(mem, a, data[..k])
  {
    assert data[..j] + data[j..k] == data[..k];
    PutTwice(mem, a, data[..j], data[j..k]);
  }

  lemma {:induction false} PutRest(mem: seq<byte>, a: nat, data: seq<byte>, j: nat)
    requires j <= |data| && a + |data| <= |mem|
    ensures Put(Put(mem, a, data[..j]), a + j, data[j..]) == Put(mem, a, data)
  {
    assert data[..j] + data[j..] == data;
    PutTwice(mem, a, data[..j], data[j..]);
  }

  /** The next write for the bytes from the `k`-th on, and the writes for the rest. */
  lemma {:induction false} SplitStep(a: nat, buffer: seq<byte>, k: nat, page: nat)
    requires page > 0 && k < |buffer|
    ensures var n := Chunk(a, |buffer| - k, page);
      Split(a, buffer[k..], page) == [PageWrite(a, buffer[k..k + n])] + Split(a + n, buffer[k + n..], page)
  {
    var n := Chunk(a, |buffer| - k, page);
    assert buffer[k..][..n] == buffer[k..k + n] && buffer[k..][n..] == buffer[k + n..];
  }

  lemma {:induction false} WritesArePut(mem: seq<byte>, a: nat, buffer: seq<byte>, page: nat)
    requires page > 0 && |mem| % page == 0 && a + |buffer| <= |mem|
    ensures InRange(Writes(a, buffer, page), |mem|) && WritesDone(mem, Writes(a, buffer, page), page) == Put(mem, a, buffer)
  {
    if buffer == [] {
      OneWriteDone(mem, PageWrite(a, []), page);
      assert Put(mem, a, buffer) == mem;
    } else {
      SplitIsPut(mem, a, buffer, page);
    }
  }

  /** No write crosses a page border. */
  lemma {:induction false} SplitInside(a: nat, data: seq<byte>, page: nat)
    requires page > 0
    ensures AllInside(Split(a, data, page), page)
    decreases |data|
  {
    if data != [] {
      var n := Chunk(a, |data|, page);
      SplitInside(a + n, data[n..], page);
    }
  }

  /** Each write stays inside the page it starts in. */
  ghost predicate AllInside(writes: seq<PageWrite>, page: nat)
    requires page > 0
  {
    forall i :: 0 <= i < |writes| ==> writes[i].addr % page + |writes[i].data| <= page
  }

  /** The first `k` bytes of the buffer are in place, and the writes so far
      with those for the rest come to `goal`. */
  ghost predicate Doing(mem: seq<byte>, writes: seq<PageWrite>, was: seq<byte>, start: nat, buffer: seq<byte>, k: nat,
                        goal: seq<PageWrite>, page: nat)
    requires page > 0
  {
    k <= |buffer| && start + |buffer| <= |was| &&
    mem == Put(was, start, buffer[..k]) && writes + Split(start + k, buffer[k..], page) == goal
  }

  lemma {:induction false} Advances(mem: seq<byte>, writes: seq<PageWrite>, was: seq<byte>, start: nat, buffer: seq<byte>, k: nat, n: nat,
                                    goal: seq<PageWrite>, page: nat)
    requires page > 0 && Doing(mem, writes, was, start, buffer, k, goal, page) && k < |buffer|
    requires n == Chunk(start + k, |buffer| - k, page)
    ensures Doing(Put(mem, start + k, buffer[k..k + n]), writes + [PageWrite(start + k, buffer[k..k + n])],
                  was, start, buffer, k + n, goal, page)
  {
    PutMore(was, start, buffer, k, k + n);
    SplitStep(start + k, buffer, k, page);
    Appends(writes, PageWrite(start + k, buffer[k..k + n]), Split(start + k + n, buffer[k + n..], page));
  }

  // ---------------------------------------------------------------------
  // The driver
  // ---------------------------------------------------------------------

  /** The chip behind the bus; `writes` records the writes on the bus. */
  class Eeprom {
    var mem: seq<byte>
    const pageSize: nat
    ghost var writes: seq<PageWrite>

    ghost predicate Valid()
      reads this
    {
      pageSize > 0 && |mem| % pageSize == 0
    }

    constructor (mem: seq<byte>, pageSize: nat)
      requires pageSize > 0 && |mem| % pageSize == 0
      ensures Valid() && this.mem == mem && this.pageSize == pageSize && writes == []
    {
      this.mem, this.pageSize, this.writes := mem, pageSize, [];
    }

    /** wbuf, and the wait for the chip to become ready. */
    method WriteOnBus(addr: nat, data: seq<byte>)
      requires Valid() && addr + |data| <= |mem|
      modifies this
      ensures Valid() && mem == PageWritten(old(mem), addr, data, pageSize)
      ensures writes == old(writes) + [PageWrite(addr, data)]
    {
      ghost var goal := PageWritten(mem, addr, data, pageSize);
      var a, k := addr, 0;
      assert data[0..] == data;
      while k < |data|
        invariant 0 <= k <= |data| && Valid() && |mem| == old(|mem|) && writes == old(writes)
        invariant k < |data| ==> 0 <= a < |mem|
        invariant a >= 0 && PageWritten(mem, a, data[k..], pageSize) == goal
      {
        NextStays(a, |mem|, pageSize);
        assert data[k..][1..] == data[k + 1..];
        mem := mem[a := data[k]];
        a := if (a + 1) % pageSize == 0 && a + 1 >= pageSize then a + 1 - pageSize else a + 1;
        k := k + 1;
      }
      writes := writes + [PageWrite(addr, data)];
    }

    ghost predicate Progress(was: seq<byte>, start: nat, buffer: seq<byte>, k: nat, goal: seq<PageWrite>)
      reads this
    {
      Valid() && Doing(mem, writes, was, start, buffer, k, goal, pageSize)
    }

    /** One write, and the wait. */
    method WriteSome(addr: nat, buffer: seq<byte>, k: nat, n: nat, ghost was: seq<byte>, ghost start: nat, ghost goal: seq<PageWrite>)
      requires Progress(was, start, buffer, k, goal) && k < |buffer| && addr == start + k
      requires n == Chunk(addr, |buffer| - k, pageSize)
      modifies this
      ensures Progress(was, start, buffer, k + n, goal)
    {
      Advances(mem, writes, was, start, buffer, k, n, goal, pageSize);
      WriteInside(addr, buffer[k..k + n]);
    }

    method WriteInside(addr: nat, data: seq<byte>)
      requires Valid() && addr + |data| <= |mem| && addr % pageSize + |data| <= pageSize
      modifies this
      ensures Valid() && mem == Put(old(mem), addr, data) && writes == old(writes) + [PageWrite(addr, data)]
    {
      InsidePage(mem, addr, data, pageSize);
      WriteOnBus(addr, data);
    }

    /** The loop over whole pages, and the rest of the buffer after it. */
    method WritePages(first: nat, buffer: seq<byte>, from: nat, ghost was: seq<byte>, ghost start: nat, ghost goal: seq<PageWrite>)
      requires Progress(was, start, buffer, from, goal) && first == start + from && first % pageSize == 0
      modifies this
      ensures Progress(was, start, buffer, |buffer|, goal)
    {
      var numOfPage: nat, numOfSingle: nat := (|buffer| - from) / pageSize, (|buffer| - from) % pageSize;
      SpanIsProduct(numOfPage, pageSize);
      var addr, k := first, from;
      while numOfPage > 0
        invariant k >= 0 && k + Span(numOfPage, pageSize) + numOfSingle == |buffer|
        invariant 0 <= numOfSingle < pageSize && addr == start + k && addr % pageSize == 0
        invariant Progress(was, start, buffer, k, goal)
      {
        numOfPage := numOfPage - 1;
        WriteSome(addr, buffer, k, pageSize, was, start, goal);
        RemainderSteps(addr, pageSize, pageSize);
        addr := addr + pageSize;
        k := k + pageSize;
      }
      if numOfSingle != 0 {
        WriteSome(addr, buffer, k, numOfSingle, was, start, goal);
      }
    }

    /** at24cxx_WriteBuffer. The memory ends up as if there were no pages, by
        exactly the writes that cut the buffer at page borders. */
    method WriteBuffer(addr: nat, buffer: seq<byte>)
      requires Valid() && addr + |buffer| <= |mem|
      modifies this
      ensures Valid() && mem == Put(old(mem), addr, buffer)
      ensures writes == old(writes) + Writes(addr, buffer, pageSize)
    {
      if buffer == [] {
        WriteNothing(addr);
        return;
      }
      ghost var was, goal := mem, writes + Split(addr, buffer, pageSize);
      Starts(was, addr, buffer);
      WriteParts(addr, buffer, was, goal);
      assert buffer[..|buffer|] == buffer && buffer[|buffer|..] == [];
      assert writes + [] == writes;
    }

    lemma {:induction false} Starts(was: seq<byte>, addr: nat, buffer: seq<byte>)
      requires addr + |buffer| <= |was|
      ensures buffer[0..] == buffer && Put(was, addr, buffer[..0]) == was
    {}

    /** The branches of WriteBuffer. */
    method WriteParts(addr: nat, buffer: seq<byte>, ghost was: seq<byte>, ghost goal: seq<PageWrite>)
      requires Progress(was, addr, buffer, 0, goal) && buffer != []
      modifies this
      ensures Progress(was, addr, buffer, |buffer|, goal)
    {
      var regAddr := addr % pageSize;
      var count := pageSize - regAddr;
      var numOfPage, numOfSingle := |buffer| / pageSize, |buffer| % pageSize;
      if regAddr == 0 {
        if numOfPage == 0 {
          AllInOne(addr, |buffer|, pageSize);
          WriteSome(addr, buffer, 0, numOfSingle, was, addr, goal);
        } else {
          WritePages(addr, buffer, 0, was, addr, goal);
        }
      } else {
        WriteOffBorder(addr, buffer, count, numOfPage, was, goal);
      }
    }

    /** The same branches for an empty buffer: one write of nothing. */
    method WriteNothing(addr: nat)
      requires Valid() && addr <= |mem|
      modifies this
      ensures Valid() && mem == old(mem) && writes == old(writes) + [PageWrite(addr, [])]
    {
      var regAddr := addr % pageSize;
      var count := pageSize - regAddr;
      if regAddr == 0 || 0 <= count {
        WriteOnBus(addr, []);
      }
    }

    /** The branch for an address inside a page, `count` bytes before its end. */
    method WriteOffBorder(addr: nat, buffer: seq<byte>, count: nat, numOfPage: nat, ghost was: seq<byte>, ghost goal: seq<PageWrite>)
      requires Progress(was, addr, buffer, 0, goal) && buffer != []
      requires addr % pageSize != 0 && count == pageSize - addr % pageSize && numOfPage == |buffer| / pageSize
      modifies this
      ensures Progress(was, addr, buffer, |buffer|, goal)
    {
      var len := |buffer|;
      if numOfPage == 0 {
        if len > count {
          WriteSome(addr, buffer, 0, count, was, addr, goal);
          RemainderSteps(addr, count, pageSize);
          WriteSome(addr + count, buffer, count, len - count, was, addr, goal);
        } else {
          WriteSome(addr, buffer, 0, len, was, addr, goal);
        }
      } else {
        ProductAtLeast(numOfPage, pageSize);
        if count != 0 {
          WriteSome(addr, buffer, 0, count, was, addr, goal);
          RemainderSteps(addr, count, pageSize);
        }
        WritePages(addr + count, buffer, count, was, addr, goal);
      }
    }
  }

  lemma {:induction false} AllInOne(a: nat, len: nat, page: nat)
    requires page > 0 && a % page == 0 && len / page == 0
    ensures len % page == len && Chunk(a, len, page) == len
  {}

  lemma {:induction false} Appends(x: seq<PageWrite>, w: PageWrite, y: seq<PageWrite>)
    ensures x + ([w] + y) == (x + [w]) + y
  {}
}
