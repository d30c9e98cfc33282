/** Rotated drawing: a rectangle of the virtual screen is put into a buffer in
    the order in which the device fills its window. */
module Lcd {
  import opened Multiples

  datatype Point = Point(x: int, y: int)

  /** Where a point of a `w` by `h` area goes when the area is turned. */
  function Turned(angle: int, x: int, y: int, w: int, h: int): Point {
    if angle == 90 then Point(y, w - x - 1)
    else if angle == 180 then Point(w - x - 1, h - y - 1)
    else if angle == 270 then Point(h - y - 1, x)
    else Point(x, y)
  }

  /** The width and the height of the turned area. */
  function TurnedWidth(angle: int, w: int, h: int): int { if angle == 90 || angle == 270 then h else w }
  function TurnedHeight(angle: int, w: int, h: int): int { if angle == 90 || angle == 270 then w else h }

  /** Two quarter turns make a half turn, three make the turn by 270 degrees,
      four make none; and one takes the top left corner to the bottom left. */
  lemma {:induction false} QuarterTurns(x: int, y: int, w: int, h: int)
    ensures var p := Turned(90, x, y, w, h); var q := Turned(90, p.x, p.y, h, w); var r := Turned(90, q.x, q.y, w, h);
      && q == Turned(180, x, y, w, h) && r == Turned(270, x, y, w, h)
      && Turned(90, r.x, r.y, h, w) == Point(x, y) && Turned(90, 0, 0, w, h) == Point(0, w - 1)
  {}

  /** The third result of __lcd_transform: the place in a row by row scan of the turned area. */
  function Place(angle: int, x: int, y: int, w: int, h: int): int {
    var p := Turned(angle, x, y, w, h);
    p.y * TurnedWidth(angle, w, h) + p.x
  }

  predicate Inside(x: int, y: int, w: int, h: int) { 0 <= x < w && 0 <= y < h }

  lemma {:induction false} TurnedInside(angle: int, x: int, y: int, w: int, h: int)
    requires Inside(x, y, w, h)
    ensures var p := Turned(angle, x, y, w, h); Inside(p.x, p.y, TurnedWidth(angle, w, h), TurnedHeight(angle, w, h))
  {}

  /** The point that a turned point comes from. */
  function Back(angle: int, a: int, b: int, w: int, h: int): Point {
    if angle == 90 then Point(w - b - 1, a)
    else if angle == 180 then Point(w - a - 1, h - b - 1)
    else if angle == 270 then Point(b, h - a - 1)
    else Point(a, b)
  }

  /** Turning is one to one and onto. */
  lemma {:induction false} TurnsBack(angle: int, a: int, b: int, w: int, h: int)
    requires Inside(a, b, TurnedWidth(angle, w, h), TurnedHeight(angle, w, h))
    ensures var p := Back(angle, a, b, w, h);
      Inside(p.x, p.y, w, h) && Turned(angle, p.x, p.y, w, h) == Point(a, b)
    ensures forall x, y :: Inside(x, y, w, h) && Turned(angle, x, y, w, h) == Point(a, b) ==> Point(x, y) == Back(angle, a, b, w, h)
  {}

  /** A row by row scan meets every place of an area once. */
  lemma {:induction false} ScanPlace(a: int, b: int, w: int, h: int)
    requires Inside(a, b, w, h)
    ensures 0 <= b * w + a < w * h
    ensures (b * w + a) % w == a && (b * w + a) / w == b
  {
    OnlyRemainder(b * w + a, b, a, w);
    ProductAtLeast(h - b, w);
    assert (h - b) * w == h * w - b * w;
    assert b * w >= 0;
  }

  /** The buffer has a slot for every point, and two points never share one. */
  lemma {:induction false} PlacesDiffer(angle: int, x: int, y: int, u: int, v: int, w: int, h: int)
    requires Inside(x, y, w, h) && Inside(u, v, w, h)
    ensures 0 <= Place(angle, x, y, w, h) < w * h
    ensures Place(angle, x, y, w, h) == Place(angle, u, v, w, h) ==> x == u && y == v
  {
    TurnedInside(angle, x, y, w, h);
    TurnedInside(angle, u, v, w, h);
    var p, q := Turned(angle, x, y, w, h), Turned(angle, u, v, w, h);
    ScanPlace(p.x, p.y, TurnedWidth(angle, w, h), TurnedHeight(angle, w, h));
    ScanPlace(q.x, q.y, TurnedWidth(angle, w, h), TurnedHeight(angle, w, h));
  }

  /** The point for the i-th slot. */
  function Slot(angle: int, i: int, w: int, h: int): Point
    requires w > 0 && h > 0
  {
    var tw := TurnedWidth(angle, w, h);
    Back(angle, i % tw, i / tw, w, h)
  }

  /** Every slot is filled. */
  lemma {:induction false} PlacesCover(angle: int, i: int, w: int, h: int)
    requires 0 <= i < w * h && w > 0 && h > 0
    ensures var p := Slot(angle, i, w, h); Inside(p.x, p.y, w, h) && Place(angle, p.x, p.y, w, h) == i
  {
    var tw, th := TurnedWidth(angle, w, h), TurnedHeight(angle, w, h);
    var a, b := i % tw, i / tw;
    assert i == b * tw + a;
    assert (th - b) * tw == th * tw - b * tw > 0;
    ProductAtLeast(th - b, tw);
    TurnsBack(angle, a, b, w, h);
  }

  // ---------------------------------------------------------------------
  // The window
  // ---------------------------------------------------------------------

  datatype Window = Window(x0: int, y0: int, x1: int, y1: int)

  /** The window on the device for a rectangle of the virtual screen. */
  function Turning(angle: int, x: int, y: int, w: int, h: int, xres: int, yres: int): Window {
    var p, q := Turned(angle, x, y, xres, yres), Turned(angle, x + w - 1, y + h - 1, xres, yres);
    Window(if p.x > q.x then q.x else p.x, if p.y > q.y then q.y else p.y,
           if p.x > q.x then p.x else q.x, if p.y > q.y then p.y else q.y)
  }

  predicate InRange(x: int, y: int, w: int, h: int, xres: int, yres: int) {
    x >= 0 && y >= 0 && x + w - 1 < xres && y + h - 1 < yres
  }

  /** The square commutes: a point turned within its rectangle and moved to
      the window is the point turned on the whole screen. */
  lemma {:induction false} SquareCommutes(angle: int, x: int, y: int, u: int, v: int, w: int, h: int, xres: int, yres: int)
    requires Inside(u, v, w, h)
    ensures var win := Turning(angle, x, y, w, h, xres, yres); var p := Turned(angle, u, v, w, h);
      && Turned(angle, x + u, y + v, xres, yres) == Point(win.x0 + p.x, win.y0 + p.y)
      && win.x1 - win.x0 + 1 == TurnedWidth(angle, w, h) && win.y1 - win.y0 + 1 == TurnedHeight(angle, w, h)
  {}

  // ---------------------------------------------------------------------
  // The device
  // ---------------------------------------------------------------------

  function Width(win: Window): (n: int)
    ensures n > 0
  {
    if win.x0 <= win.x1 then win.x1 - win.x0 + 1 else 1
  }

  function Height(win: Window): (n: int)
    ensures n > 0
  {
    if win.y0 <= win.y1 then win.y1 - win.y0 + 1 else 1
  }

  /** The k-th point of the window, row by row, beginning again after the last. */
  function Dot(win: Window, k: nat): Point {
    Point(win.x0 + k % Width(win), win.y0 + k / Width(win) % Height(win))
  }

  /** The pixels after the data have been written from the `at`-th point on. */
  function Poured(pixels: map<Point, int>, win: Window, at: nat, data: seq<int>): map<Point, int>
    decreases |data|
  {
    if data == [] then pixels
    else
      var n := |data| - 1;
      Poured(pixels, win, at, data[..n])[Dot(win, at + n) := data[n]]
  }

  /** Two points of one scan are different. */
  lemma {:induction false} DotsDiffer(win: Window, j: nat, k: nat)
    requires j < Width(win) * Height(win) && k < Width(win) * Height(win) && Dot(win, j) == Dot(win, k)
    ensures j == k
  {
    RowOf(win, j);
    RowOf(win, k);
    assert j == j / Width(win) * Width(win) + j % Width(win);
  }

  lemma {:induction false} RowOf(win: Window, k: nat)
    requires k < Width(win) * Height(win)
    ensures k / Width(win) % Height(win) == k / Width(win)
    ensures k == k / Width(win) * Width(win) + k % Width(win)
  {
    RowBelow(k, Width(win), Height(win));
    OnlyRemainder(k / Width(win), 0, k / Width(win), Height(win));
  }

  lemma {:induction false} RowBelow(k: nat, w: int, h: int)
    requires 0 < w && k < w * h
    ensures 0 <= k / w < h
  {
    assert k == k / w * w + k % w;
    assert (h - k / w) * w == w * h - k / w * w > 0;
    ProductAtLeast(h - k / w, w);
  }

  /** In a scan of no more than the window each point takes its datum. */
  lemma {:induction false} PouredAt(pixels: map<Point, int>, win: Window, data: seq<int>, k: nat)
    requires k < |data| <= Width(win) * Height(win)
    ensures var r := Poured(pixels, win, 0, data); Dot(win, k) in r && r[Dot(win, k)] == data[k]
    decreases |data|
  {
    var n := |data| - 1;
    if k < n {
      PouredAt(pixels, win, data[..n], k);
      if Dot(win, k) == Dot(win, n) { DotsDiffer(win, k, n); }
    }
  }

  predicate SameAt(p: Point, r: map<Point, int>, s: map<Point, int>) {
    (p in r <==> p in s) && (p in r ==> r[p] == s[p])
  }

  /** Points outside the window stay as they were. */
  lemma {:induction false} PouredOutside(pixels: map<Point, int>, win: Window, at: nat, data: seq<int>, p: Point)
    requires win.x0 <= win.x1 && win.y0 <= win.y1 && !Covered(win, p.x, p.y)
    ensures SameAt(p, Poured(pixels, win, at, data), pixels)
    decreases |data|
  {
    if data != [] {
      PouredOutside(pixels, win, at, data[..|data| - 1], p);
    }
  }

  lemma {:induction false} PouredNext(pixels: map<Point, int>, win: Window, data: seq<int>, k: nat)
    requires k < |data|
    ensures Poured(Poured(pixels, win, 0, data[..k]), win, k, [data[k]]) == Poured(pixels, win, 0, data[..k + 1])
  {
    assert data[..k + 1][..k] == data[..k];
    var m := Poured(pixels, win, 0, data[..k]);
    assert [data[k]][..0] == [] && Poured(m, win, k, []) == m;
  }

  // ---------------------------------------------------------------------
  // What is drawn
  // ---------------------------------------------------------------------

  /** The point of the rectangle that the k-th slot of the turned one is for, as a place in reading order. */
  function Source(angle: int, k: nat, w: nat, h: nat): (i: nat)
    requires k < w * h
    ensures i < w * h
  {
    SlotInside(angle, k, w, h);
    var p := Slot(angle, k, w, h);
    p.y * w + p.x
  }

  lemma {:induction false} SlotInside(angle: int, k: nat, w: nat, h: nat)
    requires k < w * h
    ensures w > 0 && h > 0
    ensures var p := Slot(angle, k, w, h); Inside(p.x, p.y, w, h) && 0 <= p.y * w + p.x < w * h
  {
    assert w != 0 && h != 0;
    PlacesCover(angle, k, w, h);
    var p := Slot(angle, k, w, h);
    ScanPlace(p.x, p.y, w, h);
  }

  /** The colours in the order of the turned rectangle. */
  function Ordered(angle: int, colours: seq<int>, w: nat, h: nat): (r: seq<int>)
    requires |colours| == w * h
    ensures |r| == |colours|
  {
    seq(w * h, k requires 0 <= k < w * h => colours[Source(angle, k, w, h)])
  }

  /** The data of lcd_bitblt. */
  function Written(angle: int, colours: seq<int>, w: nat, h: nat): (r: seq<int>)
    requires |colours| == w * h
    ensures |r| == |colours|
  {
    if w * h <= 512 then Ordered(angle, colours, w, h) else colours
  }

  lemma {:induction false} OrderedAt(angle: int, colours: seq<int>, u: int, v: int, w: nat, h: nat)
    requires |colours| == w * h && Inside(u, v, w, h)
    ensures var k := Place(angle, u, v, w, h);
      0 <= k < |colours| && 0 <= v * w + u < |colours| && Ordered(angle, colours, w, h)[k] == colours[v * w + u]
  {
    PlacesDiffer(angle, u, v, u, v, w, h);
    ScanPlace(u, v, w, h);
    var p := Slot(angle, Place(angle, u, v, w, h), w, h);
    PlacesCover(angle, Place(angle, u, v, w, h), w, h);
    PlacesDiffer(angle, u, v, p.x, p.y, w, h);
  }

  /** A virtual screen of `xres` by `yres`, turned by `angle`. */
  datatype Screen = Screen(angle: int, xres: int, yres: int)

  /** Each point of the rectangle has its colour at its place on the device. */
  ghost predicate Drawn(pixels: map<Point, int>, screen: Screen, colours: seq<int>, x: int, y: int, w: nat, h: nat) {
    forall u, v :: Inside(u, v, w, h) ==> DrawnAt(pixels, screen, colours, x, y, u, v, w)
  }

  predicate DrawnAt(pixels: map<Point, int>, screen: Screen, colours: seq<int>, x: int, y: int, u: int, v: int, w: nat) {
    var p := Turned(screen.angle, x + u, y + v, screen.xres, screen.yres);
    0 <= v * w + u < |colours| && p in pixels && pixels[p] == colours[v * w + u]
  }

  /** A point of the rectangle is the dot of its window that its slot goes to. */
  lemma {:induction false} DotIsPlace(screen: Screen, x: int, y: int, u: int, v: int, w: nat, h: nat)
    requires Inside(u, v, w, h)
    ensures var win := Turning(screen.angle, x, y, w, h, screen.xres, screen.yres); var k := Place(screen.angle, u, v, w, h);
      && Width(win) * Height(win) == w * h && 0 <= k < w * h
      && Dot(win, k) == Turned(screen.angle, x + u, y + v, screen.xres, screen.yres)
  {
    var a := screen.angle;
    SquareCommutes(a, x, y, u, v, w, h, screen.xres, screen.yres);
    TurnedInside(a, u, v, w, h);
    PlacesDiffer(a, u, v, u, v, w, h);
    var p := Turned(a, u, v, w, h);
    DotAt(Turning(a, x, y, w, h, screen.xres, screen.yres), p.x, p.y);
    TurnedArea(a, w, h);
  }

  lemma {:induction false} DotAt(win: Window, a: int, b: int)
    requires Inside(a, b, Width(win), Height(win))
    ensures 0 <= b * Width(win) + a && Dot(win, b * Width(win) + a) == Point(win.x0 + a, win.y0 + b)
  {
    ScanPlace(a, b, Width(win), Height(win));
    OnlyRemainder(b, 0, b, Height(win));
  }

  lemma {:induction false} TurnedArea(angle: int, w: int, h: int)
    ensures TurnedWidth(angle, w, h) * TurnedHeight(angle, w, h) == w * h
  {}

  /** What one point shows after the window has taken `data`. */
  lemma {:induction false} PointShows(pixels: map<Point, int>, screen: Screen, data: seq<int>, colours: seq<int>,
                                      x: int, y: int, u: int, v: int, w: nat, h: nat)
    requires |colours| == |data| == w * h && Inside(u, v, w, h)
    ensures var win := Turning(screen.angle, x, y, w, h, screen.xres, screen.yres); var k := Place(screen.angle, u, v, w, h);
      && 0 <= k < w * h && 0 <= v * w + u < w * h
      && (DrawnAt(Poured(pixels, win, 0, data), screen, colours, x, y, u, v, w) <==> data[k] == colours[v * w + u])
  {
    DotIsPlace(screen, x, y, u, v, w, h);
    ScanPlace(u, v, w, h);
    PouredAt(pixels, Turning(screen.angle, x, y, w, h, screen.xres, screen.yres), data, Place(screen.angle, u, v, w, h));
  }

  /** Data in the order of the turned rectangle draw it. */
  lemma {:induction false} OrderedDraws(pixels: map<Point, int>, screen: Screen, colours: seq<int>, x: int, y: int, w: nat, h: nat)
    requires |colours| == w * h
    ensures var win := Turning(screen.angle, x, y, w, h, screen.xres, screen.yres);
      Drawn(Poured(pixels, win, 0, Ordered(screen.angle, colours, w, h)), screen, colours, x, y, w, h)
  {
    var win := Turning(screen.angle, x, y, w, h, screen.xres, screen.yres);
    var r := Poured(pixels, win, 0, Ordered(screen.angle, colours, w, h));
    forall u, v | Inside(u, v, w, h) ensures DrawnAt(r, screen, colours, x, y, u, v, w) {
      PointShows(pixels, screen, Ordered(screen.angle, colours, w, h), colours, x, y, u, v, w, h);
      OrderedAt(screen.angle, colours, u, v, w, h);
    }
  }

  /** The colour in the slot of the point is the point's own. */
  predicate SlotAgrees(angle: int, colours: seq<int>, u: int, v: int, w: nat, h: nat)
    requires |colours| == w * h && Inside(u, v, w, h)
  {
    PlacesDiffer(angle, u, v, u, v, w, h);
    ScanPlace(u, v, w, h);
    colours[Place(angle, u, v, w, h)] == colours[v * w + u]
  }

  /** Data in reading order draw the rectangle exactly when the turned one has the same colours in the same order. */
  lemma {:induction false} PlainDrawsExactly(pixels: map<Point, int>, screen: Screen, colours: seq<int>, x: int, y: int, w: nat, h: nat)
    requires |colours| == w * h
    ensures var win := Turning(screen.angle, x, y, w, h, screen.xres, screen.yres);
      Drawn(Poured(pixels, win, 0, colours), screen, colours, x, y, w, h) <==>
      forall u, v :: Inside(u, v, w, h) ==> SlotAgrees(screen.angle, colours, u, v, w, h)
  {
    var win := Turning(screen.angle, x, y, w, h, screen.xres, screen.yres);
    var r := Poured(pixels, win, 0, colours);
    forall u, v | Inside(u, v, w, h)
      ensures DrawnAt(r, screen, colours, x, y, u, v, w) <==> SlotAgrees(screen.angle, colours, u, v, w, h)
    {
      PointShows(pixels, screen, colours, colours, x, y, u, v, w, h);
    }
  }

  /** The angles and shapes that keep the reading order. */
  predicate KeepsOrder(angle: int, w: nat, h: nat) {
    if angle == 90 then w == 1 else if angle == 270 then h == 1 else angle != 180
  }

  /** It does for every picture of a rectangle exactly when turning keeps the reading order. */
  lemma {:induction false} OrderKeptExactly(angle: int, w: nat, h: nat)
    requires w * h > 1
    ensures KeepsOrder(angle, w, h) <==>
      forall colours: seq<int>, u, v :: |colours| == w * h && Inside(u, v, w, h) ==> SlotAgrees(angle, colours, u, v, w, h)
  {
    if KeepsOrder(angle, w, h) {
      forall u, v | Inside(u, v, w, h) ensures Place(angle, u, v, w, h) == v * w + u {
        SameSlot(angle, u, v, w, h);
      }
    } else {
      var colours := seq(w * h, i => if i == 0 then 1 else 0);
      FirstMoves(angle, w, h);
      assert Inside(0, 0, w, h) && !SlotAgrees(angle, colours, 0, 0, w, h);
    }
  }

  lemma {:induction false} SameSlot(angle: int, u: int, v: int, w: nat, h: nat)
    requires KeepsOrder(angle, w, h) && Inside(u, v, w, h)
    ensures Place(angle, u, v, w, h) == v * w + u
  {}

  lemma {:induction false} FirstMoves(angle: int, w: nat, h: nat)
    requires !KeepsOrder(angle, w, h) && w * h > 1
    ensures Inside(0, 0, w, h) && 0 < Place(angle, 0, 0, w, h) < w * h
  {
    assert w != 0 && h != 0;
    PlacesDiffer(angle, 0, 0, 0, 0, w, h);
    if angle == 90 {
      assert Place(angle, 0, 0, w, h) == (w - 1) * h;
      ProductAtLeast(w - 1, h);
    } else if angle == 180 {
      assert (h - 1) * w + (w - 1) == h * w - 1;
    }
  }

  /** What lcd_bitblt writes on the screen draws every rectangle of up to 512
      points, and a larger one exactly when its colours agree; and what is
      outside the window stays. */
  lemma {:induction false} BitbltDrawsExactly(pixels: map<Point, int>, screen: Screen, colours: seq<int>, x: int, y: int, w: nat, h: nat)
    requires |colours| == w * h
    ensures var win := Turning(screen.angle, x, y, w, h, screen.xres, screen.yres);
      var r := Poured(pixels, win, 0, Written(screen.angle, colours, w, h));
      && (Drawn(r, screen, colours, x, y, w, h) <==>
          w * h <= 512 || forall u, v :: Inside(u, v, w, h) ==> SlotAgrees(screen.angle, colours, u, v, w, h))
      && forall p: Point {:trigger SameAt(p, r, pixels)} :: !Covered(win, p.x, p.y) ==> SameAt(p, r, pixels)
  {
    OrderedDraws(pixels, screen, colours, x, y, w, h);
    PlainDrawsExactly(pixels, screen, colours, x, y, w, h);
    var win := Turning(screen.angle, x, y, w, h, screen.xres, screen.yres);
    var r := Poured(pixels, win, 0, Written(screen.angle, colours, w, h));
    forall p: Point | !Covered(win, p.x, p.y) ensures SameAt(p, r, pixels) {
      PouredOutside(pixels, win, 0, Written(screen.angle, colours, w, h), p);
    }
  }

  /** The display controller: what is written fills the window row by row, from where the last write ended. */
  class Panel {
    var window: Window
    var at: nat
    var pixels: map<Point, int>

    constructor ()
      ensures pixels == map[]
    {
      window, at, pixels := Window(0, 0, 0, 0), 0, map[];
    }

    method SetWindow(x0: int, y0: int, x1: int, y1: int) returns (ret: int)
      modifies this`window, this`at
      ensures window == Window(x0, y0, x1, y1) && at == 0 && ret == 0
    {
      window, at := Window(x0, y0, x1, y1), 0;
      ret := 0;
    }

    method WriteGram(data: seq<int>) returns (ret: int)
      modifies this`pixels, this`at
      ensures pixels == Poured(old(pixels), window, old(at), data) && at == old(at) + |data| && ret == 0
    {
      pixels := Poured(pixels, window, at, data);
      at := at + |data|;
      ret := 0;
    }
  }

  class Lcd {
    const panel: Panel
    const rot: int
    const xres: int
    const yres: int
    const fgcolor: int
    const bgcolor: int
    const gram: array<int>

    constructor (panel: Panel, rot: int, xres: int, yres: int, fgcolor: int, bgcolor: int)
      ensures this.panel == panel && this.rot == rot && this.xres == xres && this.yres == yres
      ensures this.fgcolor == fgcolor && this.bgcolor == bgcolor && gram.Length == 512 && fresh(gram)
    {
      this.panel, this.rot, this.xres, this.yres := panel, rot, xres, yres;
      this.fgcolor, this.bgcolor := fgcolor, bgcolor;
      gram := new int[512](_ => 0);
    }

    /** lcd_set_window */
    method SetWindow(x: int, y: int, w: int, h: int) returns (ret: int)
      modifies panel`window, panel`at
      ensures InRange(x, y, w, h, xres, yres) ==>
        ret == 0 && panel.window == Turning(rot * 90, x, y, w, h, xres, yres) && panel.at == 0
      ensures !InRange(x, y, w, h, xres, yres) ==> ret == -1 && panel.window == old(panel.window) && panel.at == old(panel.at)
    {
      var x0, y0, x1, y1 := x, y, x + w - 1, y + h - 1;
      if x0 < 0 || y0 < 0 || x1 >= xres || y1 >= yres { return -1; }
      var p := Turned(rot * 90, x0, y0, xres, yres);
      x0, y0 := p.x, p.y;
      p := Turned(rot * 90, x1, y1, xres, yres);
      x1, y1 := p.x, p.y;
      if x0 > x1 { x0, x1 := x1, x0; }
      if y0 > y1 { y0, y1 := y1, y0; }
      ret := panel.SetWindow(x0, y0, x1, y1);
    }

    function Colour(bit: bool): int { if bit then fgcolor else bgcolor }

    function Colours(bits: seq<bool>): (r: seq<int>)
      ensures |r| == |bits| && forall i :: 0 <= i < |bits| ==> r[i] == Colour(bits[i])
    {
      seq(|bits|, i requires 0 <= i < |bits| => Colour(bits[i]))
    }

    /** The buffer holds the points before (x, y) in reading order. */
    ghost predicate Filled(bits: seq<bool>, w: nat, h: nat, x: int, y: int)
      requires |bits| == w * h <= gram.Length
      reads gram
    {
      forall u, v :: Inside(u, v, w, h) && (v < y || (v == y && u < x)) ==>
        var i := Place(rot * 90, u, v, w, h);
        0 <= i < gram.Length && 0 <= v * w + u < |bits| && gram[i] == Colour(bits[v * w + u])
    }

    method Plot(bits: seq<bool>, x: int, y: int, w: nat, h: nat)
      requires gram.Length == 512 && |bits| == w * h <= 512 && Inside(x, y, w, h) && Filled(bits, w, h, x, y)
      modifies gram
      ensures Filled(bits, w, h, x + 1, y)
    {
      ScanPlace(x, y, w, h);
      PlacesDiffer(rot * 90, x, y, x, y, w, h);
      var i := y * w + x;
      var v := Colour(bits[i]);
      i := Place(rot * 90, x, y, w, h);
      gram[i] := v;
      forall u, v | Inside(u, v, w, h) && (v < y || (v == y && u < x + 1))
        ensures var i := Place(rot * 90, u, v, w, h);
          0 <= i < gram.Length && 0 <= v * w + u < |bits| && gram[i] == Colour(bits[v * w + u])
      {
        PlacesDiffer(rot * 90, x, y, u, v, w, h);
        ScanPlace(u, v, w, h);
      }
    }

    /** The loop that turns a small rectangle into the buffer. */
    method Turn(bits: seq<bool>, w: nat, h: nat)
      requires gram.Length == 512 && |bits| == w * h <= 512
      modifies gram
      ensures gram[..w * h] == Ordered(rot * 90, Colours(bits), w, h)
    {
      var v := 0;
      while v < h
        invariant 0 <= v <= h && Filled(bits, w, h, 0, v)
      {
        var u := 0;
        while u < w
          invariant 0 <= u <= w && Filled(bits, w, h, u, v)
        {
          Plot(bits, u, v, w, h);
          u := u + 1;
        }
        v := v + 1;
      }
      FilledIsOrdered(bits, w, h);
    }

    lemma {:induction false} FilledIsOrdered(bits: seq<bool>, w: nat, h: nat)
      requires |bits| == w * h <= gram.Length && Filled(bits, w, h, 0, h)
      ensures gram[..w * h] == Ordered(rot * 90, Colours(bits), w, h)
    {
      var r := Ordered(rot * 90, Colours(bits), w, h);
      forall k | 0 <= k < w * h ensures gram[k] == r[k] {
        SlotInside(rot * 90, k, w, h);
        PlacesCover(rot * 90, k, w, h);
        var p := Slot(rot * 90, k, w, h);
        OrderedAt(rot * 90, Colours(bits), p.x, p.y, w, h);
      }
    }

    /** The loop that writes a large rectangle as it is, point by point. */
    method WritePlain(bits: seq<bool>, ret0: int) returns (ret: int)
      requires ret0 == 0 ==> panel.at == 0
      modifies panel`pixels, panel`at
      ensures ret == ret0
      ensures ret0 == 0 ==> panel.pixels == Poured(old(panel.pixels), panel.window, 0, Colours(bits))
      ensures ret0 != 0 ==> panel.pixels == old(panel.pixels) && panel.at == old(panel.at)
    {
      ghost var was, colours := panel.pixels, Colours(bits);
      ret := ret0;
      var i := 0;
      while i < |bits| && ret == 0
        invariant 0 <= i <= |bits| && ret == ret0 && (ret != 0 ==> i == 0)
        invariant ret == 0 ==> panel.at == i
        invariant ret != 0 ==> panel.at == old(panel.at)
        invariant panel.pixels == Poured(was, panel.window, 0, colours[..i])
      {
        PouredNext(was, panel.window, colours, i);
        var v := Colour(bits[i]);
        ret := panel.WriteGram([v]);
        i := i + 1;
      }
      assert ret == 0 ==> colours[..i] == colours;
    }

    /** lcd_bitblt. A rectangle of up to 512 points is turned, a larger one is
        written as it is. Off the screen a small one goes into the window of
        an earlier call, from where that was left, and the result is 0. */
    method Bitblt(bits: seq<bool>, x: int, y: int, w: nat, h: nat) returns (ret: int)
      requires gram.Length == 512 && |bits| == w * h < 0x8000
      modifies panel, gram
      ensures var data := Written(rot * 90, Colours(bits), w, h);
        && ret == (if w * h <= 512 || InRange(x, y, w, h, xres, yres) then 0 else -1)
        && panel.window == (if InRange(x, y, w, h, xres, yres) then Turning(rot * 90, x, y, w, h, xres, yres) else old(panel.window))
        && panel.pixels == (if InRange(x, y, w, h, xres, yres) then Poured(old(panel.pixels), panel.window, 0, data)
                            else if w * h <= 512 then Poured(old(panel.pixels), panel.window, old(panel.at), data)
                            else old(panel.pixels))
    {
      var n := w * h;
      ret := SetWindow(x, y, w, h);
      if n <= 512 {
        Turn(bits, w, h);
        ret := panel.WriteGram(gram[..n]);
      } else {
        ret := WritePlain(bits, ret);
      }
    }
  }

  predicate Covered(win: Window, a: int, b: int) { win.x0 <= a <= win.x1 && win.y0 <= b <= win.y1 }

  lemma {:induction false} PointsCovered(angle: int, x: int, y: int, u: int, v: int, w: int, h: int, xres: int, yres: int)
    requires Inside(u, v, w, h)
    ensures var p := Turned(angle, x + u, y + v, xres, yres); Covered(Turning(angle, x, y, w, h, xres, yres), p.x, p.y)
  {
    SquareCommutes(angle, x, y, u, v, w, h, xres, yres);
    TurnedInside(angle, u, v, w, h);
  }

  lemma {:induction false} CoveredPoints(angle: int, x: int, y: int, w: int, h: int, xres: int, yres: int, a: int, b: int)
    returns (p: Point)
    requires w > 0 && h > 0 && Covered(Turning(angle, x, y, w, h, xres, yres), a, b)
    ensures Inside(p.x, p.y, w, h) && Turned(angle, x + p.x, y + p.y, xres, yres) == Point(a, b)
  {
    var win := Turning(angle, x, y, w, h, xres, yres);
    SquareCommutes(angle, x, y, 0, 0, w, h, xres, yres);
    p := BackInside(angle, a - win.x0, b - win.y0, w, h);
    SquareCommutes(angle, x, y, p.x, p.y, w, h, xres, yres);
  }

  lemma {:induction false} BackInside(angle: int, a: int, b: int, w: int, h: int) returns (p: Point)
    requires Inside(a, b, TurnedWidth(angle, w, h), TurnedHeight(angle, w, h))
    ensures Inside(p.x, p.y, w, h) && Turned(angle, p.x, p.y, w, h) == Point(a, b)
  {
    TurnsBack(angle, a, b, w, h);
    p := Back(angle, a, b, w, h);
  }

  /** The window covers exactly the turned points of the rectangle. */
  lemma {:induction false} WindowIsImage(angle: int, x: int, y: int, w: int, h: int, xres: int, yres: int, a: int, b: int)
    requires w > 0 && h > 0
    ensures Covered(Turning(angle, x, y, w, h, xres, yres), a, b) <==>
      exists u, v :: Inside(u, v, w, h) && Turned(angle, x + u, y + v, xres, yres) == Point(a, b)
  {
    if Covered(Turning(angle, x, y, w, h, xres, yres), a, b) {
      var p := CoveredPoints(angle, x, y, w, h, xres, yres, a, b);
    }
    forall u, v | Inside(u, v, w, h) && Turned(angle, x + u, y + v, xres, yres) == Point(a, b)
      ensures Covered(Turning(angle, x, y, w, h, xres, yres), a, b)
    {
      PointsCovered(angle, x, y, u, v, w, h, xres, yres);
    }
  }
}
