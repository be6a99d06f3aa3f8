/** Crop, downscale, blackout and pixelate over pixel arrays, each against the image it must produce. */
module FrameProcessing {
  import opened Basics
  import opened Frames

  // ---------- The images to produce ----------

  function Cropped(f: Image, r: Area): Image
    requires r.width >= 1 && r.height >= 1
  {
    Build(r.width, r.height, (x: int, y: int) => Get(f, r.x + x, r.y + y))
  }

  function Max(a: int, b: int): int {
    if a >= b then a else b
  }

  function Min(a: int, b: int): int {
    if a <= b then a else b
  }

  /** One edge after scaling by `maxEdge / longest`, rounded half up. */
  function ScaledEdge(size: nat, longest: nat, maxEdge: nat): nat
    requires longest >= 1
  {
    Max(1, (2 * (size * maxEdge) + longest) / (2 * longest))
  }

  /** The first source line of target line `t` when `size` lines become `n`. */
  function BoxStart(t: int, size: nat, n: nat): int
    requires n >= 1
  {
    (t * size) / n
  }

  function BoxEnd(t: int, size: nat, n: nat): int
    requires n >= 1
  {
    Max(BoxStart(t, size, n) + 1, BoxStart(t + 1, size, n))
  }

  function BoxMean(f: Image, x0: int, x1: int, y0: int, y1: int): Pixel {
    var n := (y1 - y0) * (x1 - x0);
    if n >= 1 then MeanPixel(BoxSum(f, x0, x1, y0, y1), n) else Pixel(0, 0, 0, 0)
  }

  function Resampled(f: Image, tw: nat, th: nat): Image
    requires tw >= 1 && th >= 1
  {
    Build(tw, th, (x: int, y: int) =>
      BoxMean(f, BoxStart(x, f.width, tw), BoxEnd(x, f.width, tw), BoxStart(y, f.height, th), BoxEnd(y, f.height, th)))
  }

  function Downscaled(f: Image, maxEdge: nat): Image
    requires Sized(f)
  {
    var longest := Max(f.width, f.height);
    if longest <= maxEdge then f
    else Resampled(f, ScaledEdge(f.width, longest, maxEdge), ScaledEdge(f.height, longest, maxEdge))
  }

  function WithRgb(p: Pixel, c: Pixel): Pixel {
    p.(r := c.r, g := c.g, b := c.b)
  }

  /** `f` with the colour of an area replaced and its alpha kept. */
  function Filled(f: Image, r: Area, c: Pixel): Image
    requires Sized(f)
  {
    Build(f.width, f.height, (x: int, y: int) => if Inside(r, x, y) then WithRgb(Get(f, x, y), c) else Get(f, x, y))
  }

  /** Where the block of position `v` starts, in blocks of `size` from `from`. */
  function BlockStart(from: int, size: int, v: int): int
    requires size >= 1
  {
    from + (v - from) / size * size
  }

  /** The mean over the block of the area that holds `(x, y)`. */
  function BlockMean(f: Image, r: Area, size: int, x: int, y: int): Pixel
    requires size >= 1
  {
    var left, top := BlockStart(r.x, size, x), BlockStart(r.y, size, y);
    BoxMean(f, left, Min(left + size, r.x + r.width), top, Min(top + size, r.y + r.height))
  }

  function Pixelated(f: Image, r: Area, size: int): Image
    requires Sized(f) && size >= 1
  {
    Build(f.width, f.height, (x: int, y: int) =>
            if Inside(r, x, y) then WithRgb(Get(f, x, y), BlockMean(f, r, size, x, y)) else Get(f, x, y))
  }

  // ---------- Boxes tile the source ----------

  /** Where `n` boxes divide `size` lines, each box ends where the next starts, and none is empty. */
  lemma BoxesAbut(t: nat, size: nat, n: nat)
    requires 1 <= n <= size
    ensures BoxStart(0, size, n) == 0 && BoxStart(n, size, n) == size
    ensures BoxStart(t, size, n) < BoxEnd(t, size, n) == BoxStart(t + 1, size, n)
    ensures BoxStart(t, size, n) >= 0
  {
    Divided(t * size, n);
    Distribute(t + 1, t, size);
    QuotientAtLeast((t + 1) * size, n, BoxStart(t, size, n) + 1) by {
      OneMore(n, BoxStart(t, size, n));
    }
    QuotientAtLeast(n * size, n, size);
    QuotientAtMost(n * size, n, size);
    QuotientAtLeast(t * size, n, 0);
  }

  lemma {:induction false} BoxesRise(t: nat, u: nat, size: nat, n: nat)
    requires 1 <= n <= size && t <= u
    ensures BoxStart(t, size, n) <= BoxStart(u, size, n)
    decreases u
  {
    if t < u {
      BoxesRise(t, u - 1, size, n);
      BoxesAbut(u - 1, size, n);
    }
  }

  predicate InBox(s: int, t: int, size: nat, n: nat)
    requires n >= 1
  {
    BoxStart(t, size, n) <= s < BoxEnd(t, size, n)
  }

  /** Every source line lies in exactly one box. */
  lemma BoxesPartition(s: nat, size: nat, n: nat) returns (t: nat)
    requires 1 <= n <= size && s < size
    ensures t < n && InBox(s, t, size, n)
    ensures forall u: nat :: u < n && InBox(s, u, size, n) ==> u == t
  {
    BoxesAbut(0, size, n);
    t := FindBox(s, size, n, n);
    hide BoxStart, BoxEnd, InBox;
    forall u: nat | u < n && InBox(s, u, size, n) ensures u == t {
      OneBox(s, t, u, size, n);
      OneBox(s, u, t, size, n);
    }
  }

  /** A line of one box is in no later box. */
  lemma OneBox(s: int, t: nat, u: nat, size: nat, n: nat)
    requires 1 <= n <= size && InBox(s, t, size, n) && InBox(s, u, size, n)
    ensures u <= t
  {
    if t < u {
      BoxesAbut(t, size, n);
      BoxesRise(t + 1, u, size, n);
    }
  }

  lemma {:induction false} FindBox(s: nat, size: nat, n: nat, m: nat) returns (t: nat)
    requires 1 <= n <= size && m <= n && s < BoxStart(m, size, n)
    ensures t < m && InBox(s, t, size, n)
    decreases m
  {
    BoxesAbut(0, size, n);
    BoxesAbut(m - 1, size, n);
    if s >= BoxStart(m - 1, size, n) {
      t := m - 1;
    } else {
      t := FindBox(s, size, n, m - 1);
    }
  }

  /** A too-large edge shrinks to at least 1 and at most its own size; the longest becomes `maxEdge` exactly. */
  lemma ScaledEdgeFits(size: nat, longest: nat, maxEdge: nat)
    requires 1 <= size <= longest && 1 <= maxEdge < longest
    ensures 1 <= ScaledEdge(size, longest, maxEdge) <= size
    ensures ScaledEdge(size, longest, maxEdge) <= maxEdge
    ensures size == longest ==> ScaledEdge(size, longest, maxEdge) == maxEdge
  {
    var v := 2 * (size * maxEdge) + longest;
    MulMono(size, longest, maxEdge);
    assert longest * maxEdge == maxEdge * longest;
    QuotientBelow(v, 2 * longest, maxEdge + 1) by {
      Doubled(maxEdge, longest);
    }
    MulMono(maxEdge, longest - 1, size);
    QuotientBelow(v, 2 * longest, size + 1) by {
      Doubled(size, longest);
      assert maxEdge * size <= (longest - 1) * size;
      Distribute(longest, 1, size);
    }
    if size == longest {
      QuotientAtLeast(v, 2 * longest, maxEdge) by {
        Doubled(maxEdge, longest);
      }
    }
  }

  lemma Doubled(a: int, b: int)
    ensures a * (2 * b) == 2 * (a * b) && (a + 1) * (2 * b) == 2 * (a * b) + 2 * b
  {
  }

  lemma QuotientBelow(sum: int, n: int, hi: int)
    requires n >= 1 && sum < hi * n
    ensures sum / n < hi
  {
    Divided(sum, n);
    if sum / n >= hi {
      MulMono(hi, sum / n, n);
      assert false;
    }
  }

  // ---------- Frames in memory ----------

  class EdgeFrame {
    const width: nat
    const height: nat
    const data: array<Pixel>

    constructor (width: nat, height: nat)
      requires width >= 1 && height >= 1
      ensures this.width == width && this.height == height && fresh(data) && Valid()
    {
      this.width, this.height := width, height;
      data := new Pixel[width * height](i => Pixel(0, 0, 0, 0));
    }

    predicate Valid() {
      width >= 1 && height >= 1 && data.Length == width * height
    }

    ghost function Value(): (f: Image)
      requires Valid()
      reads data
      ensures Sized(f) && f.width == width && f.height == height
    {
      Image(width, height, data[..])
    }

    method At(x: nat, y: nat) returns (p: Pixel)
      requires Valid() && x < width && y < height
      ensures p == Get(Value(), x, y)
    {
      IdxBelow(width, height, x, y);
      p := data[Idx(width, x, y)];
    }
  }

  lemma TargetAt(w: nat, h: nat, p: (int, int) -> Pixel, x: nat, y: nat)
    requires x < w && y < h
    ensures Idx(w, x, y) < w * h && Build(w, h, p).pixels[Idx(w, x, y)] == p(x, y)
  {
    IdxBelow(w, h, x, y);
    IdxInverts(w, x, y);
  }

  method CopyFrame(frame: EdgeFrame) returns (out: EdgeFrame)
    requires frame.Valid()
    ensures fresh(out) && fresh(out.data) && out.Valid() && out.Value() == frame.Value()
  {
    out := new EdgeFrame(frame.width, frame.height);
    for i := 0 to out.data.Length
      invariant forall j :: 0 <= j < i ==> out.data[j] == frame.data[j]
    {
      out.data[i] := frame.data[i];
    }
    assert out.data[..] == frame.data[..];
  }

  /** `cropFrame`; an area that clamps to nothing is an error. */
  method CropFrame(frame: EdgeFrame, rect: Rect) returns (r: Option<EdgeFrame>)
    requires frame.Valid()
    ensures var area := ClampRect(rect, frame.width, frame.height);
            && (r.None? <==> area.width < 1 || area.height < 1)
            && (r.Some? ==> fresh(r.value) && fresh(r.value.data) && r.value.Valid()
                            && r.value.Value() == Cropped(frame.Value(), area))
  {
    var area := ClampRect(rect, frame.width, frame.height);
    if area.width < 1 || area.height < 1 {
      return None;
    }
    var out := new EdgeFrame(area.width, area.height);
    ghost var f := frame.Value();
    ghost var p := (x: int, y: int) => Get(f, area.x + x, area.y + y);
    ghost var target := Cropped(f, area);
    hide Idx, Get;
    NextRow(area.width, 0);
    for y := 0 to area.height
      invariant Idx(area.width, 0, y) <= out.data.Length
      invariant forall i :: 0 <= i < Idx(area.width, 0, y) ==> out.data[i] == target.pixels[i]
    {
      RowFits(area.width, area.height, y);
      for x := 0 to area.width
        invariant Idx(area.width, x, y) == Idx(area.width, 0, y) + x
        invariant forall i :: 0 <= i < Idx(area.width, x, y) ==> out.data[i] == target.pixels[i]
      {
        TargetAt(area.width, area.height, p, x, y);
        out.data[Idx(area.width, x, y)] := frame.At(area.x + x, area.y + y);
        NextColumn(area.width, x, y);
      }
      NextRow(area.width, y);
    }
    LastRow(area.width, area.height);
    assert out.data[..] == target.pixels;
    return Some(out);
  }

  lemma NextColumn(w: nat, x: nat, y: nat)
    ensures Idx(w, x + 1, y) == Idx(w, x, y) + 1
  {
  }

  lemma RowFits(w: nat, h: nat, y: nat)
    requires y < h
    ensures Idx(w, 0, y) + w == Idx(w, 0, y + 1) <= w * h
  {
    MulMono(y + 1, h, w);
  }

  /** The sums over a box, row by row. */
  method SumBox(frame: EdgeFrame, x0: nat, x1: nat, y0: nat, y1: nat) returns (s: Sums, n: nat)
    requires frame.Valid() && x0 <= x1 <= frame.width && y0 <= y1 <= frame.height
    ensures s == BoxSum(frame.Value(), x0, x1, y0, y1) && n == (y1 - y0) * (x1 - x0)
  {
    ghost var f := frame.Value();
    s, n := Sums(0, 0, 0, 0), 0;
    hide Get, Idx, Add;
    for y := y0 to y1
      invariant s == BoxSum(f, x0, x1, y0, y) && n == (y - y0) * (x1 - x0)
    {
      for x := x0 to x1
        invariant s == RowSum(f, y, x0, x, BoxSum(f, x0, x1, y0, y)) && n == (y - y0) * (x1 - x0) + (x - x0)
      {
        var p := frame.At(x, y);
        s, n := Add(s, p), n + 1;
      }
      Stack(y + 1 - y0, x1 - x0);
    }
  }

  /** `downscaleFrame`; a `maxEdge` below one is an error. */
  method DownscaleFrame(frame: EdgeFrame, maxEdge: int) returns (r: Option<EdgeFrame>)
    requires frame.Valid()
    ensures r.None? <==> maxEdge < 1
    ensures r.Some? ==> fresh(r.value) && fresh(r.value.data) && r.value.Valid()
                        && r.value.Value() == Downscaled(frame.Value(), maxEdge)
  {
    if maxEdge < 1 {
      return None;
    }
    var longest := Max(frame.width, frame.height);
    if longest <= maxEdge {
      var copy := CopyFrame(frame);
      return Some(copy);
    }
    ScaledEdgeFits(frame.width, longest, maxEdge);
    ScaledEdgeFits(frame.height, longest, maxEdge);
    var tw, th := ScaledEdge(frame.width, longest, maxEdge), ScaledEdge(frame.height, longest, maxEdge);
    hide ScaledEdge;
    var out := Resample(frame, tw, th);
    return Some(out);
  }

  method Resample(frame: EdgeFrame, tw: nat, th: nat) returns (out: EdgeFrame)
    requires frame.Valid() && 1 <= tw <= frame.width && 1 <= th <= frame.height
    ensures fresh(out) && fresh(out.data) && out.Valid() && out.Value() == Resampled(frame.Value(), tw, th)
  {
    out := new EdgeFrame(tw, th);
    ghost var f := frame.Value();
    ghost var p := (x: int, y: int) =>
      BoxMean(f, BoxStart(x, f.width, tw), BoxEnd(x, f.width, tw), BoxStart(y, f.height, th), BoxEnd(y, f.height, th));
    ghost var target := Resampled(f, tw, th);
    hide Idx, Get, BoxSum, BoxMean, BoxStart, BoxEnd;
    NextRow(tw, 0);
    for y := 0 to th
      invariant Idx(tw, 0, y) <= out.data.Length
      invariant forall i :: 0 <= i < Idx(tw, 0, y) ==> out.data[i] == target.pixels[i]
    {
      RowFits(tw, th, y);
      BoxFits(y, frame.height, th);
      var sy0, sy1 := BoxStart(y, frame.height, th), BoxEnd(y, frame.height, th);
      for x := 0 to tw
        invariant Idx(tw, x, y) == Idx(tw, 0, y) + x
        invariant forall i :: 0 <= i < Idx(tw, x, y) ==> out.data[i] == target.pixels[i]
      {
        BoxFits(x, frame.width, tw);
        var sx0, sx1 := BoxStart(x, frame.width, tw), BoxEnd(x, frame.width, tw);
        var s, n := SumBox(frame, sx0, sx1, sy0, sy1);
        MeanIsBoxMean(f, sx0, sx1, sy0, sy1);
        TargetAt(tw, th, p, x, y);
        out.data[Idx(tw, x, y)] := MeanPixel(s, n);
        NextColumn(tw, x, y);
      }
      NextRow(tw, y);
    }
    LastRow(tw, th);
    assert out.data[..] == target.pixels;
  }

  lemma MeanIsBoxMean(f: Image, x0: int, x1: int, y0: int, y1: int)
    requires x0 < x1 && y0 < y1
    ensures (y1 - y0) * (x1 - x0) >= 1
    ensures BoxMean(f, x0, x1, y0, y1) == MeanPixel(BoxSum(f, x0, x1, y0, y1), (y1 - y0) * (x1 - x0))
  {
    PosProduct(y1 - y0, x1 - x0);
  }

  lemma BoxFits(t: nat, size: nat, n: nat)
    requires 1 <= n <= size && t < n
    ensures 0 <= BoxStart(t, size, n) < BoxEnd(t, size, n) <= size
  {
    BoxesAbut(t, size, n);
    BoxesRise(t + 1, n, size, n);
    hide BoxStart;
  }

  /** `blackout`, and the writing half of a pixelation block: recolour an area in place, leaving alpha alone. */
  method Fill(frame: EdgeFrame, r: Area, c: Pixel)
    requires frame.Valid() && r.x + r.width <= frame.width && r.y + r.height <= frame.height
    modifies frame.data
    ensures frame.Value() == Filled(old(frame.Value()), r, c)
  {
    var w := frame.width;
    ghost var f := frame.Value();
    ghost var target := Filled(f, r, c);
    hide Idx, Get, Inside, Row, Col;
    for y := r.y to r.y + r.height
      invariant forall i :: 0 <= i < |f.pixels| ==>
                  frame.data[i] == if Before(r, r.x, y, w, i) then target.pixels[i] else f.pixels[i]
    {
      for x := r.x to r.x + r.width
        invariant forall i :: 0 <= i < |f.pixels| ==>
                    frame.data[i] == if Before(r, x, y, w, i) then target.pixels[i] else f.pixels[i]
      {
        FillAt(f, r, c, x, y);
        var i := Idx(w, x, y);
        NextCell(r, x, y, w, frame.height);
        frame.data[i] := WithRgb(frame.data[i], c);
      }
      EndOfRow(r, r.x + r.width, y, y + 1, w, frame.height);
    }
    AllBefore(f, r, c);
    assert frame.data[..] == target.pixels;
  }

  /** Cell `i` of the area comes before `(x, y)` in the double loop. */
  predicate Before(r: Area, x: int, y: int, w: nat, i: nat)
    requires w >= 1
  {
    Inside(r, Col(w, i), Row(w, i)) && (Row(w, i) < y || (Row(w, i) == y && Col(w, i) < x))
  }

  lemma NextCell(r: Area, x: nat, y: nat, w: nat, h: nat)
    requires Inside(r, x, y) && x < w && y < h
    ensures !Before(r, x, y, w, Idx(w, x, y))
    ensures forall i :: 0 <= i < w * h ==> (Before(r, x + 1, y, w, i) <==> Before(r, x, y, w, i) || i == Idx(w, x, y))
  {
    IdxInverts(w, x, y);
    hide Idx, Row, Col;
    forall i | 0 <= i < w * h ensures Before(r, x + 1, y, w, i) <==> Before(r, x, y, w, i) || i == Idx(w, x, y) {
      ColRow(w, h, i);
    }
  }

  lemma EndOfRow(r: Area, end: nat, y: nat, next: nat, w: nat, h: nat)
    requires w >= 1 && end == r.x + r.width && next == y + 1
    ensures forall i :: 0 <= i < w * h ==> (Before(r, r.x, next, w, i) <==> Before(r, end, y, w, i))
  {
    hide Row, Col;
  }

  lemma FillAt(f: Image, r: Area, c: Pixel, x: nat, y: nat)
    requires Sized(f) && x < f.width && y < f.height && Inside(r, x, y)
    ensures Idx(f.width, x, y) < |f.pixels|
    ensures Filled(f, r, c).pixels[Idx(f.width, x, y)] == WithRgb(f.pixels[Idx(f.width, x, y)], c)
  {
    IdxBelow(f.width, f.height, x, y);
    IdxInverts(f.width, x, y);
  }

  lemma AllBefore(f: Image, r: Area, c: Pixel)
    requires Sized(f)
    ensures forall i :: 0 <= i < |f.pixels| && !Before(r, r.x, r.y + r.height, f.width, i) ==>
              Filled(f, r, c).pixels[i] == f.pixels[i]
  {
    forall i | 0 <= i < |f.pixels| && !Before(r, r.x, r.y + r.height, f.width, i)
      ensures Filled(f, r, c).pixels[i] == f.pixels[i]
    {
      ColRow(f.width, f.height, i);
      hide Idx, Row, Col;
      assert !Inside(r, Col(f.width, i), Row(f.width, i));
    }
  }

  // ---------- Pixelation in place ----------

  /** The cells whose block has been redone when the block at `(left, top)` is next. */
  predicate BlockDone(r: Area, size: int, left: int, top: int, x: int, y: int) {
    Inside(r, x, y) && (y < top || (y < top + size && x < left))
  }

  /** The image then: done cells show their block's mean over the image before pixelation, the others are untouched. */
  predicate PartlyPixelated(f: Image, g: Image, r: Area, size: int, left: int, top: int)
    requires size >= 1
  {
    && Sized(f) && Sized(g) && g.width == f.width && g.height == f.height
    && forall x, y :: 0 <= x < f.width && 0 <= y < f.height ==>
         Get(g, x, y) == if BlockDone(r, size, left, top, x, y) then WithRgb(Get(f, x, y), BlockMean(f, r, size, x, y))
         else Get(f, x, y)
  }

  /** The start of block `k`. */
  function Offset(from: int, size: int, k: int): int {
    from + k * size
  }

  lemma InBlock(from: int, size: int, k: int, v: int)
    requires size >= 1 && Offset(from, size, k) <= v < Offset(from, size, k) + size
    ensures BlockStart(from, size, v) == Offset(from, size, k)
  {
    DivUnique(v - from, size, k, v - from - k * size);
  }

  function Block(r: Area, size: nat, left: nat, top: nat): Area
    requires r.x <= left < r.x + r.width && r.y <= top < r.y + r.height
  {
    Area(left, top, Min(left + size, r.x + r.width) - left, Min(top + size, r.y + r.height) - top)
  }

  /** Filling a block with its current mean is filling it with its mean before pixelation: its own pixels have not
      been touched yet. */
  lemma BlockStep(f: Image, g: Image, r: Area, size: nat, left: nat, top: nat, column: nat, row: nat)
    requires size >= 1 && PartlyPixelated(f, g, r, size, left, top) && r.x + r.width <= f.width
    requires r.y + r.height <= f.height
    requires left == Offset(r.x, size, column) < r.x + r.width && top == Offset(r.y, size, row) < r.y + r.height
    ensures var b := Block(r, size, left, top);
            var c := BoxMean(g, b.x, b.x + b.width, b.y, b.y + b.height);
            PartlyPixelated(f, Filled(g, b, c), r, size, left + size, top)
  {
    var b := Block(r, size, left, top);
    var c := BoxMean(g, b.x, b.x + b.width, b.y, b.y + b.height);
    var g' := Filled(g, b, c);
    assert c == BoxMean(f, b.x, b.x + b.width, b.y, b.y + b.height) by {
      hide Get, Filled, BoxSum, BlockMean, Offset;
      BoxSumDepends(f, g, b.x, b.x + b.width, b.y, b.y + b.height);
    }
    hide Offset;
    forall x, y | 0 <= x < f.width && 0 <= y < f.height
      ensures Get(g', x, y) ==
              if BlockDone(r, size, left + size, top, x, y) then WithRgb(Get(f, x, y), BlockMean(f, r, size, x, y))
              else Get(f, x, y)
    {
      hide Get, Filled, BoxSum, BoxMean, BlockMean, WithRgb;
      FilledGet(g, b, c, x, y);
      if Inside(b, x, y) {
        MeanOfBlock(f, r, size, left, top, column, row, x, y);
      }
    }
  }

  lemma MeanOfBlock(f: Image, r: Area, size: nat, left: nat, top: nat, column: nat, row: nat, x: int, y: int)
    requires size >= 1 && left == Offset(r.x, size, column) < r.x + r.width
    requires top == Offset(r.y, size, row) < r.y + r.height
    requires Inside(Block(r, size, left, top), x, y)
    ensures var b := Block(r, size, left, top);
            BlockMean(f, r, size, x, y) == BoxMean(f, b.x, b.x + b.width, b.y, b.y + b.height)
  {
    InBlock(r.x, size, column, x);
    InBlock(r.y, size, row, y);
    hide BoxMean;
  }

  lemma FilledGet(f: Image, r: Area, c: Pixel, x: nat, y: nat)
    requires Sized(f) && x < f.width && y < f.height
    ensures Get(Filled(f, r, c), x, y) ==
            if Inside(r, x, y) then Pixel(c.r, c.g, c.b, Get(f, x, y).a) else Get(f, x, y)
  {
    BuildGet(f.width, f.height, (x: int, y: int) => if Inside(r, x, y) then WithRgb(Get(f, x, y), c)
             else Get(f, x, y), x, y);
  }

  lemma PixelatedGet(f: Image, r: Area, size: int, x: nat, y: nat)
    requires Sized(f) && size >= 1 && x < f.width && y < f.height
    ensures Get(Pixelated(f, r, size), x, y) ==
            if Inside(r, x, y) then
              var mean := BlockMean(f, r, size, x, y);
              Pixel(mean.r, mean.g, mean.b, Get(f, x, y).a)
            else
              Get(f, x, y)
  {
    BuildGet(f.width, f.height,
             (x: int, y: int) => if Inside(r, x, y) then WithRgb(Get(f, x, y), BlockMean(f, r, size, x, y))
             else Get(f, x, y), x, y);
  }

  lemma RowOfBlocksDone(f: Image, g: Image, r: Area, size: int, left: int, top: int)
    requires size >= 1 && left >= r.x + r.width && PartlyPixelated(f, g, r, size, left, top)
    ensures PartlyPixelated(f, g, r, size, r.x, top + size)
  {
    hide Get, BlockMean;
  }

  lemma AllBlocksDone(f: Image, g: Image, r: Area, size: int, top: int)
    requires size >= 1 && top >= r.y + r.height && PartlyPixelated(f, g, r, size, r.x, top)
    ensures g == Pixelated(f, r, size)
  {
    forall x, y | 0 <= x < f.width && 0 <= y < f.height ensures Get(g, x, y) == Get(Pixelated(f, r, size), x, y) {
      PixelatedGet(f, r, size, x, y);
      hide Get, BlockMean, Pixelated;
    }
    SameImage(g, Pixelated(f, r, size));
  }

  lemma NoBlockDone(f: Image, r: Area, size: int)
    requires size >= 1 && Sized(f)
    ensures PartlyPixelated(f, f, r, size, r.x, r.y)
  {
    hide Get, BlockMean;
  }

  /** `pixelate`, in place: every pixel of the area ends as the mean of its block of original pixels. */
  method Pixelate(frame: EdgeFrame, r: Area, size: nat)
    requires frame.Valid() && r.x + r.width <= frame.width && r.y + r.height <= frame.height && size >= 1
    modifies frame.data
    ensures frame.Value() == Pixelated(old(frame.Value()), r, size)
  {
    ghost var f := frame.Value();
    hide *;
    NoBlockDone(f, r, size);
    NextOffset(r.y, size, 0);
    var top := r.y;
    ghost var row: nat := 0;
    while top < r.y + r.height
      invariant r.y <= top == Offset(r.y, size, row) && PartlyPixelated(f, frame.Value(), r, size, r.x, top)
    {
      PixelateRow(frame, r, size, top, f, row);
      top := top + size;
      NextOffset(r.y, size, row);
      row := row + 1;
    }
    AllBlocksDone(f, frame.Value(), r, size, top);
  }

  /** One row of blocks. */
  method PixelateRow(frame: EdgeFrame, r: Area, size: nat, top: nat, ghost f: Image, ghost row: nat)
    requires frame.Valid() && r.x + r.width <= frame.width && r.y + r.height <= frame.height && size >= 1
    requires f.width == frame.width && f.height == frame.height
    requires r.y <= top == Offset(r.y, size, row) < r.y + r.height
    requires PartlyPixelated(f, frame.Value(), r, size, r.x, top)
    modifies frame.data
    ensures PartlyPixelated(f, frame.Value(), r, size, r.x, top + size)
  {
    hide PartlyPixelated, Filled, BoxSum, BoxMean, Offset, BlockDone, Block;
    NextOffset(r.x, size, 0);
    var left := r.x;
    ghost var column: nat := 0;
    while left < r.x + r.width
      invariant r.x <= left && left == Offset(r.x, size, column)
      invariant PartlyPixelated(f, frame.Value(), r, size, left, top)
    {
      BlockStep(f, frame.Value(), r, size, left, top, column, row);
      BlockFits(r, size, left, top);
      PixelateBlock(frame, Block(r, size, left, top));
      left := left + size;
      NextOffset(r.x, size, column);
      column := column + 1;
    }
    RowOfBlocksDone(f, frame.Value(), r, size, left, top);
  }

  lemma BlockFits(r: Area, size: nat, left: nat, top: nat)
    requires r.x <= left < r.x + r.width && r.y <= top < r.y + r.height && size >= 1
    ensures var b := Block(r, size, left, top);
            && b.width >= 1 && b.height >= 1 && b.x + b.width <= r.x + r.width && b.y + b.height <= r.y + r.height
  {
  }

  lemma NextOffset(from: int, size: int, k: int)
    ensures Offset(from, size, k + 1) == Offset(from, size, k) + size && Offset(from, size, 0) == from
  {
  }

  method PixelateBlock(frame: EdgeFrame, b: Area)
    requires frame.Valid() && b.width >= 1 && b.height >= 1 && b.x + b.width <= frame.width
    requires b.y + b.height <= frame.height
    modifies frame.data
    ensures frame.Value() == Filled(old(frame.Value()), b,
                                    BoxMean(old(frame.Value()), b.x, b.x + b.width, b.y, b.y + b.height))
  {
    var s, n := SumBox(frame, b.x, b.x + b.width, b.y, b.y + b.height);
    MeanIsBoxMean(frame.Value(), b.x, b.x + b.width, b.y, b.y + b.height);
    hide Filled, BoxSum;
    Fill(frame, b, MeanPixel(s, n));
  }
}
