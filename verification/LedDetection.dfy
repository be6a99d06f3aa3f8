/** The LED detector from frame to indicators: sample a lit mask, label its blobs, keep the few largest. */
module LedDetection {
  import opened Basics
  import opened Frames
  import opened FrameProcessing
  import opened Sampling
  import opened FloodFill

  datatype Thresholds = Thresholds(minChannel: int, minSaturation: real, minAreaPct: real, maxIndicators: nat,
                                   maxSampled: nat)

  predicate IsIndicator(t: Thresholds, p: Pixel) {
    var max, min := Max(p.r, Max(p.g, p.b)), Min(p.r, Min(p.g, p.b));
    var saturation := if max == 0 then 0.0 else (max - min) as real / max as real;
    max >= t.minChannel && saturation >= t.minSaturation
  }

  /** A pixel is lit exactly if its brightest channel reaches the minimum and exceeds its darkest by the least share of
      itself; black has no saturation. */
  lemma IndicatorIff(t: Thresholds, p: Pixel, hi: int, lo: int)
    requires hi in {p.r, p.g, p.b} && lo in {p.r, p.g, p.b}
    requires lo <= p.r <= hi && lo <= p.g <= hi && lo <= p.b <= hi
    ensures IsIndicator(t, p) <==>
              hi >= t.minChannel
              && if hi == 0 then 0.0 >= t.minSaturation else (hi - lo) as real >= t.minSaturation * hi as real
  {
    if hi != 0 {
      QuotientReaches((hi - lo) as real, hi as real, t.minSaturation);
    }
  }

  lemma QuotientReaches(a: real, b: real, s: real)
    requires b > 0.0
    ensures a / b >= s <==> a >= s * b
  {
    var q := a / b;
    assert a == q * b;
    if q >= s {
      assert (q - s) * b >= 0.0;
    } else {
      assert (s - q) * b > 0.0;
    }
  }

  /** The lit mask of the sampled grid, and the channels of its lit cells. */
  function LitCells(t: Thresholds, f: Image, sw: nat, sh: nat, step: nat): seq<bool>
    requires sw >= 1
  {
    seq(sw * sh, i requires 0 <= i => IsIndicator(t, SampleAt(f, sw, step, i)))
  }

  function LitChannel(t: Thresholds, f: Image, sw: nat, sh: nat, step: nat, channel: Pixel -> int): seq<int>
    requires sw >= 1
  {
    seq(sw * sh, i requires 0 <= i =>
          if IsIndicator(t, SampleAt(f, sw, step, i)) then channel(SampleAt(f, sw, step, i)) else 0)
  }

  function Reds(t: Thresholds, f: Image, sw: nat, sh: nat, step: nat): seq<int>
    requires sw >= 1
  {
    LitChannel(t, f, sw, sh, step, (p: Pixel) => p.r)
  }

  function Greens(t: Thresholds, f: Image, sw: nat, sh: nat, step: nat): seq<int>
    requires sw >= 1
  {
    LitChannel(t, f, sw, sh, step, (p: Pixel) => p.g)
  }

  function Blues(t: Thresholds, f: Image, sw: nat, sh: nat, step: nat): seq<int>
    requires sw >= 1
  {
    LitChannel(t, f, sw, sh, step, (p: Pixel) => p.b)
  }

  /** The detector's sampling loop, with its two-dimensional cell index; cells not written stay dark and zero. */
  method SampleLit(t: Thresholds, frame: EdgeFrame, step: nat, sw: nat, sh: nat)
    returns (lit: array<bool>, cellR: array<int>, cellG: array<int>, cellB: array<int>)
    requires frame.Valid() && step >= 1 && sw == Samples(frame.width, step) >= 1
    requires sh == Samples(frame.height, step) >= 1
    ensures fresh(lit) && fresh(cellR) && fresh(cellG) && fresh(cellB)
    ensures lit[..] == LitCells(t, frame.Value(), sw, sh, step)
    ensures cellR[..] == Reds(t, frame.Value(), sw, sh, step)
    ensures cellG[..] == Greens(t, frame.Value(), sw, sh, step)
    ensures cellB[..] == Blues(t, frame.Value(), sw, sh, step)
  {
    ghost var f := frame.Value();
    var total := sw * sh;
    lit := new bool[total](i => false);
    cellR := new int[total](i => 0);
    cellG := new int[total](i => 0);
    cellB := new int[total](i => 0);
    hide Samples, Idx, Offset, Get, IsIndicator;
    NextOffset(0, step, 0);
    NextRow(sw, 0);
    var y := 0;
    var gy: nat := 0;
    while y < frame.height
      invariant y == Offset(0, step, gy) && Idx(sw, 0, gy) <= total
      invariant IsSampled(t, f, sw, sh, step, Idx(sw, 0, gy), lit[..], cellR[..], cellG[..], cellB[..])
    {
      Rounds(frame.height, step, gy);
      RowFits(sw, sh, gy);
      SampleLitRow(t, frame, step, sw, sh, lit, cellR, cellG, cellB, y, gy, f);
      NextOffset(0, step, gy);
      y, gy := y + step, gy + 1;
    }
    AllRows(frame.height, step, gy, sw, sh);
    AllSampled(t, f, sw, sh, step, lit[..], cellR[..], cellG[..], cellB[..]);
  }

  /** The first `n` cells are sampled, the others untouched. */
  ghost predicate IsSampled(t: Thresholds, f: Image, sw: nat, sh: nat, step: nat, n: nat, lit: seq<bool>, r: seq<int>,
                            g: seq<int>, b: seq<int>)
    requires sw >= 1
  {
    && |lit| == |r| == |g| == |b| == sw * sh
    && (forall i :: 0 <= i < n && i < |lit| ==> CellIs(t, SampleAt(f, sw, step, i), lit[i], r[i], g[i], b[i]))
    && forall i :: n <= i < |lit| ==> !lit[i] && r[i] == 0 && g[i] == 0 && b[i] == 0
  }

  predicate CellIs(t: Thresholds, p: Pixel, lit: bool, r: int, g: int, b: int) {
    lit == IsIndicator(t, p) && (if lit then r == p.r && g == p.g && b == p.b else r == 0 && g == 0 && b == 0)
  }

  lemma AllSampled(t: Thresholds, f: Image, sw: nat, sh: nat, step: nat, lit: seq<bool>, r: seq<int>, g: seq<int>,
                   b: seq<int>)
    requires sw >= 1 && IsSampled(t, f, sw, sh, step, sw * sh, lit, r, g, b)
    ensures lit == LitCells(t, f, sw, sh, step) && r == Reds(t, f, sw, sh, step)
    ensures g == Greens(t, f, sw, sh, step) && b == Blues(t, f, sw, sh, step)
  {
    hide IsIndicator, SampleAt;
  }

  method SampleLitRow(t: Thresholds, frame: EdgeFrame, step: nat, sw: nat, sh: nat, lit: array<bool>, cellR: array<int>,
                      cellG: array<int>, cellB: array<int>,
                      y: nat, gy: nat, ghost f: Image)
    requires frame.Valid() && f == frame.Value() && step >= 1 && sw >= 1 && sw == Samples(frame.width, step)
    requires y == Offset(0, step, gy) < frame.height && Idx(sw, 0, gy) + sw == Idx(sw, 0, gy + 1) <= lit.Length
    requires cellR != cellG && cellR != cellB && cellG != cellB
    requires IsSampled(t, f, sw, sh, step, Idx(sw, 0, gy), lit[..], cellR[..], cellG[..], cellB[..])
    modifies lit, cellR, cellG, cellB
    ensures IsSampled(t, f, sw, sh, step, Idx(sw, 0, gy + 1), lit[..], cellR[..], cellG[..], cellB[..])
  {
    hide Samples, Idx, Offset, Get, IsIndicator, Row, Col;
    NextOffset(0, step, 0);
    var x := 0;
    var gx: nat := 0;
    Rounds(frame.width, step, 0);
    while x < frame.width
      invariant x == Offset(0, step, gx) && gx <= sw && Idx(sw, gx, gy) == Idx(sw, 0, gy) + gx
      invariant IsSampled(t, f, sw, sh, step, Idx(sw, gx, gy), lit[..], cellR[..], cellG[..], cellB[..])
    {
      Rounds(frame.width, step, gx);
      IdxInverts(sw, gx, gy);
      var p := frame.At(x, y);
      var gi := Idx(sw, gx, gy);
      assert p == SampleAt(f, sw, step, gi);
      if IsIndicator(t, p) {
        lit[gi], cellR[gi], cellG[gi], cellB[gi] := true, p.r, p.g, p.b;
      }
      NextColumn(sw, gx, gy);
      NextOffset(0, step, gx);
      x, gx := x + step, gx + 1;
      Rounds(frame.width, step, gx - 1);
    }
    Rounds(frame.width, step, gx);
  }

  // ---------- The largest blobs ----------

  /** Behind every blob that is at least as large: a stable descending sort inserts in list order. */
  function InsertBySize(xs: seq<Blob>, x: Blob): seq<Blob> {
    if xs != [] && xs[|xs| - 1].cells < x.cells then InsertBySize(xs[..|xs| - 1], x) + [xs[|xs| - 1]] else xs + [x]
  }

  function LargeFirst(blobs: seq<Blob>, minCells: nat): seq<Blob> {
    if blobs == [] then []
    else
      var rest, last := LargeFirst(blobs[..|blobs| - 1], minCells), blobs[|blobs| - 1];
      if last.cells >= minCells then InsertBySize(rest, last) else rest
  }

  function Top(blobs: seq<Blob>, minCells: nat, k: nat): seq<Blob> {
    var sorted := LargeFirst(blobs, minCells);
    if k <= |sorted| then sorted[..k] else sorted
  }

  predicate Descending(xs: seq<Blob>) {
    forall i, j :: 0 <= i < j < |xs| ==> xs[i].cells >= xs[j].cells
  }

  lemma {:induction false} InsertKeeps(xs: seq<Blob>, x: Blob)
    requires Descending(xs)
    ensures Descending(InsertBySize(xs, x))
    ensures forall y :: y in InsertBySize(xs, x) <==> y in xs || y == x
    ensures |InsertBySize(xs, x)| == |xs| + 1
  {
    if xs != [] && xs[|xs| - 1].cells < x.cells {
      var front, last := xs[..|xs| - 1], xs[|xs| - 1];
      InsertKeeps(front, x);
      assert xs == front + [last];
      forall i | 0 <= i < |xs| ensures InsertBySize(front, x)[i].cells >= last.cells {
        assert InsertBySize(front, x)[i] in front || InsertBySize(front, x)[i] == x;
      }
    }
  }

  lemma {:induction false} LargeFirstIsExact(blobs: seq<Blob>, minCells: nat)
    ensures Descending(LargeFirst(blobs, minCells))
    ensures forall y :: y in LargeFirst(blobs, minCells) <==> y in blobs && y.cells >= minCells
    ensures |LargeFirst(blobs, minCells)| == CountIf(blobs, (b: Blob) => b.cells >= minCells)
  {
    if blobs != [] {
      var front := blobs[..|blobs| - 1];
      LargeFirstIsExact(front, minCells);
      InsertKeeps(LargeFirst(front, minCells), blobs[|blobs| - 1]);
      assert blobs == front + [blobs[|blobs| - 1]];
    }
  }

  /** The blobs large enough, in label order. */
  function Large(blobs: seq<Blob>, minCells: nat): seq<Blob> {
    if blobs == [] then []
    else
      var rest, last := Large(blobs[..|blobs| - 1], minCells), blobs[|blobs| - 1];
      if last.cells >= minCells then rest + [last] else rest
  }

  /** The blobs of exactly this size, in the order of the list. */
  function OfSize(blobs: seq<Blob>, cells: nat): seq<Blob> {
    if blobs == [] then []
    else OfSize(blobs[..|blobs| - 1], cells) + if blobs[|blobs| - 1].cells == cells then [blobs[|blobs| - 1]] else []
  }

  lemma {:induction false} InsertAdds(xs: seq<Blob>, x: Blob)
    ensures multiset(InsertBySize(xs, x)) == multiset(xs) + multiset{x}
  {
    if xs != [] && xs[|xs| - 1].cells < x.cells {
      var front, last := xs[..|xs| - 1], xs[|xs| - 1];
      InsertAdds(front, x);
      assert xs == front + [last];
    }
  }

  lemma OfSizeOneMore(xs: seq<Blob>, x: Blob, cells: nat)
    ensures OfSize(xs + [x], cells) == OfSize(xs, cells) + if x.cells == cells then [x] else []
  {
    assert (xs + [x])[..|xs + [x]| - 1] == xs;
  }

  /** Insertion puts the blob behind those of its own size. */
  lemma {:induction false} InsertIsStable(xs: seq<Blob>, x: Blob, cells: nat)
    ensures OfSize(InsertBySize(xs, x), cells) == OfSize(xs, cells) + if x.cells == cells then [x] else []
  {
    if xs != [] && xs[|xs| - 1].cells < x.cells {
      var front, last := xs[..|xs| - 1], xs[|xs| - 1];
      InsertIsStable(front, x, cells);
      assert xs == front + [last];
      OfSizeOneMore(front, last, cells);
      OfSizeOneMore(InsertBySize(front, x), last, cells);
      hide OfSize;
    } else {
      OfSizeOneMore(xs, x, cells);
    }
  }

  /** Sorting keeps exactly the blobs large enough, each as often as it was there, and ties in label order. */
  lemma {:induction false} LargeFirstIsStable(blobs: seq<Blob>, minCells: nat)
    ensures multiset(LargeFirst(blobs, minCells)) == multiset(Large(blobs, minCells))
    ensures forall c: nat :: OfSize(LargeFirst(blobs, minCells), c) == if c >= minCells then OfSize(blobs, c) else []
  {
    if blobs != [] {
      var front, last := blobs[..|blobs| - 1], blobs[|blobs| - 1];
      var sorted := LargeFirst(front, minCells);
      LargeFirstIsStable(front, minCells);
      InsertAdds(sorted, last);
      forall c: nat ensures OfSize(InsertBySize(sorted, last), c)
                            == OfSize(sorted, c) + if last.cells == c then [last] else [] {
        InsertIsStable(sorted, last, c);
      }
      hide InsertBySize;
      assert LargeFirst(blobs, minCells) == if last.cells >= minCells then InsertBySize(sorted, last) else sorted;
      assert Large(blobs, minCells) == Large(front, minCells) + if last.cells >= minCells then [last] else [];
      assert forall c: nat :: OfSize(blobs, c) == OfSize(front, c) + if last.cells == c then [last] else [];
      hide LargeFirst, Large, OfSize;
    }
  }

  lemma {:induction false} SizeIsListed(xs: seq<Blob>, cells: nat)
    ensures OfSize(xs, cells) == [] <==> forall i :: 0 <= i < |xs| ==> xs[i].cells != cells
  {
    if xs != [] {
      SizeIsListed(xs[..|xs| - 1], cells);
    }
  }

  lemma SameTail(a: seq<Blob>, b: seq<Blob>, tail: seq<Blob>)
    requires a + tail == b + tail
    ensures a == b
  {
    assert |a| == |a + tail| - |tail| == |b|;
    assert a == (a + tail)[..|a|] == b;
  }

  /** A descending list is known by what it holds of each size. */
  lemma {:induction false} DescendingIsKnown(xs: seq<Blob>, ys: seq<Blob>)
    requires Descending(xs) && Descending(ys) && forall c: nat :: OfSize(xs, c) == OfSize(ys, c)
    ensures xs == ys
  {
    if xs == [] || ys == [] {
      if ys != [] {
        SizeIsListed(ys, ys[|ys| - 1].cells);
      }
      if xs != [] {
        SizeIsListed(xs, xs[|xs| - 1].cells);
      }
    } else {
      var x, y := xs[|xs| - 1], ys[|ys| - 1];
      LastIsSmallest(xs, ys);
      LastIsSmallest(ys, xs);
      assert OfSize(xs, x.cells)[|OfSize(xs, x.cells)| - 1] == x && OfSize(ys, y.cells)[|OfSize(ys, y.cells)| - 1] == y;
      var front, front' := xs[..|xs| - 1], ys[..|ys| - 1];
      assert x == y;
      forall c: nat ensures OfSize(front, c) == OfSize(front', c) {
        assert OfSize(xs, c) == OfSize(ys, c);
        SameTail(OfSize(front, c), OfSize(front', c), if x.cells == c then [x] else []);
      }
      DescendingIsKnown(front, front');
      assert xs == front + [x] && ys == front' + [y];
    }
  }

  lemma LastIsSmallest(xs: seq<Blob>, ys: seq<Blob>)
    requires Descending(ys) && xs != [] && ys != [] && forall c: nat :: OfSize(xs, c) == OfSize(ys, c)
    ensures ys[|ys| - 1].cells <= xs[|xs| - 1].cells
  {
    SizeIsListed(xs, xs[|xs| - 1].cells);
    SizeIsListed(ys, xs[|xs| - 1].cells);
  }

  /** So the sorted list is the only descending one that holds of each size what was there, in label order. */
  lemma LargeFirstIsKnown(blobs: seq<Blob>, minCells: nat, ys: seq<Blob>)
    requires Descending(ys) && forall c: nat :: OfSize(ys, c) == if c >= minCells then OfSize(blobs, c) else []
    ensures ys == LargeFirst(blobs, minCells)
  {
    LargeFirstIsExact(blobs, minCells);
    LargeFirstIsStable(blobs, minCells);
    DescendingIsKnown(ys, LargeFirst(blobs, minCells));
  }

  lemma {:induction false} FrontOfSize(xs: seq<Blob>, ys: seq<Blob>, cells: nat)
    ensures OfSize(xs, cells) <= OfSize(xs + ys, cells)
    decreases |ys|
  {
    if ys == [] {
      assert xs + ys == xs;
    } else {
      FrontOfSize(xs, ys[..|ys| - 1], cells);
      assert (xs + ys)[..|xs + ys| - 1] == xs + ys[..|ys| - 1];
    }
  }

  /** What a descending list leaves out behind some front is no larger than what is in the front. */
  lemma FrontIsLargest(front: seq<Blob>, rest: seq<Blob>, y: Blob, z: Blob)
    requires Descending(front + rest) && multiset(front)[y] < multiset(front + rest)[y] && z in front
    ensures z.cells >= y.cells
  {
    assert multiset(front + rest)[y] == multiset(front)[y] + multiset(rest)[y];
    var i :| 0 <= i < |rest| && rest[i] == y;
    var j :| 0 <= j < |front| && front[j] == z;
    assert (front + rest)[|front| + i] == y && (front + rest)[j] == z;
  }

  /** What is reported: as many of the blobs large enough as asked for, largest first, none more often than it was
      there, of each size the first ones in label order; and nothing left out is larger than anything reported. */
  lemma TopIsLargest(blobs: seq<Blob>, minCells: nat, k: nat)
    ensures var top, large := Top(blobs, minCells, k), Large(blobs, minCells);
            && Descending(top) && |top| == Min(k, |large|) && multiset(top) <= multiset(large)
            && (forall c: nat :: OfSize(top, c) <= OfSize(blobs, c))
            && forall y: Blob, z: Blob :: multiset(top)[y] < multiset(large)[y] && z in top ==> z.cells >= y.cells
  {
    LargeFirstIsExact(blobs, minCells);
    LargeFirstIsStable(blobs, minCells);
    var sorted, top, large := LargeFirst(blobs, minCells), Top(blobs, minCells, k), Large(blobs, minCells);
    var rest := sorted[|top|..];
    assert sorted == top + rest;
    assert |sorted| == |multiset(sorted)| == |large|;
    hide LargeFirst, CountIf, Large, Top, OfSize, Descending;
    forall c: nat ensures OfSize(top, c) <= OfSize(blobs, c) {
      FrontOfSize(top, rest, c);
    }
    forall y: Blob, z: Blob | multiset(top)[y] < multiset(large)[y] && z in top ensures z.cells >= y.cells {
      FrontIsLargest(top, rest, y, z);
    }
    assert Descending(top) by {
      FrontDescends(top, rest);
    }
  }

  lemma FrontDescends(front: seq<Blob>, rest: seq<Blob>)
    requires Descending(front + rest)
    ensures Descending(front)
  {
    assert forall i :: 0 <= i < |front| ==> (front + rest)[i] == front[i];
  }

  function MinCells(t: Thresholds, total: nat): nat {
    Max(3, -((-(t.minAreaPct / 100.0 * total as real)).Floor))
  }

  /** A blob is large enough exactly if it has three cells and the least percentage of all cells. */
  lemma LargeEnoughIff(t: Thresholds, total: nat, n: nat)
    ensures n >= MinCells(t, total) <==> n >= 3 && n as real * 100.0 >= t.minAreaPct * total as real
  {
    var share := t.minAreaPct / 100.0 * total as real;
    assert share * 100.0 == t.minAreaPct * total as real;
    CeilingBelow(share, n);
  }

  lemma CeilingBelow(v: real, n: int)
    ensures n >= -((-v).Floor) <==> n as real >= v
  {
  }

  /** `detect` up to classifying colours: the largest connected regions of indicator-coloured samples. */
  method Detect(t: Thresholds, frame: EdgeFrame) returns (blobs: seq<Blob>)
    requires frame.Valid() && t.maxSampled >= 1
    ensures var f, step := frame.Value(), Stride(frame.width, frame.height, t.maxSampled);
            var sw, sh := Samples(frame.width, step), Samples(frame.height, step);
            && sw >= 1 && ValidGrid(Grid(sw, sh, LitCells(t, f, sw, sh, step)))
            && blobs == Top(ExpectedBlobs(Grid(sw, sh, LitCells(t, f, sw, sh, step)),
                                          Colours(Reds(t, f, sw, sh, step), Greens(t, f, sw, sh, step),
                                                  Blues(t, f, sw, sh, step)), sw * sh),
                            MinCells(t, sw * sh), t.maxIndicators)
  {
    var step := Stride(frame.width, frame.height, t.maxSampled);
    var sw, sh := Samples(frame.width, step), Samples(frame.height, step);
    OneLessFits(frame.width, step);
    OneLessFits(frame.height, step);
    hide Stride, Samples, SampleAt, ExpectedBlobs, Top, MinCells;
    var lit, cellR, cellG, cellB := SampleLit(t, frame, step, sw, sh);
    assert lit.Length == sw * sh;
    var labelled := LabelBlobs(lit, cellR, cellG, cellB, sw, sh);
    blobs := Top(labelled, MinCells(t, sw * sh), t.maxIndicators);
  }
}
