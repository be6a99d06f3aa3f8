/** The strided sampling grids of the frame analyzer and the LED detector: how coarse they are, which pixels they
    read, and what is reported from them. */
module Sampling {
  import opened Basics
  import opened Frames
  import opened FrameProcessing
  import FloodFill

  // ---------- The stride ----------

  /** The largest `s <= bound` with `s * s * m <= area`: floor(sqrt(area / m)) when `bound` is large enough. */
  function RootBelow(area: nat, m: nat, bound: nat): (s: nat)
    ensures s <= bound && (s == 0 || s * s * m <= area)
    ensures forall t: nat :: s < t <= bound ==> t * t * m > area
  {
    if bound == 0 || bound * bound * m <= area then bound else RootBelow(area, m, bound - 1)
  }

  function Stride(w: nat, h: nat, maxSampled: nat): nat
    requires maxSampled >= 1
  {
    Max(1, RootBelow(w * h, maxSampled, w * h))
  }

  /** How many samples a stride takes from `size` lines. */
  function Samples(size: nat, step: nat): nat
    requires step >= 1
  {
    (size + step - 1) / step
  }

  lemma RootIsMaximal(area: nat, m: nat, s: nat)
    requires m >= 1 && s == RootBelow(area, m, area)
    ensures (s + 1) * (s + 1) * m > area
  {
    if s + 1 > area {
      MulMono(1, s + 1, s + 1);
      MulMono(1, m, (s + 1) * (s + 1));
    }
  }

  /** The strided loop makes exactly `Samples` rounds. */
  lemma Rounds(size: nat, step: nat, k: nat)
    requires step >= 1
    ensures Offset(0, step, k) < size <==> k < Samples(size, step)
  {
    var n := Samples(size, step);
    Divided(size + step - 1, step);
    if k < n {
      MulMono(k + 1, n, step);
      OneMore(step, k);
    } else {
      MulMono(n, k, step);
    }
  }

  lemma OneLessFits(size: nat, step: nat)
    requires step >= 1 && size >= 1
    ensures Samples(size, step) >= 1 && (Samples(size, step) - 1) * step <= size - 1
  {
    Rounds(size, step, 0);
    Rounds(size, step, Samples(size, step) - 1);
  }

  /** The grid may exceed the requested number of samples, but never by a factor of four beyond its last row and
      column. */
  lemma GridIsBounded(w: nat, h: nat, maxSampled: nat)
    requires w >= 1 && h >= 1 && maxSampled >= 1
    ensures var step := Stride(w, h, maxSampled); (Samples(w, step) - 1) * (Samples(h, step) - 1) < 4 * maxSampled
  {
    var step := Stride(w, h, maxSampled);
    var s := RootBelow(w * h, maxSampled, w * h);
    var a, b := Samples(w, step) - 1, Samples(h, step) - 1;
    OneLessFits(w, step);
    OneLessFits(h, step);
    RootIsMaximal(w * h, maxSampled, s);
    FourTimes(a, b, step, s, maxSampled, w, h);
  }

  lemma FourTimes(a: nat, b: nat, step: nat, s: nat, m: nat, w: nat, h: nat)
    requires step >= 1 && s <= step && w >= 1 && h >= 1
    requires a * step <= w - 1 && b * step <= h - 1 && w * h < (s + 1) * (s + 1) * m
    ensures a * b < 4 * m
  {
    var left, right := a * b, 4 * m;
    assert left * (step * step) < right * (step * step) by {
      calc {
        left * (step * step);
      ==  { Rearrange(a, b, step); }
        (a * step) * (b * step);
      <=  {
            MulMono(a * step, w - 1, b * step);
            MulMono(b * step, h - 1, w - 1);
            Swap(w - 1, b * step);
            Swap(w - 1, h - 1);
          }
        (w - 1) * (h - 1);
      <=  { Shrink(w, h); }
        w * h;
      <
        (s + 1) * (s + 1) * m;
      <=  { SquareStep(s, step); MulMono((s + 1) * (s + 1), 4 * (step * step), m); }
        4 * (step * step) * m;
      ==  { Regroup(step * step, m); }
        right * (step * step);
      }
    }
    if left >= right {
      MulMono(right, left, step * step);
    }
  }

  lemma Rearrange(a: int, b: int, c: int)
    ensures (a * b) * (c * c) == (a * c) * (b * c)
  {
  }

  lemma Swap(a: int, b: int)
    ensures a * b == b * a
  {
  }

  lemma Shrink(w: nat, h: nat)
    requires w >= 1 && h >= 1
    ensures (w - 1) * (h - 1) <= w * h
  {
    MulMono(w - 1, w, h - 1);
    MulMono(h - 1, h, w);
    Swap(w, h - 1);
    Swap(w, h);
  }

  lemma SquareStep(s: nat, step: nat)
    requires step >= 1 && s <= step
    ensures (s + 1) * (s + 1) <= 4 * (step * step)
  {
    MulMono(s + 1, 2 * step, s + 1);
    MulMono(s + 1, 2 * step, 2 * step);
    Swap(s + 1, 2 * step);
  }

  lemma Regroup(c: int, m: int)
    ensures 4 * c * m == (4 * m) * c
  {
  }

  /** Samples cover every line, without a remainder exactly when the stride divides the lines. */
  lemma SamplesCover(size: nat, step: nat)
    requires step >= 1
    ensures Samples(size, step) * step >= size
    ensures Samples(size, step) * step == size <==> size % step == 0
  {
    var n := Samples(size, step);
    Divided(size + step - 1, step);
    Divided(size, step);
    if size % step == 0 {
      QuotientAtLeast(size + step - 1, step, size / step);
      QuotientBelow(size + step - 1, step, size / step + 1) by {
        OneMore(step, size / step);
      }
    }
    if n * step == size {
      DivUnique(size, step, n, 0);
    }
  }

  /** Two factors at least `a` and `b` with the product of `a` and `b` are `a` and `b`. */
  lemma FactorsMeet(x: nat, y: nat, a: nat, b: nat)
    requires x >= a >= 1 && y >= b >= 1 && x * y == a * b
    ensures x == a && y == b
  {
    if x > a {
      MulMono(a + 1, x, y);
      MulMono(b, y, a + 1);
      Swap(a + 1, y);
      Swap(a + 1, b);
    } else if y > b {
      MulMono(b + 1, y, a);
      Swap(a, y);
      Swap(b + 1, a);
    }
  }

  /** The stride is 1, or its square times the request fits in the frame. */
  lemma StrideFits(w: nat, h: nat, m: nat)
    requires w >= 1 && h >= 1 && m >= 1
    ensures var s := Stride(w, h, m); s == 1 || s * s * m <= w * h
    ensures w * h <= m ==> Stride(w, h, m) == 1
  {
    var s := RootBelow(w * h, m, w * h);
    if w * h <= m && s >= 2 {
      FourOrMore(s, m);
    }
  }

  /** Samples taken and the frame they are taken from, in units of the stride squared. */
  lemma SampledArea(w: nat, h: nat, s: nat)
    requires w >= 1 && h >= 1 && s >= 1
    ensures var n := Samples(w, s) * Samples(h, s);
            && n * (s * s) == (Samples(w, s) * s) * (Samples(h, s) * s) >= w * h
            && (n * (s * s) == w * h <==> w % s == 0 && h % s == 0)
  {
    var x, y := Samples(w, s) * s, Samples(h, s) * s;
    SamplesCover(w, s);
    SamplesCover(h, s);
    Rearrange(Samples(w, s), Samples(h, s), s);
    MulMono(w, x, h);
    MulMono(h, y, x);
    Swap(h, x);
    Swap(y, x);
    if x * y == w * h {
      FactorsMeet(x, y, w, h);
    }
  }

  lemma CancelSquare(a: int, b: int, c: int)
    requires c >= 1
    ensures a * c <= b * c <==> a <= b
    ensures a * c == b * c <==> a == b
  {
    if a > b {
      MulMono(b + 1, a, c);
    } else {
      MulMono(a, b, c);
      if a < b {
        MulMono(a + 1, b, c);
      }
    }
  }

  /** When the requested number of samples does bound the samples taken: if the whole frame fits, or if the stride
      divides both edges and the request is met to the sample. */
  lemma RequestHoldsIff(w: nat, h: nat, m: nat)
    requires w >= 1 && h >= 1 && m >= 1
    ensures var s := Stride(w, h, m);
            Samples(w, s) * Samples(h, s) <= m <==>
              w * h <= m || (w % s == 0 && h % s == 0 && w * h == s * s * m)
  {
    var s := Stride(w, h, m);
    var n := Samples(w, s) * Samples(h, s);
    StrideFits(w, h, m);
    SampledArea(w, h, s);
    PosProduct(s, s);
    CancelSquare(n, m, s * s);
    Swap(m, s * s);
    hide Stride, Samples;
    if s == 1 {
      assert n * (1 * 1) == n;
    }
  }

  /** The request itself is not a bound: a thousand by a thousand pixels are all sampled when 300000 were asked for. */
  lemma RequestIsExceeded()
    ensures Stride(1000, 1000, 300_000) == 1 && Samples(1000, 1) * Samples(1000, 1) > 300_000
  {
    var s := RootBelow(1_000_000, 300_000, 1_000_000);
    if s >= 2 {
      FourOrMore(s, 300_000);
      assert false;
    }
  }

  lemma FourOrMore(s: nat, m: nat)
    requires s >= 2
    ensures s * s * m >= 4 * m
  {
    MulMono(2, s, s);
    MulMono(4, s * s, m);
  }

  // ---------- The sampled grid ----------

  /** Luma in thousandths. */
  function Luma(p: Pixel): int {
    299 * p.r + 587 * p.g + 114 * p.b
  }

  /** The weights add up to one, so any colour is as bright as something between its darkest and its brightest channel;
      full green counts most, then red, then blue. */
  lemma LumaIsWeighted(p: Pixel, lo: int, hi: int)
    requires lo <= p.r <= hi && lo <= p.g <= hi && lo <= p.b <= hi
    ensures 1000 * lo <= Luma(p) <= 1000 * hi
    ensures Luma(Pixel(255, 0, 0, p.a)) == 76_245 && Luma(Pixel(0, 255, 0, p.a)) == 149_685
            && Luma(Pixel(0, 0, 255, p.a)) == 29_070
  {
  }

  function SampleAt(f: Image, sw: nat, step: nat, i: nat): Pixel
    requires sw >= 1
  {
    Get(f, Offset(0, step, Col(sw, i)), Offset(0, step, Row(sw, i)))
  }

  /** Cell `i` of the grid shows the pixel `step` columns per column and `step` rows per row away. */
  function SampledLuma(f: Image, sw: nat, sh: nat, step: nat): seq<int>
    requires sw >= 1
  {
    seq(sw * sh, i requires 0 <= i => Luma(SampleAt(f, sw, step, i)))
  }

  datatype Stats = Stats(count: nat, sum: int, sumSq: int, high: nat, low: nat, bright: nat, min: int, max: int)

  function Tally(s: Stats, l: int): Stats {
    Stats(s.count + 1, s.sum + l, s.sumSq + l * l,
          s.high + (if l >= 250_000 then 1 else 0), s.low + (if l <= 5_000 then 1 else 0),
          s.bright + (if l >= 235_000 then 1 else 0),
          if l < s.min then l else s.min, if l > s.max then l else s.max)
  }

  function StatsOf(ls: seq<int>): Stats {
    if ls == [] then Stats(0, 0, 0, 0, 0, 0, 255_000, 0) else Tally(StatsOf(ls[..|ls| - 1]), ls[|ls| - 1])
  }

  function Total(ls: seq<int>): int {
    if ls == [] then 0 else ls[0] + Total(ls[1..])
  }

  function Squares(ls: seq<int>): (r: seq<int>)
    ensures |r| == |ls| && forall i :: 0 <= i < |ls| ==> r[i] == ls[i] * ls[i]
  {
    seq(|ls|, i requires 0 <= i < |ls| => ls[i] * ls[i])
  }

  lemma {:induction false} TotalOfOneMore(ls: seq<int>, l: int)
    ensures Total(ls + [l]) == Total(ls) + l
  {
    if ls != [] {
      assert (ls + [l])[1..] == ls[1..] + [l];
      TotalOfOneMore(ls[1..], l);
    }
  }

  /** Samples and their squares are added up. */
  lemma {:induction false} SumsAreExact(ls: seq<int>)
    ensures StatsOf(ls).sum == Total(ls) && StatsOf(ls).sumSq == Total(Squares(ls))
  {
    if ls != [] {
      var front, last := ls[..|ls| - 1], ls[|ls| - 1];
      SumsAreExact(front);
      assert ls == front + [last] && Squares(ls) == Squares(front) + [last * last];
      TotalOfOneMore(front, last);
      TotalOfOneMore(Squares(front), last * last);
    }
  }

  /** Over at least one sample the extremes are attained, and each threshold is counted. */
  lemma {:induction false} StatsAreExact(ls: seq<int>)
    requires ls != [] && forall i :: 0 <= i < |ls| ==> 0 <= ls[i] <= 255_000
    ensures var s := StatsOf(ls);
            && s.count == |ls| && s.min in ls && s.max in ls && (forall i :: 0 <= i < |ls| ==> s.min <= ls[i] <= s.max)
            && s.high == CountIf(ls, (l: int) => l >= 250_000) && s.low == CountIf(ls, (l: int) => l <= 5_000)
            && s.bright == CountIf(ls, (l: int) => l >= 235_000)
  {
    var front, last := ls[..|ls| - 1], ls[|ls| - 1];
    assert last in ls;
    if front != [] {
      StatsAreExact(front);
      assert forall l :: l in front ==> l in ls;
    } else {
      assert ls == [last];
    }
  }

  /** The analyzer's sampling loop: one linear counter, every cell written once, all statistics of the grid. */
  method SampleLuma(frame: EdgeFrame, maxSampled: nat) returns (luma: array<int>, sw: nat, sh: nat, stats: Stats)
    requires frame.Valid() && maxSampled >= 1
    ensures var step := Stride(frame.width, frame.height, maxSampled);
            && sw == Samples(frame.width, step) >= 1 && sh == Samples(frame.height, step) >= 1
            && fresh(luma) && luma[..] == SampledLuma(frame.Value(), sw, sh, step) && stats == StatsOf(luma[..])
            && stats.count == sw * sh
  {
    var step := Stride(frame.width, frame.height, maxSampled);
    sw, sh := Samples(frame.width, step), Samples(frame.height, step);
    OneLessFits(frame.width, step);
    OneLessFits(frame.height, step);
    hide Stride, Samples, RootBelow, Idx, Offset, Get, Luma, Tally, SampleAt;
    luma := new int[sw * sh];
    ghost var f := frame.Value();
    ghost var target := SampledLuma(f, sw, sh, step);
    stats := StatsOf([]);
    var gi := 0;
    var y := 0;
    ghost var gy: nat := 0;
    NextOffset(0, step, 0);
    NextRow(sw, 0);
    while y < frame.height
      invariant y == Offset(0, step, gy) && gi == Idx(sw, 0, gy) <= luma.Length
      invariant SampledTo(luma[..], target, gi, stats)
    {
      Rounds(frame.height, step, gy);
      RowFits(sw, sh, gy);
      gi, stats := SampleRow(frame, step, sw, sh, luma, gi, stats, y, gy, f);
      NextOffset(0, step, gy);
      y := y + step;
      gy := gy + 1;
    }
    AllRows(frame.height, step, gy, sw, sh);
    hide StatsOf, SampledLuma, SampleAt;
    assert target[..|target|] == target && luma[..][..luma.Length] == luma[..];
    CountOf(luma[..]);
  }

  lemma AllRows(height: nat, step: nat, gy: nat, sw: nat, sh: nat)
    requires step >= 1 && sh == Samples(height, step) && Offset(0, step, gy) >= height && Idx(sw, 0, gy) <= sw * sh
    requires sw >= 1
    ensures Idx(sw, 0, gy) == sw * sh
  {
    Rounds(height, step, gy);
    MulMono(sh, gy, sw);
    Swap(sw, sh);
  }

  lemma {:induction false} CountOf(ls: seq<int>)
    ensures StatsOf(ls).count == |ls|
  {
    if ls != [] {
      CountOf(ls[..|ls| - 1]);
    }
  }

  ghost predicate SampledTo(luma: seq<int>, target: seq<int>, n: nat, stats: Stats) {
    n <= |luma| == |target| && luma[..n] == target[..n] && stats == StatsOf(target[..n])
  }

  method SampleRow(frame: EdgeFrame, step: nat, sw: nat, sh: nat, luma: array<int>, gi0: nat, stats0: Stats, y: nat,
                   ghost gy: nat, ghost f: Image)
    returns (gi: nat, stats: Stats)
    requires frame.Valid() && f == frame.Value() && step >= 1 && sw >= 1 && sw == Samples(frame.width, step)
    requires y == Offset(0, step, gy) < frame.height && gi0 == Idx(sw, 0, gy)
    requires gi0 + sw == Idx(sw, 0, gy + 1) <= luma.Length == sw * sh
    requires SampledTo(luma[..], SampledLuma(f, sw, sh, step), gi0, stats0)
    modifies luma
    ensures gi == Idx(sw, 0, gy + 1) && SampledTo(luma[..], SampledLuma(f, sw, sh, step), gi, stats)
  {
    gi, stats := gi0, stats0;
    ghost var target := SampledLuma(f, sw, sh, step);
    ghost var gx: nat := 0;
    var x := 0;
    hide Samples, Idx, Offset, Get, Luma, Tally, Row, Col;
    NextOffset(0, step, 0);
    Rounds(frame.width, step, 0);
    while x < frame.width
      invariant x == Offset(0, step, gx) && gx <= sw && gi == gi0 + gx == Idx(sw, gx, gy)
      invariant SampledTo(luma[..], target, gi, stats)
    {
      Rounds(frame.width, step, gx);
      IdxInverts(sw, gx, gy);
      var p := frame.At(x, y);
      assert target[gi] == Luma(p);
      ghost var before := luma[..];
      luma[gi] := Luma(p);
      stats := Tally(stats, Luma(p));
      OneMoreSample(before, luma[..], target, gi, stats);
      NextColumn(sw, gx, gy);
      NextOffset(0, step, gx);
      gi, x := gi + 1, x + step;
      gx := gx + 1;
      Rounds(frame.width, step, gx - 1);
    }
    Rounds(frame.width, step, gx);
  }

  lemma OneMoreSample(luma: seq<int>, luma': seq<int>, target: seq<int>, n: nat, stats: Stats)
    requires n < |luma| == |target| && luma[..n] == target[..n] && luma' == luma[n := target[n]]
    requires stats == Tally(StatsOf(target[..n]), target[n])
    ensures SampledTo(luma', target, n + 1, stats)
  {
    assert target[..n + 1][..n] == target[..n];
    assert luma'[..n + 1] == luma[..n] + [target[n]];
    assert target[..n + 1] == target[..n] + [target[n]];
  }
}
