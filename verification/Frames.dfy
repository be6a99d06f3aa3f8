/** On-device image processing before a consented frame is shared: crop, mask, downscale. Frames hold their pixels in
    a row-major array; every operation returns a new frame and leaves its input alone. */
module Frames {
  import opened Basics

  type byte = x: int | 0 <= x <= 255

  datatype Pixel = Pixel(r: byte, g: byte, b: byte, a: byte)

  /** The value of a frame: pixel `i` is in column `i % width` of row `i / width`. */
  datatype Image = Image(width: nat, height: nat, pixels: seq<Pixel>)

  predicate Sized(f: Image) {
    f.width >= 1 && f.height >= 1 && |f.pixels| == f.width * f.height
  }

  // ---------- Rows and columns ----------

  function Idx(w: nat, x: nat, y: nat): nat {
    y * w + x
  }

  function Col(w: nat, i: nat): nat
    requires w >= 1
  {
    i % w
  }

  function Row(w: nat, i: nat): nat
    requires w >= 1
  {
    i / w
  }

  lemma IdxInverts(w: nat, x: nat, y: nat)
    requires x < w
    ensures Col(w, Idx(w, x, y)) == x && Row(w, Idx(w, x, y)) == y
  {
    DivUnique(Idx(w, x, y), w, y, x);
  }

  lemma NoMultipleBetween(d: int, w: int)
    requires w >= 1 && -w < d * w < w
    ensures d == 0
  {
  }

  lemma Divided(i: int, w: int)
    requires w >= 1
    ensures i == (i / w) * w + i % w && 0 <= i % w < w
  {
  }

  lemma DivUnique(i: int, w: int, q: int, r: int)
    requires i == q * w + r && 0 <= r < w
    ensures i / w == q && i % w == r
  {
    Divided(i, w);
    var p, t := i / w, i % w;
    assert (p - q) * w == r - t by {
      Distribute(p, q, w);
    }
    NoMultipleBetween(p - q, w);
  }

  lemma Distribute(p: int, q: int, w: int)
    ensures (p - q) * w == p * w - q * w
  {
  }

  lemma IdxBelow(w: nat, h: nat, x: nat, y: nat)
    requires x < w && y < h
    ensures Idx(w, x, y) < w * h
  {
    assert (y + 1) * w <= h * w;
  }

  lemma ColRow(w: nat, h: nat, i: nat)
    requires w >= 1 && i < w * h
    ensures Col(w, i) < w && Row(w, i) < h && Idx(w, Col(w, i), Row(w, i)) == i
  {
    if Row(w, i) >= h {
      assert Row(w, i) * w >= h * w;
    }
  }

  lemma NextRow(w: nat, y: nat)
    ensures Idx(w, w, y) == Idx(w, 0, y + 1) && Idx(w, 0, 0) == 0
  {
  }

  lemma LastRow(w: nat, h: nat)
    ensures Idx(w, 0, h) == w * h
  {
  }

  /** The pixel at a position; transparent black outside. */
  function Get(f: Image, x: int, y: int): Pixel {
    if 0 <= x < f.width && 0 <= y < f.height && Sized(f) then
      IdxBelow(f.width, f.height, x, y);
      f.pixels[Idx(f.width, x, y)]
    else Pixel(0, 0, 0, 0)
  }

  /** The image with `p(x, y)` at column `x` of row `y`. */
  function Build(w: nat, h: nat, p: (int, int) -> Pixel): (f: Image)
    requires w >= 1 && h >= 1
    ensures f.width == w && f.height == h && Sized(f)
  {
    Image(w, h, seq(w * h, i requires 0 <= i => p(Col(w, i), Row(w, i))))
  }

  lemma BuildGet(w: nat, h: nat, p: (int, int) -> Pixel, x: nat, y: nat)
    requires x < w && y < h
    ensures Get(Build(w, h, p), x, y) == p(x, y)
  {
    IdxBelow(w, h, x, y);
    IdxInverts(w, x, y);
  }

  /** An image is what it shows. */
  lemma SameImage(f: Image, g: Image)
    requires Sized(f) && Sized(g) && f.width == g.width && f.height == g.height
    requires forall x, y :: 0 <= x < f.width && 0 <= y < f.height ==> Get(f, x, y) == Get(g, x, y)
    ensures f == g
  {
    forall i | 0 <= i < |f.pixels| ensures f.pixels[i] == g.pixels[i] {
      ColRow(f.width, f.height, i);
      var x, y := Col(f.width, i), Row(f.width, i);
      assert Get(f, x, y) == Get(g, x, y);
    }
  }

  // ---------- Rectangles ----------

  datatype Rect = Rect(x: real, y: real, width: real, height: real)

  datatype Area = Area(x: nat, y: nat, width: nat, height: nat)

  function Round(v: real): int {
    (v + 0.5).Floor
  }

  function Clamp(v: int, lo: int, hi: int): int {
    var m := if v < lo then lo else v;
    if m > hi then hi else m
  }

  function ClampRect(rect: Rect, w: nat, h: nat): (r: Area)
    ensures r.x + r.width <= w && r.y + r.height <= h
  {
    var x0, y0 := Clamp(Round(rect.x), 0, w), Clamp(Round(rect.y), 0, h);
    var x1, y1 := Clamp(Round(rect.x + rect.width), x0, w), Clamp(Round(rect.y + rect.height), y0, h);
    Area(x0, y0, x1 - x0, y1 - y0)
  }

  predicate Inside(r: Area, x: int, y: int) {
    r.x <= x < r.x + r.width && r.y <= y < r.y + r.height
  }

  /** Rounding is to the nearest whole number, and up when two are equally near. */
  lemma RoundIsNearest(v: real, n: int)
    ensures Round(v) == n <==> n as real - 0.5 <= v < n as real + 0.5
  {
  }

  /** Clamping keeps exactly the frame's pixels whose centre lies in the rectangle, its right and lower edge included,
      its left and upper edge not. */
  lemma ClampIsExact(rect: Rect, w: nat, h: nat, x: int, y: int)
    ensures Inside(ClampRect(rect, w, h), x, y) <==>
              && 0 <= x < w && 0 <= y < h
              && rect.x < x as real + 0.5 <= rect.x + rect.width
              && rect.y < y as real + 0.5 <= rect.y + rect.height
  {
    RoundIsBelow(rect.x, x);
    RoundIsBelow(rect.x + rect.width, x);
    RoundIsBelow(rect.y, y);
    RoundIsBelow(rect.y + rect.height, y);
    hide Round;
  }

  lemma RoundIsBelow(v: real, n: int)
    ensures Round(v) <= n <==> v < n as real + 0.5
  {
  }

  // ---------- Sums and means ----------

  datatype Sums = Sums(r: int, g: int, b: int, a: int)

  function Add(s: Sums, p: Pixel): Sums {
    Sums(s.r + p.r, s.g + p.g, s.b + p.b, s.a + p.a)
  }

  function RowSum(f: Image, y: int, x0: int, x1: int, start: Sums): Sums
    decreases x1 - x0
  {
    if x1 <= x0 then start else Add(RowSum(f, y, x0, x1 - 1, start), Get(f, x1 - 1, y))
  }

  /** The channel sums over columns `x0` to `x1` of rows `y0` to `y1`. */
  function BoxSum(f: Image, x0: int, x1: int, y0: int, y1: int): Sums
    decreases y1 - y0
  {
    if y1 <= y0 then Sums(0, 0, 0, 0) else RowSum(f, y1 - 1, x0, x1, BoxSum(f, x0, x1, y0, y1 - 1))
  }

  /** What a clamped byte array stores for the quotient: the nearest integer, ties to even, within range. */
  function StoredMean(sum: int, n: int): byte
    requires n >= 1
  {
    var q, rem := sum / n, sum % n;
    var v := if 2 * rem < n || (2 * rem == n && q % 2 == 0) then q else q + 1;
    Clamp(v, 0, 255)
  }

  /** The stored mean is a nearest whole number to the quotient, and the even one when two are equally near. */
  lemma StoredMeanIsNearest(sum: int, n: int)
    requires n >= 1 && 0 <= sum <= 255 * n
    ensures var off := 2 * (n * (StoredMean(sum, n) as int) - sum);
            -n <= off <= n && (off == n || off == -n ==> StoredMean(sum, n) % 2 == 0)
  {
    hide StoredMean;
    var q, rem, v := sum / n, sum % n, StoredMean(sum, n) as int;
    SplitsAs(sum, n);
    QuotientFits(sum, n, q, rem);
    StoredMeanIs(sum, n);
    OneMoreTimes(n, q, v);
    NearestByParts(n * q, rem, n, n * v, q, v);
  }

  lemma SplitsAs(sum: int, n: int)
    requires n >= 1
    ensures sum == n * (sum / n) + sum % n && 0 <= sum % n < n
  {
  }

  /** Rounding, with the products by `n` as they are. */
  lemma NearestByParts(nq: int, rem: int, n: int, nv: int, q: int, v: int)
    requires 0 <= rem < n && v == (if 2 * rem < n || (2 * rem == n && q % 2 == 0) then q else q + 1)
    requires nv == nq + if v == q then 0 else n
    ensures var off := 2 * (nv - (nq + rem)); -n <= off <= n && (off == n || off == -n ==> v % 2 == 0)
  {
  }

  lemma StoredMeanIs(sum: int, n: int)
    requires n >= 1 && 0 <= sum / n <= 255 && (sum / n == 255 ==> sum % n == 0)
    ensures var q, rem := sum / n, sum % n;
            StoredMean(sum, n) as int == if 2 * rem < n || (2 * rem == n && q % 2 == 0) then q else q + 1
  {
  }

  lemma OneMoreTimes(n: int, q: int, v: int)
    requires v == q || v == q + 1
    ensures n * v == n * q + if v == q then 0 else n
  {
  }

  lemma QuotientFits(sum: int, n: int, q: int, rem: int)
    requires n >= 1 && 0 <= sum <= 255 * n && sum == n * q + rem && 0 <= rem < n
    ensures 0 <= q <= 255 && (q == 255 ==> rem == 0)
  {
    TimesOutside(n, q);
  }

  lemma TimesOutside(n: int, q: int)
    requires n >= 1
    ensures (q >= 256 ==> n * q >= 256 * n) && (q < 0 ==> n * q <= -n)
  {
  }

  function MeanPixel(s: Sums, n: int): Pixel
    requires n >= 1
  {
    Pixel(StoredMean(s.r, n), StoredMean(s.g, n), StoredMean(s.b, n), StoredMean(s.a, n))
  }

  predicate Between(lo: Pixel, p: Pixel, hi: Pixel) {
    lo.r <= p.r <= hi.r && lo.g <= p.g <= hi.g && lo.b <= p.b <= hi.b && lo.a <= p.a <= hi.a
  }

  predicate SumsBetween(lo: Pixel, s: Sums, hi: Pixel, n: int) {
    && lo.r * n <= s.r <= hi.r * n && lo.g * n <= s.g <= hi.g * n
    && lo.b * n <= s.b <= hi.b * n && lo.a * n <= s.a <= hi.a * n
  }

  lemma OneMore(v: int, n: int)
    ensures v * (n + 1) == v * n + v
  {
  }

  lemma AddBetween(lo: Pixel, s: Sums, hi: Pixel, p: Pixel, n: int)
    requires SumsBetween(lo, s, hi, n) && Between(lo, p, hi)
    ensures SumsBetween(lo, Add(s, p), hi, n + 1)
  {
    OneMore(lo.r, n);
    OneMore(lo.g, n);
    OneMore(lo.b, n);
    OneMore(lo.a, n);
    OneMore(hi.r, n);
    OneMore(hi.g, n);
    OneMore(hi.b, n);
    OneMore(hi.a, n);
  }

  lemma {:induction false} RowSumBetween(f: Image, y: int, x0: int, x1: int, start: Sums, lo: Pixel, hi: Pixel, m: int)
    requires x0 <= x1 && SumsBetween(lo, start, hi, m)
    requires forall x :: x0 <= x < x1 ==> Between(lo, Get(f, x, y), hi)
    ensures SumsBetween(lo, RowSum(f, y, x0, x1, start), hi, m + (x1 - x0))
    decreases x1 - x0
  {
    hide Get, SumsBetween, Between, Add;
    if x0 < x1 {
      RowSumBetween(f, y, x0, x1 - 1, start, lo, hi, m);
      AddBetween(lo, RowSum(f, y, x0, x1 - 1, start), hi, Get(f, x1 - 1, y), m + (x1 - 1 - x0));
    }
  }

  lemma {:induction false} BoxSumBetween(f: Image, x0: int, x1: int, y0: int, y1: int, lo: Pixel, hi: Pixel)
    requires x0 <= x1 && y0 <= y1
    requires forall x, y :: x0 <= x < x1 && y0 <= y < y1 ==> Between(lo, Get(f, x, y), hi)
    ensures SumsBetween(lo, BoxSum(f, x0, x1, y0, y1), hi, (y1 - y0) * (x1 - x0))
    decreases y1 - y0
  {
    hide Get, RowSum, Between, SumsBetween;
    if y0 < y1 {
      BoxSumBetween(f, x0, x1, y0, y1 - 1, lo, hi);
      RowSumBetween(f, y1 - 1, x0, x1, BoxSum(f, x0, x1, y0, y1 - 1), lo, hi, (y1 - 1 - y0) * (x1 - x0));
      Stack(y1 - y0, x1 - x0);
    } else {
      assert (y1 - y0) * (x1 - x0) == 0;
      ZeroBetween(lo, hi);
    }
  }

  lemma Stack(a: int, b: int)
    ensures (a - 1) * b + b == a * b
  {
  }

  lemma ZeroBetween(lo: Pixel, hi: Pixel)
    ensures SumsBetween(lo, Sums(0, 0, 0, 0), hi, 0)
  {
  }

  lemma MulMono(a: int, b: int, n: int)
    requires a <= b && n >= 0
    ensures a * n <= b * n
  {
  }

  lemma QuotientAtLeast(sum: int, n: int, lo: int)
    requires n >= 1 && lo * n <= sum
    ensures lo <= sum / n
  {
    Divided(sum, n);
    var q := sum / n;
    if q <= lo - 1 {
      MulMono(q, lo - 1, n);
      Distribute(lo, 1, n);
      assert false;
    }
  }

  lemma QuotientAtMost(sum: int, n: int, hi: int)
    requires n >= 1 && sum <= hi * n
    ensures sum / n <= hi && (sum / n == hi ==> sum % n == 0)
  {
    Divided(sum, n);
    var q := sum / n;
    if q >= hi + 1 {
      MulMono(hi + 1, q, n);
      Distribute(hi, -1, n);
      assert false;
    }
  }

  lemma PosProduct(a: int, b: int)
    requires a >= 1 && b >= 1
    ensures a * b >= 1
  {
  }

  lemma MeanBetween(sum: int, n: int, lo: byte, hi: byte)
    requires n >= 1 && lo * n <= sum <= hi * n
    ensures lo <= StoredMean(sum, n) <= hi
  {
    QuotientAtLeast(sum, n, lo);
    QuotientAtMost(sum, n, hi);
  }

  /** Every channel of a box's mean lies between the least and the greatest in the box. */
  lemma MeanOfBoxBetween(f: Image, x0: int, x1: int, y0: int, y1: int, lo: Pixel, hi: Pixel)
    requires x0 < x1 && y0 < y1
    requires forall x, y :: x0 <= x < x1 && y0 <= y < y1 ==> Between(lo, Get(f, x, y), hi)
    ensures (y1 - y0) * (x1 - x0) >= 1
    ensures Between(lo, MeanPixel(BoxSum(f, x0, x1, y0, y1), (y1 - y0) * (x1 - x0)), hi)
  {
    var s, n := BoxSum(f, x0, x1, y0, y1), (y1 - y0) * (x1 - x0);
    BoxSumBetween(f, x0, x1, y0, y1, lo, hi);
    PosProduct(y1 - y0, x1 - x0);
    hide BoxSum, StoredMean, Get;
    MeanBetween(s.r, n, lo.r, hi.r);
    MeanBetween(s.g, n, lo.g, hi.g);
    MeanBetween(s.b, n, lo.b, hi.b);
    MeanBetween(s.a, n, lo.a, hi.a);
  }

  /** Sums depend only on the pixels in the box. */
  lemma {:induction false} BoxSumDepends(f: Image, g: Image, x0: int, x1: int, y0: int, y1: int)
    requires forall x, y :: x0 <= x < x1 && y0 <= y < y1 ==> Get(f, x, y) == Get(g, x, y)
    ensures BoxSum(f, x0, x1, y0, y1) == BoxSum(g, x0, x1, y0, y1)
    decreases y1 - y0
  {
    hide Get, RowSum;
    if y0 < y1 {
      BoxSumDepends(f, g, x0, x1, y0, y1 - 1);
      RowSumDepends(f, g, y1 - 1, x0, x1, BoxSum(f, x0, x1, y0, y1 - 1));
    }
  }

  lemma {:induction false} RowSumDepends(f: Image, g: Image, y: int, x0: int, x1: int, start: Sums)
    requires forall x :: x0 <= x < x1 ==> Get(f, x, y) == Get(g, x, y)
    ensures RowSum(f, y, x0, x1, start) == RowSum(g, y, x0, x1, start)
    decreases x1 - x0
  {
    hide Get;
    if x0 < x1 {
      RowSumDepends(f, g, y, x0, x1 - 1, start);
    }
  }
}
