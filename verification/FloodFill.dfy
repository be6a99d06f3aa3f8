/** Connected-component labelling of the lit cells of a sampled grid: an iterative flood fill with an explicit
    stack, used to find LED blobs and the largest glare hotspot. The specification never mentions a stack: a
    component is the set of cells a path of lit 4-neighbours reaches. */
module FloodFill {

  // ---------- Grid and reachability ----------

  /** A row-major grid of `sw * sh` cells; cell `p` is at column `p % sw`, row `p / sw`. */
  datatype Grid = Grid(sw: nat, sh: nat, lit: seq<bool>)

  predicate ValidGrid(g: Grid) {
    g.sw >= 1 && |g.lit| == g.sw * g.sh
  }

  function Distance(a: int, b: int): nat {
    if a <= b then b - a else a - b
  }

  /** The 4-neighbourhood, by coordinates. */
  predicate Adjacent(p: nat, q: nat, sw: nat)
    requires sw >= 1
  {
    Distance(p % sw, q % sw) + Distance(p / sw, q / sw) == 1
  }

  predicate IsLit(g: Grid, p: nat) {
    p < |g.lit| && g.lit[p]
  }

  predicate Linked(g: Grid, p: nat, q: nat)
    requires ValidGrid(g)
  {
    IsLit(g, p) && IsLit(g, q) && Adjacent(p, q, g.sw)
  }

  ghost function LinksOf(g: Grid, p: nat): set<int>
    requires ValidGrid(g)
  {
    set q: int | 0 <= q < |g.lit| && Linked(g, p, q)
  }

  ghost predicate IsPath(g: Grid, path: seq<nat>)
    requires ValidGrid(g)
  {
    && path != []
    && IsLit(g, path[0])
    && forall i :: 0 <= i < |path| - 1 ==> Linked(g, path[i], path[i + 1])
  }

  ghost predicate Reaches(g: Grid, p: nat, q: nat)
    requires ValidGrid(g)
  {
    exists path: seq<nat> :: IsPath(g, path) && path[0] == p && path[|path| - 1] == q
  }

  /** The cells reachable from `p` through lit neighbours (empty when `p` is dark). */
  ghost function Component(g: Grid, p: nat): set<nat>
    requires ValidGrid(g)
  {
    set q: nat | q < |g.lit| && Reaches(g, p, q)
  }

  ghost predicate ClosedUnderLinks(g: Grid, s: set<nat>)
    requires ValidGrid(g)
  {
    forall p, q :: p in s && Linked(g, p, q) ==> q in s
  }

  lemma MulStep(d: int, sw: nat)
    ensures d >= 1 ==> d * sw >= sw
    ensures d <= -1 ==> d * sw <= -(sw as int)
  {
  }

  lemma DivModUnique(q: nat, sw: nat, x: nat, y: int)
    requires x < sw && q == y * sw + x
    ensures q / sw == y && q % sw == x
  {
    assert q == (q / sw) * sw + q % sw;
    MulStep(q / sw - y, sw);
  }

  lemma RowInRange(g: Grid, p: nat)
    requires ValidGrid(g) && p < |g.lit|
    ensures p / g.sw < g.sh
  {
    assert p == (p / g.sw) * g.sw + p % g.sw;
    MulStep(g.sh - p / g.sw, g.sw);
    assert (g.sh - p / g.sw) * g.sw == |g.lit| - (p / g.sw) * g.sw;
  }

  lemma IndexInRange(g: Grid, x: nat, y: nat)
    requires ValidGrid(g) && x < g.sw && y < g.sh
    ensures y * g.sw + x < |g.lit|
  {
    MulStep(g.sh - y, g.sw);
    assert (g.sh - y) * g.sw == |g.lit| - y * g.sw;
  }

  /** The offsets the fill tries, each behind its own border check. */
  predicate IsOffset(g: Grid, p: nat, q: nat)
    requires ValidGrid(g)
  {
    || (p % g.sw > 0 && q == p - 1)
    || (p % g.sw < g.sw - 1 && q == p + 1)
    || (p / g.sw > 0 && q == p - g.sw)
    || (p / g.sw < g.sh - 1 && q == p + g.sw)
  }

  lemma NeighbourIndex(sw: nat, x: int, y: int, u: int, v: int)
    requires Distance(x, u) + Distance(y, v) == 1
    ensures v * sw + u - (y * sw + x) == if v == y then u - x else if v == y + 1 then sw else -(sw as int)
  {
    assert (y + 1) * sw == y * sw + sw && (y - 1) * sw == y * sw - sw;
  }

  lemma IndexDifference(p: nat, q: nat, sw: nat)
    requires sw >= 1 && Adjacent(p, q, sw)
    ensures q - p == if q / sw == p / sw then q % sw - p % sw else if q / sw == p / sw + 1 then sw else -(sw as int)
  {
    NeighbourIndex(sw, p % sw, p / sw, q % sw, q / sw);
    hide *;
    assert p == (p / sw) * sw + p % sw;
    assert q == (q / sw) * sw + q % sw;
  }

  lemma AdjacentIsOffset(g: Grid, p: nat, q: nat)
    requires ValidGrid(g) && p < |g.lit| && q < |g.lit| && Adjacent(p, q, g.sw)
    ensures IsOffset(g, p, q)
  {
    RowInRange(g, q);
    hide ValidGrid;
    IndexDifference(p, q, g.sw);
  }

  lemma OffsetIsAdjacent(g: Grid, p: nat, q: nat)
    requires ValidGrid(g) && p < |g.lit| && IsOffset(g, p, q)
    ensures q < |g.lit| && Adjacent(p, q, g.sw)
  {
    var sw, x, y := g.sw, p % g.sw, p / g.sw;
    assert p == y * sw + x;
    RowInRange(g, p);
    assert (y + 1) * sw == y * sw + sw && (y - 1) * sw == y * sw - sw;
    var u, v :=
      if x > 0 && q == p - 1 then x - 1 else if x < sw - 1 && q == p + 1 then x + 1 else x,
      if (x > 0 && q == p - 1) || (x < sw - 1 && q == p + 1) then y else if y > 0 && q == p - sw then y - 1 else y + 1;
    DivModUnique(q, sw, u, v);
    IndexInRange(g, u, v);
  }

  /** The four guarded index offsets are exactly the coordinate neighbours inside the grid. */
  lemma NeighbourOffsets(g: Grid, p: nat, q: nat)
    requires ValidGrid(g) && p < |g.lit|
    ensures q < |g.lit| && Adjacent(p, q, g.sw) <==> IsOffset(g, p, q)
  {
    if q < |g.lit| && Adjacent(p, q, g.sw) {
      AdjacentIsOffset(g, p, q);
    }
    if IsOffset(g, p, q) {
      OffsetIsAdjacent(g, p, q);
    }
  }

  lemma ReachSelf(g: Grid, p: nat)
    requires ValidGrid(g) && IsLit(g, p)
    ensures Reaches(g, p, p)
  {
    assert IsPath(g, [p]);
  }

  lemma ReachStep(g: Grid, p: nat, q: nat, r: nat)
    requires ValidGrid(g) && Reaches(g, p, q) && Linked(g, q, r)
    ensures Reaches(g, p, r)
  {
    var path: seq<nat> :| IsPath(g, path) && path[0] == p && path[|path| - 1] == q;
    var longer := path + [r];
    assert IsPath(g, longer) && longer[0] == p && longer[|longer| - 1] == r;
  }

  /** Induction over a path: a link-closed set that holds its start holds its end. */
  lemma {:induction false} PathStaysInside(g: Grid, s: set<nat>, path: seq<nat>)
    requires ValidGrid(g) && ClosedUnderLinks(g, s) && IsPath(g, path) && path[0] in s
    ensures path[|path| - 1] in s
    decreases |path|
  {
    if |path| > 1 {
      assert Linked(g, path[0], path[1]);
      forall i | 0 <= i < |path[1..]| - 1 ensures Linked(g, path[1..][i], path[1..][i + 1]) {
        assert Linked(g, path[i + 1], path[i + 2]);
      }
      PathStaysInside(g, s, path[1..]);
    }
  }

  lemma ComponentInside(g: Grid, s: set<nat>, p: nat)
    requires ValidGrid(g) && ClosedUnderLinks(g, s) && p in s
    ensures Component(g, p) <= s
  {
    forall q | q in Component(g, p) ensures q in s {
      var path: seq<nat> :| IsPath(g, path) && path[0] == p && path[|path| - 1] == q;
      PathStaysInside(g, s, path);
    }
  }

  lemma ComponentClosed(g: Grid, p: nat)
    requires ValidGrid(g)
    ensures ClosedUnderLinks(g, Component(g, p))
  {
    forall q, r | q in Component(g, p) && Linked(g, q, r) ensures r in Component(g, p) {
      ReachStep(g, p, q, r);
    }
  }

  lemma {:induction false} ReachBack(g: Grid, path: seq<nat>)
    requires ValidGrid(g) && IsPath(g, path)
    ensures Reaches(g, path[|path| - 1], path[0])
    decreases |path|
  {
    var n := |path| - 1;
    if n == 0 {
      ReachSelf(g, path[0]);
    } else {
      assert Linked(g, path[n - 1], path[n]);
      forall i | 0 <= i < |path[..n]| - 1 ensures Linked(g, path[..n][i], path[..n][i + 1]) {
        assert Linked(g, path[i], path[i + 1]);
      }
      ReachBack(g, path[..n]);
      ReachSelf(g, path[n]);
      ReachStep(g, path[n], path[n], path[n - 1]);
      ReachTransitive(g, path[n], path[n - 1], path[0]);
    }
  }

  lemma ReachTransitive(g: Grid, p: nat, q: nat, r: nat)
    requires ValidGrid(g) && Reaches(g, p, q) && Reaches(g, q, r)
    ensures Reaches(g, p, r)
  {
    var path: seq<nat> :| IsPath(g, path) && path[0] == q && path[|path| - 1] == r;
    EndIsLit(g, path);
    ComponentClosed(g, p);
    var first: seq<nat> :| IsPath(g, first) && first[0] == p && first[|first| - 1] == q;
    EndIsLit(g, first);
    assert q in Component(g, p);
    PathStaysInside(g, Component(g, p), path);
  }

  lemma EndIsLit(g: Grid, path: seq<nat>)
    requires ValidGrid(g) && IsPath(g, path)
    ensures IsLit(g, path[|path| - 1])
  {
    if |path| > 1 {
      assert Linked(g, path[|path| - 2], path[|path| - 1]);
    }
  }

  /** Components are the classes of an equivalence on the lit cells: each lit cell lies in its own component, and
      two components that share a cell are the same set. */
  lemma ComponentsPartition(g: Grid, p: nat, q: nat)
    requires ValidGrid(g)
    ensures IsLit(g, p) <==> p in Component(g, p)
    ensures forall r :: r in Component(g, p) ==> IsLit(g, r)
    ensures Component(g, p) * Component(g, q) != {} ==> Component(g, p) == Component(g, q)
  {
    if IsLit(g, p) {
      ReachSelf(g, p);
    }
    forall r | r in Component(g, p) ensures IsLit(g, r) {
      var path: seq<nat> :| IsPath(g, path) && path[0] == p && path[|path| - 1] == r;
      EndIsLit(g, path);
    }
    if r :| r in Component(g, p) && r in Component(g, q) {
      SharedCell(g, p, q, r);
      SharedCell(g, q, p, r);
    }
  }

  lemma SharedCell(g: Grid, p: nat, q: nat, r: nat)
    requires ValidGrid(g) && r in Component(g, p) && r in Component(g, q)
    ensures Component(g, p) <= Component(g, q)
  {
    var path: seq<nat> :| IsPath(g, path) && path[0] == p && path[|path| - 1] == r;
    ReachBack(g, path);
    ReachTransitive(g, q, r, p);
    ComponentClosed(g, q);
    ComponentInside(g, Component(g, q), p);
  }

  lemma SameComponent(g: Grid, p: nat, q: nat)
    requires ValidGrid(g) && q in Component(g, p)
    ensures Component(g, q) == Component(g, p) && p in Component(g, q)
  {
    ComponentsPartition(g, p, q);
    ComponentsPartition(g, q, p);
    assert q in Component(g, p) * Component(g, q);
    var path: seq<nat> :| IsPath(g, path) && path[0] == p && path[|path| - 1] == q;
    ReachSelf(g, p);
  }

  // ---------- Sums over a set of cells ----------

  /** The sum of `f` over the cells of `s`. */
  ghost function SumOver(s: set<nat>, f: seq<int>): int {
    if f == [] then 0
    else SumOver(s, f[..|f| - 1]) + if |f| - 1 in s then f[|f| - 1] else 0
  }

  lemma {:induction false} SumOverUnion(a: set<nat>, b: set<nat>, f: seq<int>)
    requires a !! b
    ensures SumOver(a + b, f) == SumOver(a, f) + SumOver(b, f)
  {
    if f != [] {
      SumOverUnion(a, b, f[..|f| - 1]);
    }
  }

  lemma {:induction false} SumOverSingle(p: nat, f: seq<int>)
    ensures SumOver({p}, f) == if p < |f| then f[p] else 0
  {
    if f != [] {
      SumOverSingle(p, f[..|f| - 1]);
    }
  }

  lemma SumOverAdd(s: set<nat>, p: nat, f: seq<int>)
    requires p !in s && p < |f|
    ensures SumOver(s + {p}, f) == SumOver(s, f) + f[p]
  {
    SumOverUnion(s, {p}, f);
    SumOverSingle(p, f);
  }

  lemma {:induction false} SumOverEmpty(f: seq<int>)
    ensures SumOver({}, f) == 0
  {
    if f != [] {
      SumOverEmpty(f[..|f| - 1]);
    }
  }

  datatype Blob = Blob(cells: nat, sumR: int, sumG: int, sumB: int, sumX: int, sumY: int)

  /** The per-cell colours recorded by the sampling pass. */
  datatype Colours = Colours(r: seq<int>, g: seq<int>, b: seq<int>)

  predicate ValidColours(g: Grid, c: Colours) {
    |c.r| == |c.g| == |c.b| == |g.lit|
  }

  function Columns(g: Grid): seq<int>
    requires ValidGrid(g)
  {
    seq(|g.lit|, i requires 0 <= i < |g.lit| => i % g.sw)
  }

  function Rows(g: Grid): seq<int>
    requires ValidGrid(g)
  {
    seq(|g.lit|, i requires 0 <= i < |g.lit| => i / g.sw)
  }

  /** What a blob made of exactly the cells `s` must report. */
  ghost function Summary(g: Grid, c: Colours, s: set<nat>): Blob
    requires ValidGrid(g)
  {
    Blob(|s|, SumOver(s, c.r), SumOver(s, c.g), SumOver(s, c.b), SumOver(s, Columns(g)), SumOver(s, Rows(g)))
  }

  /** The blobs expected from the cells below `n`: one per component, listed at its lowest cell. */
  ghost function ExpectedBlobs(g: Grid, c: Colours, n: nat): seq<Blob>
    requires ValidGrid(g) && n <= |g.lit|
  {
    if n == 0 then []
    else ExpectedBlobs(g, c, n - 1) + if IsLeader(g, n - 1) then [Summary(g, c, Component(g, n - 1))] else []
  }

  /** The lowest cell of a component. */
  ghost predicate IsLeader(g: Grid, p: nat)
    requires ValidGrid(g)
  {
    IsLit(g, p) && forall q :: q in Component(g, p) ==> p <= q
  }

  lemma SummaryAdd(g: Grid, c: Colours, s: set<nat>, p: nat)
    requires ValidGrid(g) && ValidColours(g, c) && p !in s && p < |g.lit|
    ensures Summary(g, c, s + {p}) ==
            var b := Summary(g, c, s);
            Blob(b.cells + 1, b.sumR + c.r[p], b.sumG + c.g[p], b.sumB + c.b[p], b.sumX + p % g.sw, b.sumY + p / g.sw)
  {
    SumOverAdd(s, p, c.r);
    SumOverAdd(s, p, c.g);
    SumOverAdd(s, p, c.b);
    SumOverAdd(s, p, Columns(g));
    SumOverAdd(s, p, Rows(g));
  }

  lemma SummaryEmpty(g: Grid, c: Colours)
    requires ValidGrid(g)
    ensures Summary(g, c, {}) == Blob(0, 0, 0, 0, 0, 0)
  {
    SumOverEmpty(c.r);
    SumOverEmpty(c.g);
    SumOverEmpty(c.b);
    SumOverEmpty(Columns(g));
    SumOverEmpty(Rows(g));
  }

  // ---------- The fill ----------

  ghost function Marked(visited: seq<bool>): set<nat> {
    set p: nat | p < |visited| && visited[p]
  }

  ghost function Elements(s: seq<nat>): set<nat> {
    set p | p in s
  }

  ghost predicate Distinct(s: seq<nat>) {
    forall i, j :: 0 <= i < j < |s| ==> s[i] != s[j]
  }

  /** The marked cells after visiting every cell of `todo`: the old ones and the lit cells among `todo`. */
  ghost predicate MarksExactly(lit: seq<bool>, before: seq<bool>, stack: seq<nat>, after: seq<bool>, stack': seq<nat>,
                               todo: set<int>) {
    && |lit| == |before| == |after|
    && (forall q :: 0 <= q < |lit| ==> after[q] == (before[q] || (q in todo && lit[q])))
    && (forall q: nat :: q in stack' <==> q in stack || (q < |lit| && after[q] && !before[q]))
  }

  /** Mark and push one candidate neighbour unless it is outside the grid, dark or already visited. */
  method Visit(lit: array<bool>, visited: array<bool>, stack: seq<nat>, inside: bool, q: int,
               ghost before: seq<bool>, ghost stack0: seq<nat>, ghost todo: set<int>) returns (stack': seq<nat>)
    requires lit.Length == visited.Length && lit != visited && (inside ==> 0 <= q < lit.Length)
    requires Distinct(stack) && forall p :: p in stack ==> p < visited.Length && visited[p]
    requires MarksExactly(lit[..], before, stack0, visited[..], stack, todo)
    modifies visited
    ensures Distinct(stack') && forall p :: p in stack' ==> p < visited.Length && visited[p]
    ensures MarksExactly(lit[..], before, stack0, visited[..], stack', With(todo, inside, q))
  {
    stack' := stack;
    if inside && !visited[q] && lit[q] {
      visited[q] := true;
      stack' := stack' + [q];
    }
  }

  ghost function With(todo: set<int>, inside: bool, q: int): set<int> {
    if inside then todo + {q} else todo
  }

  /** The candidates the fill tries for a cell at column `x`, row `y`, each behind its own border check. */
  ghost function Candidates(sw: nat, sh: nat, x: nat, y: nat, p: int): set<int> {
    With(With(With(With({}, x > 0, p - 1), x < sw - 1, p + 1), y > 0, p - sw), y < sh - 1, p + sw)
  }

  lemma CandidatesInRange(g: Grid, p: nat)
    requires ValidGrid(g) && p < |g.lit|
    ensures forall q :: q in Candidates(g.sw, g.sh, p % g.sw, p / g.sw, p) ==> 0 <= q < |g.lit|
  {
    forall q | q in Candidates(g.sw, g.sh, p % g.sw, p / g.sw, p) ensures 0 <= q < |g.lit| {
      assert p == (p / g.sw) * g.sw + p % g.sw;
      MulStep(p / g.sw, g.sw);
      OffsetIsAdjacent(g, p, q);
    }
  }

  lemma OffsetsAreCandidates(g: Grid, p: nat, q: nat)
    requires ValidGrid(g)
    ensures IsOffset(g, p, q) <==> q in Candidates(g.sw, g.sh, p % g.sw, p / g.sw, p)
  {
    hide ValidGrid;
  }

  lemma CandidatesAreLinks(g: Grid, p: nat, q: nat)
    requires ValidGrid(g) && IsLit(g, p) && q < |g.lit|
    ensures q in Candidates(g.sw, g.sh, p % g.sw, p / g.sw, p) && g.lit[q] <==> q in LinksOf(g, p)
  {
    hide ValidGrid, Adjacent, IsOffset, Candidates;
    NeighbourOffsets(g, p, q);
    OffsetsAreCandidates(g, p, q);
  }

  /** Try the four candidates of a cell whose coordinates are known. */
  method VisitCandidates(lit: array<bool>, visited: array<bool>, sw: nat, sh: nat, stack: seq<nat>, p: nat, x: nat,
                         y: nat)
    returns (stack': seq<nat>)
    requires lit.Length == visited.Length && lit != visited
    requires forall q :: q in Candidates(sw, sh, x, y, p) ==> 0 <= q < lit.Length
    requires Distinct(stack) && forall q :: q in stack ==> q < visited.Length && visited[q]
    modifies visited
    ensures Distinct(stack') && forall q :: q in stack' ==> q < visited.Length && visited[q]
    ensures MarksExactly(lit[..], old(visited[..]), stack, visited[..], stack', Candidates(sw, sh, x, y, p))
  {
    ghost var before := visited[..];
    assert MarksExactly(lit[..], before, stack, before, stack, {});
    ghost var c1 := With({}, x > 0, p - 1);
    ghost var c2 := With(c1, x < sw - 1, p + 1);
    ghost var c3 := With(c2, y > 0, p - sw);
    assert x > 0 ==> p - 1 in Candidates(sw, sh, x, y, p);
    assert x < sw - 1 ==> p + 1 in Candidates(sw, sh, x, y, p);
    assert y > 0 ==> p - sw in Candidates(sw, sh, x, y, p);
    assert y < sh - 1 ==> p + sw in Candidates(sw, sh, x, y, p);
    hide MarksExactly, Distinct, With;
    stack' := Visit(lit, visited, stack, x > 0, p - 1, before, stack, {});
    stack' := Visit(lit, visited, stack', x < sw - 1, p + 1, before, stack, c1);
    stack' := Visit(lit, visited, stack', y > 0, p - sw, before, stack, c2);
    stack' := Visit(lit, visited, stack', y < sh - 1, p + sw, before, stack, c3);
  }

  method Coordinates(p: nat, sw: nat) returns (x: nat, y: nat)
    requires sw >= 1
    ensures x == p % sw && y == p / sw
  {
    x := p % sw;
    y := (p - x) / sw;
    assert p - x == (p / sw) * sw;
    DivModUnique(p - x, sw, 0, p / sw);
  }

  /** Visit the neighbours of one popped cell: everything linked to `p` is marked afterwards, and nothing else is. */
  method VisitNeighbours(lit: array<bool>, visited: array<bool>, sw: nat, sh: nat, stack: seq<nat>, p: nat)
    returns (stack': seq<nat>)
    requires ValidGrid(Grid(sw, sh, lit[..])) && lit.Length == visited.Length && lit != visited
    requires p < lit.Length && lit[p]
    requires Distinct(stack) && forall q :: q in stack ==> q < visited.Length && visited[q]
    modifies visited
    ensures Distinct(stack') && forall q :: q in stack' ==> q < visited.Length && visited[q]
    ensures MarksExactly(lit[..], old(visited[..]), stack, visited[..], stack', LinksOf(Grid(sw, sh, lit[..]), p))
  {
    ghost var g := Grid(sw, sh, lit[..]);
    var x, y := Coordinates(p, sw);
    CandidatesInRange(g, p);
    stack' := VisitCandidates(lit, visited, sw, sh, stack, p, x, y);
    forall q: nat | q < |g.lit|
      ensures q in Candidates(sw, sh, x, y, p) && g.lit[q] <==> q in LinksOf(g, p)
    {
      CandidatesAreLinks(g, p, q);
    }
  }

  /** The state of a fill from `start`: `popped` cells are finished, `stack` cells are marked but not finished. */
  ghost predicate FillState(g: Grid, start: nat, old_: set<nat>, marked: set<nat>, popped: set<nat>, stack: seq<nat>)
    requires ValidGrid(g)
  {
    && marked == old_ + popped + Elements(stack)
    && popped !! Elements(stack) && old_ !! popped + Elements(stack)
    && popped + Elements(stack) <= Component(g, start)
    && start in popped + Elements(stack)
    && forall p, q :: p in popped && Linked(g, p, q) ==> q in marked
  }

  /** One pop: the cell moves from the stack to the finished cells and its unseen links join the stack. */
  lemma FillStep(g: Grid, start: nat, old_: set<nat>, popped: set<nat>, stack: seq<nat>, p: nat,
                 before: seq<bool>, rest: seq<nat>, after: seq<bool>, stack': seq<nat>)
    requires ValidGrid(g) && |before| == |g.lit|
    requires FillState(g, start, old_, Marked(before), popped, stack)
    requires stack == rest + [p] && Distinct(stack) && IsLit(g, p)
    requires MarksExactly(g.lit, before, rest, after, stack', LinksOf(g, p))
    ensures FillState(g, start, old_, Marked(after), popped + {p}, stack')
  {
    ComponentClosed(g, start);
    assert p in Elements(stack);
    assert Elements(stack) == Elements(rest) + {p};
    assert p !in rest by {
      assert forall i :: 0 <= i < |rest| ==> stack[i] == rest[i];
      assert stack[|rest|] == p;
    }
    forall q: nat ensures q in stack' <==> q in rest || q in Marked(after) - Marked(before) {
    }
    assert Elements(stack') == Elements(rest) + (Marked(after) - Marked(before));
    forall q | q in Marked(after) - Marked(before) ensures q in Component(g, start) {
      assert Linked(g, p, q);
    }
    assert Marked(before) <= Marked(after);
  }

  /** Pushing the first cell. */
  lemma FillStart(g: Grid, c: Colours, before: seq<bool>, start: nat)
    requires ValidGrid(g) && |before| == |g.lit| && IsLit(g, start) && !before[start]
    ensures FillState(g, start, Marked(before), Marked(before[start := true]), {}, [start])
    ensures Distinct([start]) && Summary(g, c, {}) == Blob(0, 0, 0, 0, 0, 0)
  {
    SummaryEmpty(g, c);
    ReachSelf(g, start);
    assert Elements([start]) == {start};
    assert Marked(before[start := true]) == Marked(before) + {start};
  }

  /** An empty stack means the finished cells are the whole component of `start`. */
  lemma FillDone(g: Grid, start: nat, old_: set<nat>, marked: set<nat>, popped: set<nat>)
    requires ValidGrid(g) && ClosedUnderLinks(g, old_) && FillState(g, start, old_, marked, popped, [])
    ensures popped == Component(g, start)
    ensures marked == old_ + Component(g, start) && old_ !! Component(g, start)
  {
    assert Elements([]) == {};
    forall p, q | p in popped && Linked(g, p, q) ensures q in popped {
      if q in old_ {
        assert Linked(g, q, p);
      }
    }
    ComponentInside(g, popped, start);
  }

  lemma SubsetSize(s: set<nat>, n: nat)
    requires forall p :: p in s ==> p < n
    ensures |s| <= n
  {
    if n == 0 {
      assert s == {};
    } else {
      SubsetSize(s - {n - 1}, n - 1);
    }
  }

  /** Take one cell off the stack, mark its unseen links and push them. */
  method PopCell(lit: array<bool>, visited: array<bool>, sw: nat, sh: nat, stack: seq<nat>,
                 ghost start: nat, ghost old_: set<nat>, ghost popped: set<nat>) returns (p: nat, stack': seq<nat>)
    requires ValidGrid(Grid(sw, sh, lit[..])) && lit.Length == visited.Length && lit != visited
    requires |stack| > 0 && Distinct(stack) && forall q :: q in stack ==> q < visited.Length && visited[q]
    requires FillState(Grid(sw, sh, lit[..]), start, old_, Marked(visited[..]), popped, stack)
    modifies visited
    ensures p < lit.Length && p !in popped
    ensures Distinct(stack') && forall q :: q in stack' ==> q < visited.Length && visited[q]
    ensures FillState(Grid(sw, sh, lit[..]), start, old_, Marked(visited[..]), popped + {p}, stack')
  {
    ghost var g, before := Grid(sw, sh, lit[..]), visited[..];
    p := stack[|stack| - 1];
    var rest := stack[..|stack| - 1];
    assert p in Elements(stack);
    forall q | q in rest ensures q in stack {
      var i :| 0 <= i < |rest| && rest[i] == q;
      assert stack[i] == q;
    }
    ComponentsPartition(g, start, start);
    stack' := VisitNeighbours(lit, visited, sw, sh, rest, p);
    FillStep(g, start, old_, popped, stack, p, before, rest, visited[..], stack');
  }

  /** Count one finished cell into the blob. */
  method Tally(blob: Blob, cellR: array<int>, cellG: array<int>, cellB: array<int>, p: nat, sw: nat, ghost g: Grid,
               ghost popped: set<nat>)
    returns (blob': Blob)
    requires ValidGrid(g) && g.sw == sw && cellR.Length == cellG.Length == cellB.Length == |g.lit|
    requires p !in popped && p < |g.lit|
    requires blob == Summary(g, Colours(cellR[..], cellG[..], cellB[..]), popped)
    ensures blob' == Summary(g, Colours(cellR[..], cellG[..], cellB[..]), popped + {p})
  {
    var x, y := Coordinates(p, sw);
    blob' := Blob(blob.cells + 1, blob.sumR + cellR[p], blob.sumG + cellG[p], blob.sumB + cellB[p], blob.sumX + x,
                  blob.sumY + y);
    SummaryAdd(g, Colours(cellR[..], cellG[..], cellB[..]), popped, p);
  }

  /** Fill from one unvisited lit cell. The blob is the summary of that cell's component, which is also exactly
      what gets marked. */
  method FillFrom(lit: array<bool>, cellR: array<int>, cellG: array<int>, cellB: array<int>,
                  visited: array<bool>, sw: nat, sh: nat, start: nat) returns (blob: Blob)
    requires ValidGrid(Grid(sw, sh, lit[..])) && lit.Length == visited.Length && lit != visited
    requires cellR.Length == cellG.Length == cellB.Length == lit.Length
    requires start < lit.Length && IsLit(Grid(sw, sh, lit[..]), start) && !visited[start]
    requires ClosedUnderLinks(Grid(sw, sh, lit[..]), Marked(visited[..]))
    modifies visited
    ensures var g := Grid(sw, sh, lit[..]);
            && blob == Summary(g, Colours(cellR[..], cellG[..], cellB[..]), Component(g, start))
            && Marked(visited[..]) == old(Marked(visited[..])) + Component(g, start)
            && old(Marked(visited[..])) !! Component(g, start)
  {
    hide *;
    ghost var g, c := Grid(sw, sh, lit[..]), Colours(cellR[..], cellG[..], cellB[..]);
    ghost var old_ := Marked(visited[..]);
    ghost var popped: set<nat> := {};
    blob := Blob(0, 0, 0, 0, 0, 0);
    var stack: seq<nat> := [start];
    FillStart(g, c, visited[..], start);
    visited[start] := true;
    while |stack| > 0
      invariant Distinct(stack) && forall p :: p in stack ==> p < visited.Length && visited[p]
      invariant FillState(g, start, old_, Marked(visited[..]), popped, stack)
      invariant blob == Summary(g, c, popped)
      invariant forall p :: p in popped ==> p < lit.Length
      decreases lit.Length - |popped|
    {
      var p;
      p, stack := PopCell(lit, visited, sw, sh, stack, start, old_, popped);
      blob := Tally(blob, cellR, cellG, cellB, p, sw, g, popped);
      SubsetSize(popped + {p}, lit.Length);
      popped := popped + {p};
    }
    assert stack == [];
    FillDone(g, start, old_, Marked(visited[..]), popped);
  }

  /** The visited cells once every start below `n` has been tried: the components of the lit cells below `n`. */
  ghost predicate ScannedBelow(g: Grid, marked: set<nat>, n: nat)
    requires ValidGrid(g)
  {
    && ClosedUnderLinks(g, marked)
    && forall p: nat :: p in marked <==> exists s: nat :: s < n && p in Component(g, s)
  }

  lemma ScanSkips(g: Grid, marked: set<nat>, n: nat)
    requires ValidGrid(g) && ScannedBelow(g, marked, n) && (IsLit(g, n) ==> n in marked)
    ensures ScannedBelow(g, marked, n + 1) && !IsLeader(g, n)
  {
    if IsLit(g, n) {
      var s: nat :| s < n && n in Component(g, s);
      SameComponent(g, s, n);
    } else {
      ComponentsPartition(g, n, n);
    }
    forall p: nat | exists s: nat :: s < n + 1 && p in Component(g, s)
      ensures p in marked
    {
      var s: nat :| s < n + 1 && p in Component(g, s);
      if s == n {
        SameComponent(g, n, p);
        ComponentsPartition(g, n, n);
        var s': nat :| s' < n && n in Component(g, s');
        SameComponent(g, s', n);
      }
    }
  }

  lemma ScanFills(g: Grid, marked: set<nat>, n: nat)
    requires ValidGrid(g) && ScannedBelow(g, marked, n) && IsLit(g, n) && n !in marked
    ensures ScannedBelow(g, marked + Component(g, n), n + 1) && IsLeader(g, n)
    ensures ClosedUnderLinks(g, marked)
  {
    ComponentClosed(g, n);
    forall q | q in Component(g, n) ensures n <= q {
      if q < n {
        SameComponent(g, n, q);
        assert false;
      }
    }
  }

  lemma ExpectedStep(g: Grid, c: Colours, n: nat)
    requires ValidGrid(g) && n < |g.lit|
    ensures IsLeader(g, n) ==> ExpectedBlobs(g, c, n + 1) == ExpectedBlobs(g, c, n) + [Summary(g, c, Component(g, n))]
    ensures !IsLeader(g, n) ==> ExpectedBlobs(g, c, n + 1) == ExpectedBlobs(g, c, n)
  {
    hide IsLeader, Component, Summary;
  }

  lemma ScanStarts(g: Grid, c: Colours, visited: seq<bool>)
    requires ValidGrid(g) && forall p :: 0 <= p < |visited| ==> !visited[p]
    ensures ScannedBelow(g, Marked(visited), 0) && ExpectedBlobs(g, c, 0) == []
  {
    assert Marked(visited) == {};
  }

  /** One turn of the scan: fill from `start` unless it is dark or already visited. */
  method TryStart(lit: array<bool>, cellR: array<int>, cellG: array<int>, cellB: array<int>,
                  visited: array<bool>, sw: nat, sh: nat, start: nat) returns (found: bool, blob: Blob)
    requires ValidGrid(Grid(sw, sh, lit[..])) && lit.Length == visited.Length && lit != visited
    requires cellR.Length == cellG.Length == cellB.Length == lit.Length
    requires start < lit.Length && ScannedBelow(Grid(sw, sh, lit[..]), Marked(visited[..]), start)
    modifies visited
    ensures ScannedBelow(Grid(sw, sh, lit[..]), Marked(visited[..]), start + 1)
    ensures found <==> IsLeader(Grid(sw, sh, lit[..]), start)
    ensures found ==> var g := Grid(sw, sh, lit[..]);
                      blob == Summary(g, Colours(cellR[..], cellG[..], cellB[..]), Component(g, start))
  {
    ghost var g := Grid(sw, sh, lit[..]);
    assert start in Marked(visited[..]) <==> visited[start];
    assert IsLit(g, start) <==> lit[start];
    hide *;
    found, blob := false, Blob(0, 0, 0, 0, 0, 0);
    if visited[start] || !lit[start] {
      ScanSkips(g, Marked(visited[..]), start);
    } else {
      ScanFills(g, Marked(visited[..]), start);
      blob := FillFrom(lit, cellR, cellG, cellB, visited, sw, sh, start);
      found := true;
    }
  }

  /** Every lit cell lies in exactly one reported blob, every blob is one whole 4-connected component, and its
      count and sums are those of that component. */
  method LabelBlobs(lit: array<bool>, cellR: array<int>, cellG: array<int>, cellB: array<int>, sw: nat, sh: nat)
    returns (blobs: seq<Blob>)
    requires ValidGrid(Grid(sw, sh, lit[..]))
    requires cellR.Length == cellG.Length == cellB.Length == lit.Length
    ensures blobs == ExpectedBlobs(Grid(sw, sh, lit[..]), Colours(cellR[..], cellG[..], cellB[..]), lit.Length)
  {
    ghost var g, c := Grid(sw, sh, lit[..]), Colours(cellR[..], cellG[..], cellB[..]);
    var total := sw * sh;
    assert total == lit.Length;
    hide *;
    var visited := new bool[total](i => false);
    ScanStarts(g, c, visited[..]);
    blobs := [];
    var start := 0;
    while start < total
      invariant start <= total
      invariant ScannedBelow(g, Marked(visited[..]), start)
      invariant blobs == ExpectedBlobs(g, c, start)
    {
      ExpectedStep(g, c, start);
      var found, blob := TryStart(lit, cellR, cellG, cellB, visited, sw, sh, start);
      if found {
        blobs := blobs + [blob];
      }
      start := start + 1;
    }
  }

  // ---------- What the list of blobs means ----------

  /** Each lit cell lies in exactly one listed component: the one whose lowest cell leads it. */
  lemma OneBlobPerLitCell(g: Grid, p: nat) returns (leader: nat)
    requires ValidGrid(g) && IsLit(g, p)
    ensures IsLeader(g, leader) && p in Component(g, leader)
    ensures forall other :: IsLeader(g, other) && p in Component(g, other) ==> other == leader
  {
    ComponentsPartition(g, p, p);
    leader := Lowest(Component(g, p), p);
    SameComponent(g, p, leader);
    ComponentsPartition(g, p, leader);
    forall other | IsLeader(g, other) && p in Component(g, other) ensures other == leader {
      SameComponent(g, other, p);
      ComponentsPartition(g, other, other);
    }
  }

  lemma Lowest(s: set<nat>, p: nat) returns (low: nat)
    requires p in s
    ensures low in s && forall q :: q in s ==> low <= q
    decreases p
  {
    if q :| q in s && q < p {
      low := Lowest(s, q);
    } else {
      low := p;
    }
  }

  ghost function TotalCells(blobs: seq<Blob>): nat {
    if blobs == [] then 0 else TotalCells(blobs[..|blobs| - 1]) + blobs[|blobs| - 1].cells
  }

  ghost function CellsBelow(g: Grid, n: nat): set<nat>
    requires ValidGrid(g)
  {
    set p: nat, s: nat | s < n && p < |g.lit| && p in Component(g, s) :: p
  }

  lemma TotalCellsAppend(blobs: seq<Blob>, blob: Blob)
    ensures TotalCells(blobs + [blob]) == TotalCells(blobs) + blob.cells
  {
    assert (blobs + [blob])[..|blobs|] == blobs;
  }

  lemma CellsBelowGrows(g: Grid, n: nat)
    requires ValidGrid(g) && n < |g.lit|
    ensures |CellsBelow(g, n + 1)| == |CellsBelow(g, n)| + if IsLeader(g, n) then |Component(g, n)| else 0
  {
    LeaderIsNew(g, n);
    assert CellsBelow(g, n + 1) == CellsBelow(g, n) + Component(g, n);
    if !IsLeader(g, n) {
      assert CellsBelow(g, n + 1) == CellsBelow(g, n);
    }
  }

  lemma LeaderIsNew(g: Grid, n: nat)
    requires ValidGrid(g) && n < |g.lit|
    ensures IsLeader(g, n) ==> CellsBelow(g, n) !! Component(g, n)
    ensures !IsLeader(g, n) ==> Component(g, n) <= CellsBelow(g, n)
  {
    if IsLeader(g, n) {
      forall p | p in CellsBelow(g, n) && p in Component(g, n) ensures false {
        var t: nat :| t < n && p in Component(g, t);
        SameComponent(g, t, p);
        SameComponent(g, n, p);
      }
    } else if IsLit(g, n) {
      var q :| q in Component(g, n) && q < n;
      SameComponent(g, n, q);
    } else {
      DarkHasNoComponent(g, n);
    }
  }

  lemma {:induction false} TotalCellsBelow(g: Grid, c: Colours, n: nat)
    requires ValidGrid(g) && n <= |g.lit|
    ensures TotalCells(ExpectedBlobs(g, c, n)) == |CellsBelow(g, n)|
  {
    hide ValidGrid, Adjacent, IsLeader, Component, SumOver, TotalCells;
    if n > 0 {
      var blobs, blob := ExpectedBlobs(g, c, n - 1), Summary(g, c, Component(g, n - 1));
      TotalCellsBelow(g, c, n - 1);
      CellsBelowGrows(g, n - 1);
      TotalCellsAppend(blobs, blob);
      if !IsLeader(g, n - 1) {
        assert blobs + [] == blobs;
      }
    } else {
      assert CellsBelow(g, 0) == {};
      NoCells();
    }
  }

  lemma NoCells()
    ensures TotalCells([]) == 0
  {
  }

  /** Conservation: the reported counts add up to the number of lit cells. */
  lemma BlobsCoverLitCells(g: Grid, c: Colours)
    requires ValidGrid(g)
    ensures TotalCells(ExpectedBlobs(g, c, |g.lit|)) == |Marked(g.lit)|
  {
    TotalCellsBelow(g, c, |g.lit|);
    forall p: nat ensures p in CellsBelow(g, |g.lit|) <==> p in Marked(g.lit) {
      if p in Marked(g.lit) {
        ComponentsPartition(g, p, p);
      }
      if p in CellsBelow(g, |g.lit|) {
        var s: nat :| s < |g.lit| && p in Component(g, s);
        ComponentsPartition(g, s, s);
      }
    }
    assert CellsBelow(g, |g.lit|) == Marked(g.lit);
  }

  // ---------- The glare hotspot ----------

  /** Luma is kept in thousandths, where 0.299 r + 0.587 g + 0.114 b is exact; 245 is the near-white threshold. */
  const BRIGHT := 245_000

  function BrightCells(luma: seq<int>): seq<bool> {
    seq(|luma|, i requires 0 <= i < |luma| => luma[i] >= BRIGHT)
  }

  lemma DarkHasNoComponent(g: Grid, p: nat)
    requires ValidGrid(g) && !IsLit(g, p)
    ensures Component(g, p) == {}
  {
    forall q | q in Component(g, p) ensures false {
      SameComponent(g, p, q);
      ComponentsPartition(g, p, p);
    }
  }

  /** `size` is the largest component size among the cells below `n`, and 0 exactly when none of them is lit. */
  ghost predicate IsLargest(g: Grid, n: nat, size: nat)
    requires ValidGrid(g)
  {
    && (forall p: nat :: p < n ==> |Component(g, p)| <= size)
    && (size == 0 <==> forall p: nat :: p < n ==> !IsLit(g, p))
    && (size > 0 ==> exists p: nat :: p < n && |Component(g, p)| == size)
  }

  lemma LeaderIsLit(g: Grid, p: nat)
    requires ValidGrid(g) && IsLeader(g, p)
    ensures IsLit(g, p)
  {
  }

  lemma CellCount(g: Grid, c: Colours, s: set<nat>)
    requires ValidGrid(g)
    ensures Summary(g, c, s).cells == |s|
  {
  }

  lemma LargestOfNone(g: Grid)
    requires ValidGrid(g)
    ensures IsLargest(g, 0, 0)
  {
  }

  lemma LargestSkips(g: Grid, n: nat, size: nat)
    requires ValidGrid(g) && !IsLeader(g, n) && IsLargest(g, n, size)
    ensures IsLargest(g, n + 1, size)
  {
    if IsLit(g, n) {
      var q :| q in Component(g, n) && q < n;
      SameComponent(g, n, q);
      ComponentsPartition(g, n, n);
    } else {
      DarkHasNoComponent(g, n);
    }
  }

  lemma LargestGrows(g: Grid, n: nat, size: nat)
    requires ValidGrid(g) && IsLit(g, n) && IsLargest(g, n, size)
    ensures IsLargest(g, n + 1, if |Component(g, n)| > size then |Component(g, n)| else size)
  {
    ComponentsPartition(g, n, n);
  }

  /** The size of the largest connected near-white region; 0 when no cell is near-white. */
  method LargestBrightHotspot(luma: array<int>, sw: nat, sh: nat) returns (largest: nat)
    requires ValidGrid(Grid(sw, sh, BrightCells(luma[..])))
    ensures IsLargest(Grid(sw, sh, BrightCells(luma[..])), sw * sh, largest)
  {
    ghost var g := Grid(sw, sh, BrightCells(luma[..]));
    var total := sw * sh;
    assert total == luma.Length;
    var bright := new bool[total](i requires 0 <= i < luma.Length reads luma => luma[i] >= BRIGHT);
    assert bright[..] == g.lit;
    hide *;
    var visited := new bool[total](i => false);
    ScanStarts(g, Colours([], [], []), visited[..]);
    LargestOfNone(g);
    largest := 0;
    var start := 0;
    while start < total
      invariant start <= total
      invariant bright[..] == g.lit && luma[..] == old(luma[..])
      invariant ScannedBelow(g, Marked(visited[..]), start)
      invariant IsLargest(g, start, largest)
    {
      var found, blob := TryStart(bright, luma, luma, luma, visited, sw, sh, start);
      if found {
        LeaderIsLit(g, start);
        LargestGrows(g, start, largest);
        CellCount(g, Colours(luma[..], luma[..], luma[..]), Component(g, start));
        if blob.cells > largest {
          largest := blob.cells;
        }
      } else {
        LargestSkips(g, start, largest);
      }
      start := start + 1;
    }
  }
}
