/** The vertex budget of nanovg's stroke and fill expansion: what is counted before the
    buffer is allocated, and what is written into it. */
module VertexBudget {

  datatype Cap = ButtCap | SquareCap | RoundCap
  datatype Join = MiterJoin | BevelJoin | RoundJoin

  /** What the geometry decides about a point: whether it turns left, needs an inner bevel,
      exceeds the miter limit, and how many steps its round join would take. */
  datatype Shape = Shape(left: bool, inner: bool, sharp: bool, steps: int)

  /** The flags of a point. */
  datatype Point = Point(corner: bool, left: bool, bevel: bool, inner: bool, steps: int)

  datatype Path = Path(
    pts: seq<Point>,
    closed: bool,
    nbevel: nat,
    convex: bool,
    fill: nat,          // where its fill vertices begin
    nfill: nat,
    stroke: nat,        // where its stroke vertices begin
    nstroke: nat)

  /** A vertex remembers the path and the part of it that it was written for. */
  datatype Part = Fill | Stroke
  datatype Vertex = Vertex(path: nat, part: Part)

  function Clamp(a: int, lo: int, hi: int): int { if a < lo then lo else if a > hi then hi else a }

  // ---- joins

  predicate Bevelled(p: Point) { p.bevel || p.inner }

  function CountBevelled(pts: seq<Point>): nat {
    if pts == [] then 0 else CountBevelled(pts[..|pts| - 1]) + if Bevelled(pts[|pts| - 1]) then 1 else 0
  }

  /** The points with a flag that asks for extra vertices. */
  function Marked(pts: seq<Point>): set<nat> { set j: nat | j < |pts| && (pts[j].bevel || pts[j].inner) }

  /** nbevel counts exactly these. */
  lemma {:induction false} CountsBevelled(pts: seq<Point>)
    ensures CountBevelled(pts) == |Marked(pts)|
    decreases |pts|
  {
    if pts == [] {
      assert Marked([]) == {};
    } else {
      var n := |pts| - 1;
      CountsBevelled(pts[..n]);
      assert Marked(pts) == if Bevelled(pts[n]) then Marked(pts[..n]) + {n} else Marked(pts[..n]);
    }
  }

  function Flagged(p: Point, s: Shape, join: Join): Point {
    Point(p.corner, s.left, p.corner && (s.sharp || join.BevelJoin? || join.RoundJoin?), s.inner, s.steps)
  }

  /** The flags of point r, made of point p with shape s: a corner is bevelled exactly when it
      is beyond the miter limit or the join is not mitered. */
  predicate FlagsOf(r: Point, p: Point, s: Shape, join: Join) {
    && r.corner == p.corner && r.left == s.left && r.inner == s.inner && r.steps == s.steps
    && (r.bevel <==> p.corner && (s.sharp || !join.MiterJoin?))
  }

  /** What nvg__calculateJoins makes of a path: nbevel counts the points with extra vertices,
      and a path is convex if it only turns left. */
  ghost predicate JoinsOf(r: Path, path: Path, shapes: seq<Shape>, join: Join) {
    && |r.pts| == |path.pts| == |shapes|
    && (forall j :: 0 <= j < |r.pts| ==> FlagsOf(r.pts[j], path.pts[j], shapes[j], join))
    && r.nbevel == CountBevelled(r.pts) && (r.convex <==> forall j :: 0 <= j < |r.pts| ==> r.pts[j].left)
    && r.closed == path.closed
  }

  method CalculateJoins(path: Path, shapes: seq<Shape>, join: Join) returns (r: Path)
    requires |shapes| == |path.pts|
    ensures JoinsOf(r, path, shapes, join)
  {
    var pts: seq<Point>, nleft, nbevel := [], 0, 0;
    for j := 0 to |path.pts|
      invariant |pts| == j && 0 <= nleft <= j && nbevel == CountBevelled(pts)
      invariant forall k :: 0 <= k < j ==> FlagsOf(pts[k], path.pts[k], shapes[k], join)
      invariant nleft == j <==> forall k :: 0 <= k < j ==> pts[k].left
    {
      var p := Flagged(path.pts[j], shapes[j], join);
      if p.left { nleft := nleft + 1; }
      if p.bevel || p.inner { nbevel := nbevel + 1; }
      assert (pts + [p])[..j] == pts;
      pts := pts + [p];
    }
    r := path.(pts := pts, nbevel := nbevel, convex := nleft == |path.pts|);
  }

  /** There is a shape for every point of every path. */
  predicate Described(paths: seq<Path>, shapes: seq<seq<Shape>>) {
    |shapes| == |paths| && forall i :: 0 <= i < |paths| ==> |shapes[i]| == |paths[i].pts|
  }

  ghost predicate AllJoinsOf(r: seq<Path>, paths: seq<Path>, shapes: seq<seq<Shape>>, join: Join) {
    |r| == |paths| == |shapes| && forall i :: 0 <= i < |r| ==> JoinsOf(r[i], paths[i], shapes[i], join)
  }

  /** nvg__calculateJoins, path by path. */
  method CalculateAllJoins(paths: seq<Path>, shapes: seq<seq<Shape>>, join: Join) returns (r: seq<Path>)
    requires Described(paths, shapes)
    ensures AllJoinsOf(r, paths, shapes, join)
  {
    r := [];
    for i := 0 to |paths|
      invariant |r| == i && forall k :: 0 <= k < i ==> JoinsOf(r[k], paths[k], shapes[k], join)
    {
      var p := CalculateJoins(paths[i], shapes[i], join);
      r := r + [p];
    }
  }

  // ---- how many vertices the emitters write

  function JoinSize(p: Point, join: Join, ncap: nat): nat
    requires 2 <= ncap
  {
    if !Bevelled(p) then 2
    else if join.RoundJoin? then 4 + 2 * Clamp(p.steps, 2, ncap)
    else if p.bevel then 8
    else 10
  }

  function JoinSizes(pts: seq<Point>, join: Join, ncap: nat): nat
    requires 2 <= ncap
  {
    if pts == [] then 0 else JoinSizes(pts[..|pts| - 1], join, ncap) + JoinSize(pts[|pts| - 1], join, ncap)
  }

  function CapSize(cap: Cap, ncap: nat): nat { if cap.RoundCap? then 2 * ncap + 2 else 4 }

  /** The points that get a join: all of a loop, the inner ones of an open path. */
  function Joined(path: Path): seq<Point> {
    if path.closed then path.pts else if |path.pts| < 2 then [] else path.pts[1..|path.pts| - 1]
  }

  /** Exactly what the stroke of a path takes. */
  function StrokeSize(path: Path, cap: Cap, join: Join, ncap: nat): nat
    requires 2 <= ncap
  {
    JoinSizes(Joined(path), join, ncap) + if path.closed then 2 else 2 * CapSize(cap, ncap)
  }

  /** What nvg__expandStroke sets aside for a path. */
  function StrokeBudget(path: Path, cap: Cap, join: Join, ncap: nat): nat {
    (if join.RoundJoin? then (|path.pts| + path.nbevel * (ncap + 2) + 1) * 2 else (|path.pts| + path.nbevel * 5 + 1) * 2)
    + if path.closed then 0 else if cap.RoundCap? then (ncap * 2 + 2) * 2 else (3 + 3) * 2
  }

  /** The vertices per bevelled point beyond the ordinary two. */
  function Extra(join: Join, ncap: nat): nat { if join.RoundJoin? then 2 * (ncap + 2) else 10 }

  lemma {:induction false} JoinsWithin(pts: seq<Point>, join: Join, ncap: nat)
    requires 2 <= ncap
    ensures JoinSizes(pts, join, ncap) <= 2 * |pts| + CountBevelled(pts) * Extra(join, ncap)
    decreases |pts|
  {
    if pts != [] {
      JoinsWithin(pts[..|pts| - 1], join, ncap);
      var b, x := CountBevelled(pts[..|pts| - 1]), Extra(join, ncap);
      assert (b + 1) * x == b * x + x;
    }
  }

  lemma {:induction false} PartOfPoints(pts: seq<Point>, a: nat, b: nat)
    requires a <= b <= |pts|
    ensures CountBevelled(pts[a..b]) <= CountBevelled(pts)
    decreases |pts|
  {
    if b < |pts| {
      PartOfPoints(pts[..|pts| - 1], a, b);
      assert pts[..|pts| - 1][a..b] == pts[a..b];
    } else if a < b {
      PartOfPoints(pts[..|pts| - 1], a, b - 1);
      assert pts[..|pts| - 1][a..b - 1] == pts[a..b - 1];
      assert pts[a..b][..|pts[a..b]| - 1] == pts[a..b - 1];
    }
  }

  lemma MoreBevels(b: nat, c: nat, x: nat)
    requires b <= c
    ensures b * x <= c * x
  {}

  /** The budget is enough, whatever the flags, caps and joins. */
  lemma StrokeWithin(path: Path, cap: Cap, join: Join, ncap: nat)
    requires 2 <= ncap && path.nbevel == CountBevelled(path.pts)
    ensures StrokeSize(path, cap, join, ncap) <= StrokeBudget(path, cap, join, ncap)
  {
    JoinsWithin(Joined(path), join, ncap);
    JoinedPart(path);
    MoreBevels(CountBevelled(Joined(path)), path.nbevel, Extra(join, ncap));
    ExtraInBudget(path.nbevel, join, ncap);
  }

  lemma JoinedPart(path: Path)
    ensures |Joined(path)| <= |path.pts| && CountBevelled(Joined(path)) <= CountBevelled(path.pts)
  {
    if !path.closed && |path.pts| >= 2 { PartOfPoints(path.pts, 1, |path.pts| - 1); }
  }

  lemma ExtraInBudget(b: nat, join: Join, ncap: nat)
    ensures b * Extra(join, ncap) == if join.RoundJoin? then 2 * (b * (ncap + 2)) else 10 * b
  {
    if join.RoundJoin? {
      assert b * (2 * (ncap + 2)) == 2 * (b * (ncap + 2));
    }
  }

  function Bevels(pts: seq<Point>): set<nat> { set j: nat | j < |pts| && pts[j].bevel }

  function InnerOnly(pts: seq<Point>): set<nat> { set j: nat | j < |pts| && pts[j].inner && !pts[j].bevel }

  lemma BevelsNext(pts: seq<Point>)
    requires pts != []
    ensures |Bevels(pts)| == |Bevels(pts[..|pts| - 1])| + if pts[|pts| - 1].bevel then 1 else 0
  {
    var n, p := |pts| - 1, pts[|pts| - 1];
    assert Bevels(pts) == if p.bevel then Bevels(pts[..n]) + {n} else Bevels(pts[..n]);
  }

  lemma InnerNext(pts: seq<Point>)
    requires pts != []
    ensures |InnerOnly(pts)| == |InnerOnly(pts[..|pts| - 1])| + if pts[|pts| - 1].inner && !pts[|pts| - 1].bevel then 1 else 0
  {
    var n, p := |pts| - 1, pts[|pts| - 1];
    assert InnerOnly(pts) == if p.inner && !p.bevel then InnerOnly(pts[..n]) + {n} else InnerOnly(pts[..n]);
  }

  lemma MarkedNext(pts: seq<Point>)
    requires pts != []
    ensures |Marked(pts)| == |Marked(pts[..|pts| - 1])| + if Bevelled(pts[|pts| - 1]) then 1 else 0
  {
    var n, p := |pts| - 1, pts[|pts| - 1];
    assert Marked(pts) == if Bevelled(p) then Marked(pts[..n]) + {n} else Marked(pts[..n]);
  }

  lemma NoMarks()
    ensures Bevels([]) == {} && InnerOnly([]) == {} && Marked([]) == {}
  {}

  /** Joins that are not round write two vertices for every point, six more for a bevel and
      eight more for an inner bevel alone. */
  lemma {:induction false} JoinsExactly(pts: seq<Point>, join: Join, ncap: nat)
    requires 2 <= ncap && !join.RoundJoin?
    ensures JoinSizes(pts, join, ncap) == 2 * |pts| + 6 * |Bevels(pts)| + 8 * |InnerOnly(pts)|
    decreases |pts|
  {
    NoMarks();
    if pts != [] {
      BevelsNext(pts);
      InnerNext(pts);
      JoinsExactly(pts[..|pts| - 1], join, ncap);
    }
  }

  /** Round joins write two vertices for every point, and from six to 2 ncap + 2 more for one
      with a flag. */
  lemma {:induction false} RoundJoinsWithin(pts: seq<Point>, ncap: nat)
    requires 2 <= ncap
    ensures 2 * |pts| + 6 * |Marked(pts)| <= JoinSizes(pts, RoundJoin, ncap) <= 2 * |pts| + |Marked(pts)| * (2 * ncap + 2)
    decreases |pts|
  {
    NoMarks();
    if pts != [] {
      var n := |pts| - 1;
      MarkedNext(pts);
      RoundJoinsWithin(pts[..n], ncap);
      OneMoreTime(|Marked(pts[..n])|, 2 * ncap + 2);
      RoundJoinWithin(pts[n], ncap);
    }
  }

  lemma OneMoreTime(m: nat, x: nat)
    ensures (m + 1) * x == m * x + x
  {}

  lemma RoundJoinWithin(p: Point, ncap: nat)
    requires 2 <= ncap
    ensures if Bevelled(p) then 8 <= JoinSize(p, RoundJoin, ncap) <= 2 * ncap + 4 else JoinSize(p, RoundJoin, ncap) == 2
  {}

  /** The stroke of a path: its joins, and two caps or two vertices that close it. */
  lemma StrokeExactly(path: Path, cap: Cap, join: Join, ncap: nat)
    requires 2 <= ncap
    ensures StrokeSize(path, cap, join, ncap) == JoinSizes(Joined(path), join, ncap)
      + if path.closed then 2 else if cap.RoundCap? then 4 * ncap + 4 else 8
    ensures Joined(path) == if path.closed then path.pts else if |path.pts| <= 2 then [] else path.pts[1..|path.pts| - 1]
    ensures |Joined(path)| == if path.closed then |path.pts| else if |path.pts| <= 2 then 0 else |path.pts| - 2
  {}

  // ---- the emitters; each returns the position behind what it wrote

  /** Vertices [a, b) carry the mark and those before a are as they were. */
  ghost predicate Wrote(was: seq<Vertex>, now: seq<Vertex>, a: int, b: int, mark: Vertex) {
    && |now| == |was| && 0 <= a <= b <= |now| && now[..a] == was[..a]
    && forall k :: a <= k < b ==> now[k] == mark
  }

  lemma WroteMore(was: seq<Vertex>, mid: seq<Vertex>, now: seq<Vertex>, a: int, b: int, c: int, mark: Vertex)
    requires Wrote(was, mid, a, b, mark) && Wrote(mid, now, b, c, mark)
    ensures Wrote(was, now, a, c, mark)
  {
    assert now[..a] == now[..b][..a] && mid[..a] == mid[..b][..a];
    forall k | a <= k < c ensures now[k] == mark {
      if k < b { assert now[k] == now[..b][k] && mid[k] == mid[..b][k]; }
    }
  }

  /** n pairs of nvg__vset. */
  method Pairs(verts: array<Vertex>, dst: nat, n: nat, mark: Vertex) returns (d: nat)
    requires dst + 2 * n <= verts.Length
    modifies verts
    ensures d == dst + 2 * n && Wrote(old(verts[..]), verts[..], dst, d, mark)
  {
    d := dst;
    for i := 0 to n
      invariant d == dst + 2 * i && Wrote(old(verts[..]), verts[..], dst, d, mark)
    {
      verts[d] := mark;
      d := d + 1;
      verts[d] := mark;
      d := d + 1;
    }
  }

  /** nvg__roundJoin. */
  method EmitRoundJoin(verts: array<Vertex>, dst: nat, p: Point, ncap: nat, mark: Vertex) returns (d: nat)
    requires 2 <= ncap && Bevelled(p) && dst + JoinSize(p, RoundJoin, ncap) <= verts.Length
    modifies verts
    ensures d == dst + 4 + 2 * (if p.steps < 2 then 2 else if p.steps > ncap then ncap else p.steps)
    ensures d == dst + JoinSize(p, RoundJoin, ncap) && Wrote(old(verts[..]), verts[..], dst, d, mark)
  {
    d := Pairs(verts, dst, 1, mark);
    ghost var a := verts[..];
    var n := Clamp(p.steps, 2, ncap);
    d := Pairs(verts, d, n, mark);
    WroteMore(old(verts[..]), a, verts[..], dst, dst + 2, d, mark);
    ghost var b, e := verts[..], d;
    d := Pairs(verts, d, 1, mark);
    WroteMore(old(verts[..]), b, verts[..], dst, e, d, mark);
  }

  /** nvg__bevelJoin. */
  method EmitBevelJoin(verts: array<Vertex>, dst: nat, p: Point, ncap: nat, mark: Vertex) returns (d: nat)
    requires 2 <= ncap && Bevelled(p) && dst + JoinSize(p, BevelJoin, ncap) <= verts.Length
    modifies verts
    ensures d == dst + if p.bevel then 8 else 10
    ensures d == dst + JoinSize(p, BevelJoin, ncap) && Wrote(old(verts[..]), verts[..], dst, d, mark)
  {
    d := Pairs(verts, dst, 1, mark);
    ghost var a := verts[..];
    if p.bevel { d := Pairs(verts, d, 2, mark); } else { d := Pairs(verts, d, 3, mark); }
    WroteMore(old(verts[..]), a, verts[..], dst, dst + 2, d, mark);
    ghost var b, e := verts[..], d;
    d := Pairs(verts, d, 1, mark);
    WroteMore(old(verts[..]), b, verts[..], dst, e, d, mark);
  }

  /** The body of the loop over the joins. */
  method EmitJoin(verts: array<Vertex>, dst: nat, p: Point, join: Join, ncap: nat, mark: Vertex) returns (d: nat)
    requires 2 <= ncap && dst + JoinSize(p, join, ncap) <= verts.Length
    modifies verts
    ensures !p.bevel && !p.inner ==> d == dst + 2
    ensures d == dst + JoinSize(p, join, ncap) && Wrote(old(verts[..]), verts[..], dst, d, mark)
  {
    if p.bevel || p.inner {
      if join.RoundJoin? { d := EmitRoundJoin(verts, dst, p, ncap, mark); } else { d := EmitBevelJoin(verts, dst, p, ncap, mark); }
    } else {
      d := Pairs(verts, dst, 1, mark);
    }
  }

  /** The four cap functions, by what they write. */
  method EmitCap(verts: array<Vertex>, dst: nat, cap: Cap, ncap: nat, mark: Vertex) returns (d: nat)
    requires dst + CapSize(cap, ncap) <= verts.Length
    modifies verts
    ensures d == dst + if cap.RoundCap? then 2 * ncap + 2 else 4
    ensures d == dst + CapSize(cap, ncap) && Wrote(old(verts[..]), verts[..], dst, d, mark)
  {
    if cap.RoundCap? { d := Pairs(verts, dst, ncap + 1, mark); } else { d := Pairs(verts, dst, 2, mark); }
  }

  lemma JoinSizesNext(pts: seq<Point>, join: Join, ncap: nat, j: nat)
    requires 2 <= ncap && j < |pts|
    ensures JoinSizes(pts[..j + 1], join, ncap) == JoinSizes(pts[..j], join, ncap) + JoinSize(pts[j], join, ncap)
  {
    assert pts[..j + 1][..j] == pts[..j];
  }

  lemma {:induction false} JoinSizesPrefix(pts: seq<Point>, join: Join, ncap: nat, j: nat)
    requires 2 <= ncap && j <= |pts|
    ensures JoinSizes(pts[..j], join, ncap) <= JoinSizes(pts, join, ncap)
    decreases |pts|
  {
    if j == |pts| {
      assert pts[..j] == pts;
    } else {
      JoinSizesPrefix(pts[..|pts| - 1], join, ncap, j);
      assert pts[..|pts| - 1][..j] == pts[..j];
    }
  }

  method EmitJoins(verts: array<Vertex>, dst: nat, pts: seq<Point>, join: Join, ncap: nat, mark: Vertex) returns (d: nat)
    requires 2 <= ncap && dst + JoinSizes(pts, join, ncap) <= verts.Length
    modifies verts
    ensures d == dst + JoinSizes(pts, join, ncap) && Wrote(old(verts[..]), verts[..], dst, d, mark)
  {
    d := dst;
    for j := 0 to |pts|
      invariant d == dst + JoinSizes(pts[..j], join, ncap) && Wrote(old(verts[..]), verts[..], dst, d, mark)
    {
      JoinSizesNext(pts, join, ncap, j);
      JoinSizesPrefix(pts, join, ncap, j + 1);
      ghost var mid, e := verts[..], d;
      d := EmitJoin(verts, d, pts[j], join, ncap, mark);
      WroteMore(old(verts[..]), mid, verts[..], dst, e, d, mark);
    }
    assert pts[..|pts|] == pts;
  }

  /** The body of nvg__expandStroke for one path. */
  method StrokePath(verts: array<Vertex>, dst: nat, path: Path, cap: Cap, join: Join, ncap: nat, mark: Vertex) returns (d: nat)
    requires 2 <= ncap && dst + StrokeSize(path, cap, join, ncap) <= verts.Length
    modifies verts
    ensures d == dst + StrokeSize(path, cap, join, ncap) && Wrote(old(verts[..]), verts[..], dst, d, mark)
  {
    d := dst;
    if !path.closed { d := EmitCap(verts, d, cap, ncap, mark); }
    ghost var a, e := verts[..], d;
    var s, t := if path.closed then 0 else 1, if path.closed then |path.pts| else |path.pts| - 1;
    var joined := if s <= t then path.pts[s..t] else [];
    assert joined == Joined(path);
    d := EmitJoins(verts, d, joined, join, ncap, mark);
    WroteMore(old(verts[..]), a, verts[..], dst, e, d, mark);
    a, e := verts[..], d;
    if path.closed { d := Pairs(verts, d, 1, mark); } else { d := EmitCap(verts, d, cap, ncap, mark); }
    WroteMore(old(verts[..]), a, verts[..], dst, e, d, mark);
  }

  // ---- whole paths

  /** Vertices written for path i lie in [lo, hi). */
  ghost predicate Owns(verts: seq<Vertex>, lo: nat, hi: nat, mark: Vertex) {
    lo <= hi <= |verts| && forall k :: lo <= k < hi ==> verts[k] == mark
  }

  lemma OwnsKept(was: seq<Vertex>, now: seq<Vertex>, lo: nat, hi: nat, a: nat, b: nat, mark: Vertex, other: Vertex)
    requires Owns(was, lo, hi, mark) && hi <= a && Wrote(was, now, a, b, other)
    ensures Owns(now, lo, hi, mark)
  {
    forall k | lo <= k < hi ensures now[k] == mark { assert now[k] == now[..a][k] && was[k] == was[..a][k]; }
  }

  /** The budgets of the first paths. */
  function StrokeBudgets(paths: seq<Path>, cap: Cap, join: Join, ncap: nat): nat {
    if paths == [] then 0
    else StrokeBudgets(paths[..|paths| - 1], cap, join, ncap) + StrokeBudget(paths[|paths| - 1], cap, join, ncap)
  }

  predicate Counted(paths: seq<Path>) {
    forall i :: 0 <= i < |paths| ==> paths[i].nbevel == CountBevelled(paths[i].pts)
  }

  /** Where the stroke of path i begins: behind those before it. */
  function StrokeStart(paths: seq<Path>, i: nat): nat
    requires i <= |paths|
  {
    if i == 0 then 0 else paths[i - 1].stroke + paths[i - 1].nstroke
  }

  /** Path i has the vertices of its stroke, behind those of the path before, and no one
      else has written there. */
  ghost predicate StrokeRight(verts: seq<Vertex>, paths: seq<Path>, i: nat, cap: Cap, join: Join, ncap: nat)
    requires 2 <= ncap && i < |paths|
  {
    && paths[i].stroke == StrokeStart(paths, i) && paths[i].nstroke == StrokeSize(paths[i], cap, join, ncap)
    && paths[i].nfill == 0
    && Owns(verts, paths[i].stroke, paths[i].stroke + paths[i].nstroke, Vertex(i, Stroke))
  }

  lemma {:induction false} BudgetsMonotone(paths: seq<Path>, i: nat, cap: Cap, join: Join, ncap: nat)
    requires i < |paths|
    ensures StrokeBudgets(paths[..i], cap, join, ncap) + StrokeBudget(paths[i], cap, join, ncap) <= StrokeBudgets(paths, cap, join, ncap)
    decreases |paths|
  {
    var n := |paths| - 1;
    if i < n {
      BudgetsMonotone(paths[..n], i, cap, join, ncap);
      assert paths[..n][..i] == paths[..i];
    }
  }

  /** The first n strokes are written and end at dst. */
  ghost predicate Strokes(verts: seq<Vertex>, paths: seq<Path>, r: seq<Path>, n: nat, dst: nat, cap: Cap, join: Join, ncap: nat)
    requires 2 <= ncap
  {
    && |r| == |paths| && n <= |r| && dst == StrokeStart(r, n)
    && (forall k :: n <= k < |r| ==> r[k] == paths[k])
    && (forall k :: 0 <= k < n ==> StrokeDone(verts, paths, r, k, dst, cap, join, ncap))
  }

  ghost predicate StrokeDone(verts: seq<Vertex>, paths: seq<Path>, r: seq<Path>, k: nat, dst: nat, cap: Cap, join: Join, ncap: nat)
    requires 2 <= ncap
  {
    && k < |paths| == |r| && r[k].pts == paths[k].pts && r[k].closed == paths[k].closed
    && StrokeRight(verts, r, k, cap, join, ncap) && r[k].stroke + r[k].nstroke <= dst
  }

  function Stroked(p: Path, dst: nat, n: nat): Path { p.(nfill := 0, stroke := dst, nstroke := n) }

  lemma StrokesNext(was: seq<Vertex>, now: seq<Vertex>, paths: seq<Path>, r: seq<Path>, i: nat, dst: nat, d: nat, cap: Cap, join: Join, ncap: nat)
    requires 2 <= ncap && i < |paths| && Strokes(was, paths, r, i, dst, cap, join, ncap)
    requires d == dst + StrokeSize(paths[i], cap, join, ncap) && Wrote(was, now, dst, d, Vertex(i, Stroke))
    ensures Strokes(now, paths, r[i := Stroked(r[i], dst, d - dst)], i + 1, d, cap, join, ncap)
  {
    var r' := r[i := Stroked(r[i], dst, d - dst)];
    forall k | 0 <= k < i + 1 ensures StrokeDone(now, paths, r', k, d, cap, join, ncap) {
      if k < i {
        assert StrokeDone(was, paths, r, k, dst, cap, join, ncap);
        OwnsKept(was, now, r[k].stroke, r[k].stroke + r[k].nstroke, dst, d, Vertex(k, Stroke), Vertex(i, Stroke));
      }
    }
  }

  lemma BudgetsNext(paths: seq<Path>, i: nat, cap: Cap, join: Join, ncap: nat)
    requires i < |paths|
    ensures StrokeBudgets(paths[..i + 1], cap, join, ncap) == StrokeBudgets(paths[..i], cap, join, ncap) + StrokeBudget(paths[i], cap, join, ncap)
  {
    assert paths[..i + 1][..i] == paths[..i];
  }

  /** The share of one path. */
  method CountPath(path: Path, cap: Cap, join: Join, ncap: nat) returns (cverts: nat)
    ensures cverts == StrokeBudget(path, cap, join, ncap)
  {
    if join.RoundJoin? {
      cverts := (|path.pts| + path.nbevel * (ncap + 2) + 1) * 2;
    } else {
      cverts := (|path.pts| + path.nbevel * 5 + 1) * 2;
    }
    if !path.closed {
      if cap.RoundCap? { cverts := cverts + (ncap * 2 + 2) * 2; } else { cverts := cverts + (3 + 3) * 2; }
    }
  }

  /** The loop that computes cverts for a stroke. */
  method CountStroke(paths: seq<Path>, cap: Cap, join: Join, ncap: nat) returns (cverts: nat)
    ensures cverts == StrokeBudgets(paths, cap, join, ncap)
  {
    cverts := 0;
    for i := 0 to |paths|
      invariant cverts == StrokeBudgets(paths[..i], cap, join, ncap)
    {
      var more := CountPath(paths[i], cap, join, ncap);
      BudgetsNext(paths, i, cap, join, ncap);
      cverts := cverts + more;
    }
    assert paths[..|paths|] == paths;
  }

  lemma StrokeFits(paths: seq<Path>, i: nat, cap: Cap, join: Join, ncap: nat)
    requires 2 <= ncap && Counted(paths) && i < |paths|
    ensures StrokeBudgets(paths[..i], cap, join, ncap) + StrokeSize(paths[i], cap, join, ncap) <= StrokeBudgets(paths[..i + 1], cap, join, ncap)
    ensures StrokeBudgets(paths[..i + 1], cap, join, ncap) <= StrokeBudgets(paths, cap, join, ncap)
  {
    StrokeWithin(paths[i], cap, join, ncap);
    BudgetsMonotone(paths, i, cap, join, ncap);
    assert paths[..i + 1][..i] == paths[..i];
  }

  /** The rest of nvg__expandStroke, with the joins counted. */
  method EmitStrokes(paths: seq<Path>, cap: Cap, join: Join, ncap: nat) returns (verts: array<Vertex>, r: seq<Path>, used: nat)
    requires 2 <= ncap && Counted(paths)
    ensures verts.Length == StrokeBudgets(paths, cap, join, ncap) && used <= verts.Length
    ensures Strokes(verts[..], paths, r, |paths|, used, cap, join, ncap)
  {
    var cverts := CountStroke(paths, cap, join, ncap);
    verts := new Vertex[cverts](_ => Vertex(0, Fill));
    r, used := paths, 0;
    for i := 0 to |paths|
      invariant Strokes(verts[..], paths, r, i, used, cap, join, ncap) && used <= StrokeBudgets(paths[..i], cap, join, ncap)
    {
      StrokeFits(paths, i, cap, join, ncap);
      ghost var was := verts[..];
      var d := StrokePath(verts, used, paths[i], cap, join, ncap, Vertex(i, Stroke));
      StrokesNext(was, verts[..], paths, r, i, used, d, cap, join, ncap);
      r := r[i := Stroked(r[i], used, d - used)];
      used := d;
    }
    assert paths[..|paths|] == paths;
  }

  /** nvg__expandStroke: everything fits into the cverts vertices set aside before, and the
      paths' ranges follow each other without overlap. */
  method ExpandStroke(paths: seq<Path>, shapes: seq<seq<Shape>>, cap: Cap, join: Join, ncap: nat)
    returns (verts: array<Vertex>, joined: seq<Path>, r: seq<Path>, used: nat)
    requires 2 <= ncap && Described(paths, shapes)
    ensures AllJoinsOf(joined, paths, shapes, join)
    ensures verts.Length == StrokeBudgets(joined, cap, join, ncap) && used <= verts.Length
    ensures Strokes(verts[..], joined, r, |paths|, used, cap, join, ncap)
  {
    joined := CalculateAllJoins(paths, shapes, join);
    verts, r, used := EmitStrokes(joined, cap, join, ncap);
  }

  // ---- fills

  function FillPointSize(p: Point): nat { if p.bevel && !p.left then 2 else 1 }

  function FillSizes(pts: seq<Point>): nat {
    if pts == [] then 0 else FillSizes(pts[..|pts| - 1]) + FillPointSize(pts[|pts| - 1])
  }

  function Corners(pts: seq<Point>): set<nat> { set j: nat | j < |pts| && pts[j].bevel && !pts[j].left }

  /** A fill with fringe has two vertices for a bevelled right turn and one for any other point. */
  lemma {:induction false} FillExactly(pts: seq<Point>)
    ensures FillSizes(pts) == |pts| + |Corners(pts)|
    decreases |pts|
  {
    if pts == [] {
      assert Corners([]) == {};
    } else {
      var n, p := |pts| - 1, pts[|pts| - 1];
      FillExactly(pts[..n]);
      assert Corners(pts) == if p.bevel && !p.left then Corners(pts[..n]) + {n} else Corners(pts[..n]);
    }
  }

  function FillSize(path: Path, fringe: bool): nat { if fringe then FillSizes(path.pts) else |path.pts| }

  function FringeSize(path: Path, fringe: bool): nat { if fringe then JoinSizes(path.pts, BevelJoin, 2) + 2 else 0 }

  /** What nvg__expandFill sets aside for a path. */
  function FillBudget(path: Path, fringe: bool): nat {
    |path.pts| + path.nbevel + 1 + if fringe then (|path.pts| + path.nbevel * 5 + 1) * 2 else 0
  }

  lemma {:induction false} FillPointsWithin(pts: seq<Point>)
    ensures FillSizes(pts) <= |pts| + CountBevelled(pts)
    decreases |pts|
  {
    if pts != [] { FillPointsWithin(pts[..|pts| - 1]); }
  }

  lemma FillWithin(path: Path, fringe: bool)
    requires path.nbevel == CountBevelled(path.pts)
    ensures FillSize(path, fringe) + FringeSize(path, fringe) <= FillBudget(path, fringe)
  {
    FillPointsWithin(path.pts);
    JoinsWithin(path.pts, BevelJoin, 2);
  }

  lemma FillSizesNext(pts: seq<Point>, j: nat)
    requires j < |pts|
    ensures FillSizes(pts[..j + 1]) == FillSizes(pts[..j]) + FillPointSize(pts[j])
  {
    assert pts[..j + 1][..j] == pts[..j];
  }

  lemma {:induction false} FillSizesPrefix(pts: seq<Point>, j: nat)
    requires j <= |pts|
    ensures FillSizes(pts[..j]) <= FillSizes(pts)
    decreases |pts|
  {
    if j == |pts| {
      assert pts[..j] == pts;
    } else {
      FillSizesPrefix(pts[..|pts| - 1], j);
      assert pts[..|pts| - 1][..j] == pts[..j];
    }
  }

  /** The shape vertices of one path. */
  method FillPath(verts: array<Vertex>, dst: nat, path: Path, fringe: bool, mark: Vertex) returns (d: nat)
    requires dst + FillSize(path, fringe) <= verts.Length
    modifies verts
    ensures d == dst + FillSize(path, fringe) && Wrote(old(verts[..]), verts[..], dst, d, mark)
  {
    d := dst;
    for j := 0 to |path.pts|
      invariant d == dst + if fringe then FillSizes(path.pts[..j]) else j
      invariant Wrote(old(verts[..]), verts[..], dst, d, mark)
    {
      FillSizesNext(path.pts, j);
      FillSizesPrefix(path.pts, j + 1);
      verts[d] := mark;
      d := d + 1;
      if fringe && path.pts[j].bevel && !path.pts[j].left {
        verts[d] := mark;
        d := d + 1;
      }
    }
    assert path.pts[..|path.pts|] == path.pts;
  }

  /** The fringe of one path, a closed stroke of bevel joins. */
  method FringePath(verts: array<Vertex>, dst: nat, path: Path, mark: Vertex) returns (d: nat)
    requires dst + FringeSize(path, true) <= verts.Length
    modifies verts
    ensures d == dst + FringeSize(path, true) && Wrote(old(verts[..]), verts[..], dst, d, mark)
  {
    d := EmitJoins(verts, dst, path.pts, BevelJoin, 2, mark);
    ghost var a, e := verts[..], d;
    d := Pairs(verts, d, 1, mark);
    WroteMore(old(verts[..]), a, verts[..], dst, e, d, mark);
  }

  function FillBudgets(paths: seq<Path>, fringe: bool): nat {
    if paths == [] then 0 else FillBudgets(paths[..|paths| - 1], fringe) + FillBudget(paths[|paths| - 1], fringe)
  }

  lemma {:induction false} FillBudgetsMonotone(paths: seq<Path>, i: nat, fringe: bool)
    requires i < |paths|
    ensures FillBudgets(paths[..i], fringe) + FillBudget(paths[i], fringe) <= FillBudgets(paths, fringe)
    decreases |paths|
  {
    var n := |paths| - 1;
    if i < n {
      FillBudgetsMonotone(paths[..n], i, fringe);
      assert paths[..n][..i] == paths[..i];
    }
  }

  /** The first n paths have their fill vertices and behind them their fringe vertices,
      and end at dst. */
  ghost predicate Fills(verts: seq<Vertex>, paths: seq<Path>, r: seq<Path>, n: nat, dst: nat, fringe: bool) {
    && |r| == |paths| && n <= |r| && dst == FillStart(r, n)
    && (forall k :: n <= k < |r| ==> r[k] == paths[k])
    && (forall k :: 0 <= k < n ==> FillDone(verts, paths, r, k, dst, fringe))
  }

  function FillStart(paths: seq<Path>, i: nat): nat
    requires i <= |paths|
  {
    if i == 0 then 0 else paths[i - 1].stroke + paths[i - 1].nstroke
  }

  ghost predicate FillDone(verts: seq<Vertex>, paths: seq<Path>, r: seq<Path>, k: nat, dst: nat, fringe: bool) {
    && k < |paths| == |r| && r[k].pts == paths[k].pts
    && r[k].fill == FillStart(r, k) && r[k].nfill == FillSize(paths[k], fringe)
    && r[k].stroke == r[k].fill + r[k].nfill && r[k].nstroke == FringeSize(paths[k], fringe)
    && r[k].stroke + r[k].nstroke <= dst
    && Owns(verts, r[k].fill, r[k].stroke, Vertex(k, Fill))
    && Owns(verts, r[k].stroke, r[k].stroke + r[k].nstroke, Vertex(k, Stroke))
  }

  function Filled(p: Path, dst: nat, m: nat, d: nat): Path
    requires dst <= m <= d
  {
    p.(fill := dst, nfill := m - dst, stroke := m, nstroke := d - m)
  }

  lemma FillsNext(was: seq<Vertex>, mid: seq<Vertex>, now: seq<Vertex>, paths: seq<Path>, r: seq<Path>, i: nat, dst: nat, m: nat, d: nat, fringe: bool)
    requires i < |paths| && Fills(was, paths, r, i, dst, fringe)
    requires m == dst + FillSize(paths[i], fringe) && Wrote(was, mid, dst, m, Vertex(i, Fill))
    requires d == m + FringeSize(paths[i], fringe) && Wrote(mid, now, m, d, Vertex(i, Stroke))
    ensures Fills(now, paths, r[i := Filled(r[i], dst, m, d)], i + 1, d, fringe)
  {
    var r' := r[i := Filled(r[i], dst, m, d)];
    forall k | 0 <= k < i + 1 ensures FillDone(now, paths, r', k, d, fringe) {
      if k < i {
        assert FillDone(was, paths, r, k, dst, fringe);
        OwnsKept(was, mid, r[k].fill, r[k].stroke, dst, m, Vertex(k, Fill), Vertex(i, Fill));
        OwnsKept(mid, now, r[k].fill, r[k].stroke, m, d, Vertex(k, Fill), Vertex(i, Stroke));
        OwnsKept(was, mid, r[k].stroke, r[k].stroke + r[k].nstroke, dst, m, Vertex(k, Stroke), Vertex(i, Fill));
        OwnsKept(mid, now, r[k].stroke, r[k].stroke + r[k].nstroke, m, d, Vertex(k, Stroke), Vertex(i, Stroke));
      } else {
        OwnsKept(mid, now, dst, m, m, d, Vertex(i, Fill), Vertex(i, Stroke));
      }
    }
  }

  /** The loop that computes cverts for a fill. */
  method CountFill(paths: seq<Path>, fringe: bool) returns (cverts: nat)
    ensures cverts == FillBudgets(paths, fringe)
  {
    cverts := 0;
    for i := 0 to |paths|
      invariant cverts == FillBudgets(paths[..i], fringe)
    {
      assert paths[..i + 1][..i] == paths[..i];
      cverts := cverts + |paths[i].pts| + paths[i].nbevel + 1;
      if fringe { cverts := cverts + (|paths[i].pts| + paths[i].nbevel * 5 + 1) * 2; }
    }
    assert paths[..|paths|] == paths;
  }

  lemma FillFits(paths: seq<Path>, i: nat, fringe: bool)
    requires Counted(paths) && i < |paths|
    ensures FillBudgets(paths[..i], fringe) + FillSize(paths[i], fringe) + FringeSize(paths[i], fringe) <= FillBudgets(paths[..i + 1], fringe)
    ensures FillBudgets(paths[..i + 1], fringe) <= FillBudgets(paths, fringe)
  {
    FillWithin(paths[i], fringe);
    FillBudgetsMonotone(paths, i, fringe);
    assert paths[..i + 1][..i] == paths[..i];
  }

  /** The rest of nvg__expandFill, with the joins counted. */
  method EmitFills(paths: seq<Path>, fringe: bool) returns (verts: array<Vertex>, r: seq<Path>, used: nat)
    requires Counted(paths)
    ensures verts.Length == FillBudgets(paths, fringe) && used <= verts.Length
    ensures Fills(verts[..], paths, r, |paths|, used, fringe)
  {
    var cverts := CountFill(paths, fringe);
    verts := new Vertex[cverts](_ => Vertex(0, Fill));
    r, used := paths, 0;
    for i := 0 to |paths|
      invariant Fills(verts[..], paths, r, i, used, fringe) && used <= FillBudgets(paths[..i], fringe)
    {
      FillFits(paths, i, fringe);
      ghost var was := verts[..];
      var m := FillPath(verts, used, paths[i], fringe, Vertex(i, Fill));
      ghost var mid := verts[..];
      var d := m;
      if fringe { d := FringePath(verts, m, paths[i], Vertex(i, Stroke)); }
      FillsNext(was, mid, verts[..], paths, r, i, used, m, d, fringe);
      r := r[i := Filled(r[i], used, m, d)];
      used := d;
    }
    assert paths[..|paths|] == paths;
  }

  /** nvg__expandFill: fills and fringes fit into what was set aside, one behind the other. */
  method ExpandFill(paths: seq<Path>, shapes: seq<seq<Shape>>, join: Join, fringe: bool)
    returns (verts: array<Vertex>, joined: seq<Path>, r: seq<Path>, used: nat)
    requires Described(paths, shapes)
    ensures AllJoinsOf(joined, paths, shapes, join)
    ensures verts.Length == FillBudgets(joined, fringe) && used <= verts.Length
    ensures Fills(verts[..], joined, r, |paths|, used, fringe)
  {
    joined := CalculateAllJoins(paths, shapes, join);
    verts, r, used := EmitFills(joined, fringe);
  }

  /** Fill and fringe of one path, and those of different paths, do not overlap. */
  lemma {:induction false} FillsApart(verts: seq<Vertex>, paths: seq<Path>, r: seq<Path>, dst: nat, fringe: bool, i: nat, j: nat)
    requires Fills(verts, paths, r, |paths|, dst, fringe) && i < j < |r|
    ensures r[i].fill + r[i].nfill <= r[i].stroke <= r[i].stroke + r[i].nstroke <= r[j].fill
    ensures r[j].fill + r[j].nfill <= r[j].stroke <= r[j].stroke + r[j].nstroke <= |verts|
    decreases j
  {
    assert FillDone(verts, paths, r, i, dst, fringe) && FillDone(verts, paths, r, j, dst, fringe);
    if i < j - 1 {
      FillsApart(verts, paths, r, dst, fringe, i, j - 1);
    }
  }

  /** Ranges of different paths do not overlap. */
  lemma {:induction false} StrokesApart(verts: seq<Vertex>, paths: seq<Path>, r: seq<Path>, dst: nat, cap: Cap, join: Join, ncap: nat, i: nat, j: nat)
    requires 2 <= ncap && Strokes(verts, paths, r, |paths|, dst, cap, join, ncap) && i < j < |r|
    ensures r[i].stroke + r[i].nstroke <= r[j].stroke <= r[j].stroke + r[j].nstroke <= |verts|
    decreases j
  {
    assert StrokeDone(verts, paths, r, j, dst, cap, join, ncap);
    if i < j - 1 {
      StrokesApart(verts, paths, r, dst, cap, join, ncap, i, j - 1);
    }
  }
}
