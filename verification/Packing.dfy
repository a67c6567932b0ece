/** Rectangle packing on a skyline as a value: which span a rectangle goes to, when it is
    refused, and what a run of requests leaves. */
module Packing {
  import opened Skyline

  const SHORT_MAX: int := 32767

  /** Conversion to a 16-bit `short`. */
  function ToShort(v: int): int {
    var m := v % 65536;
    if m > SHORT_MAX then m - 65536 else m
  }

  lemma {:induction false} ShortSame(v: int)
    requires 0 <= v <= SHORT_MAX
    ensures ToShort(v) == v
  {}

  /** The state of the packer. */
  datatype Sky = Sky(nodes: seq<Node>, width: int, height: int)

  /** The spans cover [0, width) at levels inside the atlas. */
  predicate SkyOk(s: Sky) {
    && 1 <= s.width <= SHORT_MAX && 0 <= s.height <= SHORT_MAX
    && Chain(s.nodes, 0) && |Columns(s.nodes)| == s.width
    && LevelsWithin(Columns(s.nodes), s.height)
  }

  /** Every level lies in [0, height]. */
  predicate LevelsWithin(cols: seq<int>, height: int) {
    cols == [] || (0 <= cols[|cols| - 1] <= height && LevelsWithin(cols[..|cols| - 1], height))
  }

  lemma {:induction false} LevelsExact(cols: seq<int>, height: int)
    ensures LevelsWithin(cols, height) <==> forall c :: 0 <= c < |cols| ==> 0 <= cols[c] <= height
    decreases |cols|
  {
    if cols != [] { LevelsExact(cols[..|cols| - 1], height); }
  }

  lemma {:induction false} RaisedWithin(cols: seq<int>, height: int, x: int, w: nat, level: int)
    requires LevelsWithin(cols, height) && 0 <= x && x + w <= |cols| && 0 <= level <= height
    ensures LevelsWithin(Raised(cols, x, w, level), height)
  {
    LevelsExact(cols, height);
    LevelsExact(Raised(cols, x, w, level), height);
  }

  lemma {:induction false} WidenedWithin(cols: seq<int>, height: int, more: nat, height': int)
    requires LevelsWithin(cols, height) && 0 <= height <= height'
    ensures LevelsWithin(cols + Repeat(0, more), height')
  {
    LevelsExact(cols, height);
    LevelsExact(cols + Repeat(0, more), height');
  }

  lemma {:induction false} TailNode(tail: seq<Node>, x0: int, m: nat)
    requires Chain(tail, x0) && m < |tail|
    ensures x0 <= tail[m].x && 0 < tail[m].width && tail[m].x + tail[m].width <= x0 + |Columns(tail)|
  {
    SpanEnd(tail, x0, m);
    if m + 1 < |tail| { SpanAt(tail, x0, m + 1); }
  }

  // ---- where a rectangle goes

  /** Span i can take a w by h rectangle. */
  predicate Fits(s: Sky, i: int, w: nat, h: nat)
    requires SkyOk(s) && 1 <= w
  {
    && 0 <= i < |s.nodes| && 0 <= s.nodes[i].x && s.nodes[i].x + w <= s.width
    && Peak(Columns(s.nodes), s.nodes[i].x, w) + h <= s.height
  }

  /** The top of the rectangle on span i. */
  function Top(s: Sky, i: int, w: nat, h: nat): int
    requires SkyOk(s) && 1 <= w && Fits(s, i, w, h)
  {
    Peak(Columns(s.nodes), s.nodes[i].x, w) + h
  }

  /** Lower top first, then narrower span. */
  predicate Better(top1: int, width1: int, top2: int, width2: int) {
    top1 < top2 || (top1 == top2 && width1 < width2)
  }

  /** The bottom-left choice: the first of the best fitting spans, and better than
      a span as wide as the atlas whose rectangle would end flush with its top. */
  ghost predicate Best(s: Sky, b: int, w: nat, h: nat)
    requires SkyOk(s) && 1 <= w
  {
    && Fits(s, b, w, h) && Better(Top(s, b, w, h), s.nodes[b].width, s.height, s.width)
    && (forall i :: 0 <= i < b && Fits(s, i, w, h) ==> Better(Top(s, b, w, h), s.nodes[b].width, Top(s, i, w, h), s.nodes[i].width))
    && (forall i :: b < i < |s.nodes| && Fits(s, i, w, h) ==> !Better(Top(s, i, w, h), s.nodes[i].width, Top(s, b, w, h), s.nodes[b].width))
  }

  lemma {:induction false} BestUnique(s: Sky, a: int, b: int, w: nat, h: nat)
    requires SkyOk(s) && 1 <= w && Best(s, a, w, h) && Best(s, b, w, h)
    ensures a == b
  {}

  /** b is the best of the first n spans, with top besth and width bestw. */
  ghost predicate Leads(s: Sky, b: int, besth: int, bestw: int, n: int, w: nat, h: nat)
    requires SkyOk(s) && 1 <= w
  {
    && -1 <= b < n
    && (b == -1 ==> besth == s.height && bestw == s.width)
    && (b != -1 ==> Fits(s, b, w, h) && besth == Top(s, b, w, h) && bestw == s.nodes[b].width && Better(besth, bestw, s.height, s.width))
    && (forall k :: 0 <= k < b && Fits(s, k, w, h) ==> Better(besth, bestw, Top(s, k, w, h), s.nodes[k].width))
    && (forall k :: b < k < n && Fits(s, k, w, h) ==> !Better(Top(s, k, w, h), s.nodes[k].width, besth, bestw))
  }

  lemma {:induction false} LeadsOn(s: Sky, b: int, besth: int, bestw: int, n: nat, w: nat, h: nat)
    requires SkyOk(s) && 1 <= w && n < |s.nodes| && Leads(s, b, besth, bestw, n, w, h)
    ensures if Takes(s, besth, bestw, n, w, h)
            then Leads(s, n, Top(s, n, w, h), s.nodes[n].width, n + 1, w, h)
            else Leads(s, b, besth, bestw, n + 1, w, h)
  {}

  /** Span n takes the lead. */
  predicate Takes(s: Sky, besth: int, bestw: int, n: nat, w: nat, h: nat)
    requires SkyOk(s) && 1 <= w && n < |s.nodes|
  {
    Fits(s, n, w, h) && Better(Top(s, n, w, h), s.nodes[n].width, besth, bestw)
  }

  /** A span as wide as the atlas is the only one. */
  lemma {:induction false} FullWidthIsAlone(s: Sky, i: nat)
    requires SkyOk(s) && i < |s.nodes| && s.nodes[i].width >= s.width
    ensures |s.nodes| == 1 && s.nodes[i].width == s.width
  {
    TailNode(s.nodes, 0, i);
    SpanEnd(s.nodes, 0, i);
    if i > 0 { TailNode(s.nodes, 0, i - 1); SpanEnd(s.nodes, 0, i - 1); }
    if i + 1 < |s.nodes| { TailNode(s.nodes, 0, i + 1); }
  }

  /** No span fits, or the one span of a flat skyline fits exactly flush with the
      atlas height. */
  predicate Refuses(s: Sky, w: nat, h: nat)
    requires SkyOk(s) && 1 <= w
  {
    forall i :: 0 <= i < |s.nodes| && Fits(s, i, w, h) ==> |s.nodes| == 1 && s.nodes[0].width == s.width && Top(s, i, w, h) == s.height
  }

  /** There is no choice if and only if the packer refuses. */
  lemma {:induction false} ChoiceOrRefusal(s: Sky, b: int, besth: int, bestw: int, w: nat, h: nat)
    requires SkyOk(s) && 1 <= w && Leads(s, b, besth, bestw, |s.nodes|, w, h)
    ensures b == -1 <==> Refuses(s, w, h)
    ensures b != -1 <==> Best(s, b, w, h)
  {
    if b == -1 {
      forall i | 0 <= i < |s.nodes| && Fits(s, i, w, h) ensures |s.nodes| == 1 && s.nodes[0].width == s.width && Top(s, i, w, h) == s.height {
        TopWithin(s, i, w, h);
        FullWidthIsAlone(s, i);
      }
    } else {
      assert Fits(s, b, w, h) && !(|s.nodes| == 1 && s.nodes[0].width == s.width && Top(s, b, w, h) == s.height);
    }
  }

  lemma {:induction false} TopWithin(s: Sky, i: int, w: nat, h: nat)
    requires SkyOk(s) && 1 <= w && Fits(s, i, w, h)
    ensures Top(s, i, w, h) <= s.height
  {}

  lemma {:induction false} NextLeader(s: Sky, b: int, besth: int, bestw: int, n: nat, w: nat, h: nat) returns (b': int, besth': int, bestw': int)
    requires SkyOk(s) && 1 <= w && n < |s.nodes| && Leads(s, b, besth, bestw, n, w, h)
    ensures Leads(s, b', besth', bestw', n + 1, w, h)
  {
    LeadsOn(s, b, besth, bestw, n, w, h);
    if Takes(s, besth, bestw, n, w, h) {
      b', besth', bestw' := n, Top(s, n, w, h), s.nodes[n].width;
    } else {
      b', besth', bestw' := b, besth, bestw;
    }
  }

  /** Every request is either refused or has a best span. */
  lemma {:induction false} SomeChoice(s: Sky, w: nat, h: nat, n: nat) returns (b: int, besth: int, bestw: int)
    requires SkyOk(s) && 1 <= w && n <= |s.nodes|
    ensures Leads(s, b, besth, bestw, n, w, h)
    decreases n
  {
    if n == 0 {
      b, besth, bestw := -1, s.height, s.width;
    } else {
      b, besth, bestw := SomeChoice(s, w, h, n - 1);
      b, besth, bestw := NextLeader(s, b, besth, bestw, n - 1, w, h);
    }
  }

  lemma {:induction false} RefusedOrBest(s: Sky, w: nat, h: nat)
    requires SkyOk(s) && 1 <= w
    ensures Refuses(s, w, h) <==> !exists b :: Best(s, b, w, h)
  {
    var b, besth, bestw := SomeChoice(s, w, h, |s.nodes|);
    ChoiceOrRefusal(s, b, besth, bestw, w, h);
  }

  /** The best span of a request that is not refused. */
  ghost function Chosen(s: Sky, w: nat, h: nat): (b: int)
    requires SkyOk(s) && 1 <= w && !Refuses(s, w, h)
    ensures Fits(s, b, w, h)
  {
    RefusedOrBest(s, w, h);
    var b :| Best(s, b, w, h);
    b
  }

  lemma {:induction false} ChosenIsBest(s: Sky, w: nat, h: nat)
    requires SkyOk(s) && 1 <= w && !Refuses(s, w, h)
    ensures Best(s, Chosen(s, w, h), w, h)
  {
    RefusedOrBest(s, w, h);
  }

  // ---- what a request leaves

  /** The skyline with a w by h rectangle on span b. */
  function Placed(s: Sky, b: int, w: nat, h: nat): Sky
    requires SkyOk(s) && 1 <= w && Fits(s, b, w, h)
  {
    s.(nodes := Merged(WithSpan(s.nodes, b, Top(s, b, w, h), w)))
  }

  lemma {:induction false} RestInside(s: Sky, b: int, w: nat, h: nat)
    requires SkyOk(s) && 1 <= w && Fits(s, b, w, h)
    ensures 0 <= Peak(Columns(s.nodes), s.nodes[b].x, w)
  {
    LevelsExact(Columns(s.nodes), s.height);
    PeakExact(Columns(s.nodes), s.nodes[b].x, w, Peak(Columns(s.nodes), s.nodes[b].x, w));
  }

  lemma {:induction false} PlacedIs(s: Sky, b: int, w: nat, h: nat, level: int)
    requires SkyOk(s) && 1 <= w && Fits(s, b, w, h) && level == Peak(Columns(s.nodes), s.nodes[b].x, w) + h
    ensures Placed(s, b, w, h) == s.(nodes := Merged(WithSpan(s.nodes, b, level, w)))
  {}

  lemma {:induction false} PlacedOk(s: Sky, b: int, w: nat, h: nat)
    requires SkyOk(s) && 1 <= w && Fits(s, b, w, h)
    ensures var r := Placed(s, b, w, h);
      SkyOk(r) && Columns(r.nodes) == Raised(Columns(s.nodes), s.nodes[b].x, w, Top(s, b, w, h))
  {
    var level := Top(s, b, w, h);
    SpanRaises(s.nodes, b, w, level);
    MergedKeepsColumns(WithSpan(s.nodes, b, level, w), 0);
    RestInside(s, b, w, h);
    RaisedWithin(Columns(s.nodes), s.height, s.nodes[b].x, w, level);
  }

  lemma {:induction false} IsChosen(s: Sky, b: int, w: nat, h: nat)
    requires SkyOk(s) && 1 <= w && Best(s, b, w, h)
    ensures !Refuses(s, w, h) && Chosen(s, w, h) == b
  {
    RefusedOrBest(s, w, h);
    ChosenIsBest(s, w, h);
    BestUnique(s, b, Chosen(s, w, h), w, h);
  }

  lemma {:induction false} LeaderIsChosen(s: Sky, b: int, besth: int, bestw: int, w: nat, h: nat)
    requires SkyOk(s) && 1 <= w && Leads(s, b, besth, bestw, |s.nodes|, w, h)
    ensures b == -1 <==> Refuses(s, w, h)
    ensures b != -1 ==> b == Chosen(s, w, h)
  {
    ChoiceOrRefusal(s, b, besth, bestw, w, h);
    if b != -1 { IsChosen(s, b, w, h); }
  }

  /** A rectangle on its resting place lies in the atlas and shares no texel with those
      handed out before. */
  lemma {:induction false} RestPacks(cols: seq<int>, height: int, rects: seq<Rect>, x: int, w: nat, h: nat)
    requires 0 <= x && 1 <= w && 1 <= h && x + w <= |cols| && Peak(cols, x, w) + h <= height
    requires Packed(rects, cols, height) && forall c :: 0 <= c < |cols| ==> 0 <= cols[c]
    ensures var y := Peak(cols, x, w);
      0 <= y && Packed(rects + [Rect(x, y, w, h)], Raised(cols, x, w, y + h), height)
  {
    PeakExact(cols, x, w, Peak(cols, x, w));
    PackOneMore(rects, cols, height, Rect(x, Peak(cols, x, w), w, h));
  }

  /** New empty columns at the right, more room above. */
  function Grown(s: Sky, w0: int, h0: int): (r: Sky)
    requires SkyOk(s) && w0 <= SHORT_MAX && h0 <= SHORT_MAX
    ensures SkyOk(r) && Columns(r.nodes) == Columns(s.nodes) + Repeat(0, r.width - s.width)
  {
    var w, h := Max(w0, s.width), Max(h0, s.height);
    GrownOk(s, w - s.width);
    WidenedWithin(Columns(s.nodes), s.height, w - s.width, h);
    Sky(if w > s.width then s.nodes + [Node(s.width, 0, w - s.width)] else s.nodes, w, h)
  }

  lemma {:induction false} GrownOk(s: Sky, d: nat)
    requires SkyOk(s)
    ensures d == 0 ==> Columns(s.nodes) + Repeat(0, 0) == Columns(s.nodes)
    ensures d > 0 ==> var ns := s.nodes + [Node(s.width, 0, d)]; Chain(ns, 0) && Columns(ns) == Columns(s.nodes) + Repeat(0, d)
  {
    if d > 0 {
      var n := Node(s.width, 0, d);
      ConsColumns(n, [], s.width);
      assert [n] + [] == [n] && Repeat(0, d) + [] == Repeat(0, d);
      ChainAppend(s.nodes, [n], 0);
    }
  }

  /** An empty atlas. */
  function Flat(w: int, h: int): (r: Sky)
    requires 1 <= w <= SHORT_MAX && 0 <= h <= SHORT_MAX
    ensures SkyOk(r) && Columns(r.nodes) == Repeat(0, w)
  {
    FlatOk(w);
    WidenedWithin([], h, w, h);
    assert [] + Repeat(0, w) == Repeat(0, w);
    Sky([Node(0, 0, w)], w, h)
  }

  lemma {:induction false} FlatOk(w: int)
    requires 1 <= w
    ensures Chain([Node(0, 0, w)], 0) && Columns([Node(0, 0, w)]) == Repeat(0, w)
  {
    assert [Node(0, 0, w)] + [] == [Node(0, 0, w)] && Repeat(0, w) + [] == Repeat(0, w);
    ConsColumns(Node(0, 0, w), [], 0);
  }

  /** In an empty atlas a rectangle as high as the atlas fits and is refused, however
      narrow it is. */
  lemma {:induction false} FlushIsRefused(w: int, h: int, rw: nat)
    requires 1 <= w <= SHORT_MAX && 0 <= h <= SHORT_MAX && 1 <= rw <= w
    ensures Fits(Flat(w, h), 0, rw, h) && Refuses(Flat(w, h), rw, h)
    ensures PlacementFor(Flat(w, h), rw, h) == Full
  {
    PeakExact(Repeat(0, w), 0, rw, 0);
    assert Repeat(0, w)[0] == 0;
  }

  // ---- runs

  /** What the callers of the atlas ask for. */
  datatype Command = Add(w: int, h: int) | Grow(w: int, h: int) | Clear(w: int, h: int)

  datatype Placement = Full | At(x: int, y: int)

  /** What a request is answered; growing and clearing answer nothing. */
  datatype Answer = Asked(p: Placement) | Resized

  predicate InRange(c: Command) {
    match c
    case Add(w, h) => 1 <= w && 1 <= h
    case Grow(w, h) => w <= SHORT_MAX && h <= SHORT_MAX
    case Clear(w, h) => 1 <= w <= SHORT_MAX && 0 <= h <= SHORT_MAX
  }

  /** Where a rectangle is placed. */
  ghost function PlacementFor(s: Sky, w: nat, h: nat): Placement
    requires SkyOk(s) && 1 <= w
  {
    if Refuses(s, w, h) then Full
    else
      var b := Chosen(s, w, h);
      At(s.nodes[b].x, Peak(Columns(s.nodes), s.nodes[b].x, w))
  }

  ghost function SkyNext(s: Sky, c: Command): (r: Sky)
    requires SkyOk(s) && InRange(c)
    ensures SkyOk(r)
  {
    match c
    case Add(w, h) =>
      if Refuses(s, w, h) then s
      else
        PlacedOk(s, Chosen(s, w, h), w, h);
        Placed(s, Chosen(s, w, h), w, h)
    case Grow(w, h) => Grown(s, w, h)
    case Clear(w, h) => Flat(w, h)
  }

  ghost function AnswerTo(s: Sky, c: Command): Answer
    requires SkyOk(s) && InRange(c)
  {
    if c.Add? then Asked(PlacementFor(s, c.w, c.h)) else Resized
  }

  // ---- where it goes, by the columns alone

  /** y is the highest of columns [x, x + w). */
  ghost predicate Highest(cols: seq<int>, x: int, w: nat, y: int) {
    && 0 <= x && x + w <= |cols| && (forall c :: x <= c < x + w ==> cols[c] <= y)
    && exists c :: x <= c < x + w && cols[c] == y
  }

  /** Dropped at the beginning of span i, a w by h rectangle comes to rest at y, inside the
      atlas. */
  ghost predicate Rests(s: Sky, i: int, y: int, w: nat, h: nat) {
    0 <= i < |s.nodes| && Highest(Columns(s.nodes), s.nodes[i].x, w, y) && y + h <= s.height
  }

  /** The rectangle is on span b, and no span lets it rest lower; of the spans that let it
      rest as low none is narrower, and of those as narrow none is further left. */
  ghost predicate LowestOn(s: Sky, b: int, x: int, y: int, w: nat, h: nat) {
    && Rests(s, b, y, w, h) && x == s.nodes[b].x
    && forall i: int, z: int :: Rests(s, i, z, w, h) ==>
         y <= z && (z == y ==> s.nodes[b].width <= s.nodes[i].width && (s.nodes[i].width == s.nodes[b].width ==> b <= i))
  }

  /** The bottom-left choice.  The packer answers that the atlas is full when the rectangle
      rests nowhere, or only flush with the top of a flat skyline. */
  ghost predicate BottomLeft(s: Sky, p: Placement, w: nat, h: nat) {
    match p
    case At(x, y) => (exists b :: LowestOn(s, b, x, y, w, h)) && !(|s.nodes| == 1 && y + h == s.height)
    case Full => forall i: int, z: int :: Rests(s, i, z, w, h) ==> |s.nodes| == 1 && z + h == s.height
  }

  lemma {:induction false} RestsExactly(s: Sky, i: int, y: int, w: nat, h: nat)
    requires SkyOk(s) && 1 <= w
    ensures Rests(s, i, y, w, h) <==> Fits(s, i, w, h) && y == Peak(Columns(s.nodes), s.nodes[i].x, w)
  {
    if 0 <= i < |s.nodes| && 0 <= s.nodes[i].x && s.nodes[i].x + w <= s.width {
      PeakExact(Columns(s.nodes), s.nodes[i].x, w, y);
      PeakExact(Columns(s.nodes), s.nodes[i].x, w, Peak(Columns(s.nodes), s.nodes[i].x, w));
    }
  }

  lemma {:induction false} AtIsLowest(s: Sky, b: int, w: nat, h: nat)
    requires SkyOk(s) && 1 <= w && Best(s, b, w, h)
    ensures LowestOn(s, b, s.nodes[b].x, Peak(Columns(s.nodes), s.nodes[b].x, w), w, h)
    ensures |s.nodes| == 1 ==> Peak(Columns(s.nodes), s.nodes[b].x, w) + h < s.height
  {
    SpanEnd(s.nodes, 0, 0);
    var y := Peak(Columns(s.nodes), s.nodes[b].x, w);
    RestsExactly(s, b, y, w, h);
    forall i: int, z: int | Rests(s, i, z, w, h)
      ensures y <= z && (z == y ==> s.nodes[b].width <= s.nodes[i].width && (s.nodes[i].width == s.nodes[b].width ==> b <= i))
    {
      RestsExactly(s, i, z, w, h);
    }
  }

  lemma {:induction false} FullIsFlush(s: Sky, w: nat, h: nat)
    requires SkyOk(s) && 1 <= w && Refuses(s, w, h)
    ensures forall i: int, z: int :: Rests(s, i, z, w, h) ==> |s.nodes| == 1 && z + h == s.height
  {
    forall i: int, z: int | Rests(s, i, z, w, h) ensures |s.nodes| == 1 && z + h == s.height {
      RestsExactly(s, i, z, w, h);
    }
  }

  /** Every rectangle is placed at the bottom-left choice, or the atlas is full. */
  lemma {:induction false} PlacedBottomLeft(s: Sky, w: nat, h: nat)
    requires SkyOk(s) && 1 <= w
    ensures BottomLeft(s, PlacementFor(s, w, h), w, h)
  {
    if Refuses(s, w, h) {
      FullIsFlush(s, w, h);
    } else {
      ChosenIsBest(s, w, h);
      AtIsLowest(s, Chosen(s, w, h), w, h);
    }
  }

  /** That is one answer. */
  lemma {:induction false} BottomLeftUnique(s: Sky, p: Placement, q: Placement, w: nat, h: nat)
    requires BottomLeft(s, p, w, h) && BottomLeft(s, q, w, h)
    ensures p == q
  {
    if p.At? { var a :| LowestOn(s, a, p.x, p.y, w, h); }
    if q.At? { var b :| LowestOn(s, b, q.x, q.y, w, h); }
  }

  predicate AllInRange(cs: seq<Command>) { forall i :: 0 <= i < |cs| ==> InRange(cs[i]) }

  /** The skyline after a run of requests. */
  ghost function SkyAfter(s: Sky, cs: seq<Command>): (r: Sky)
    requires SkyOk(s) && AllInRange(cs)
    ensures SkyOk(r)
    decreases |cs|
  {
    if cs == [] then s else SkyNext(SkyAfter(s, cs[..|cs| - 1]), cs[|cs| - 1])
  }

  /** Each request answered by the skyline of its moment. */
  ghost function AnswersTo(s: Sky, cs: seq<Command>): (r: seq<Answer>)
    requires SkyOk(s) && AllInRange(cs)
    ensures |r| == |cs|
    decreases |cs|
  {
    if cs == [] then [] else AnswersTo(s, cs[..|cs| - 1]) + [AnswerTo(SkyAfter(s, cs[..|cs| - 1]), cs[|cs| - 1])]
  }

  /** The rectangles that the answers hand out since the last clearing. */
  function HandedOut(cs: seq<Command>, answers: seq<Answer>): seq<Rect>
    requires |cs| == |answers|
    decreases |cs|
  {
    if cs == [] then [] else
      var n := |cs| - 1;
      HandedNext(HandedOut(cs[..n], answers[..n]), cs[n], answers[n])
  }

  /** One more request. */
  lemma {:induction false} RunMore(s: Sky, cs: seq<Command>, c: Command)
    requires SkyOk(s) && AllInRange(cs) && InRange(c)
    ensures AllInRange(cs + [c])
    ensures SkyAfter(s, cs + [c]) == SkyNext(SkyAfter(s, cs), c)
    ensures AnswersTo(s, cs + [c]) == AnswersTo(s, cs) + [AnswerTo(SkyAfter(s, cs), c)]
  {
    assert (cs + [c])[..|cs|] == cs;
  }

  /** The rectangles after one more answer. */
  function HandedNext(before: seq<Rect>, c: Command, a: Answer): seq<Rect> {
    match c
    case Add(w, h) => if a.Asked? && a.p.At? then before + [Rect(a.p.x, a.p.y, w, h)] else before
    case Grow(_, _) => before
    case Clear(_, _) => []
  }

  /** What a run has told so far. */
  ghost predicate Told(s0: Sky, cs: seq<Command>, s: Sky, answers: seq<Answer>, rects: seq<Rect>) {
    && SkyOk(s0) && AllInRange(cs) && s == SkyAfter(s0, cs) && answers == AnswersTo(s0, cs) && rects == HandedOut(cs, answers)
  }

  lemma {:induction false} ToldMore(s0: Sky, cs: seq<Command>, s: Sky, answers: seq<Answer>, rects: seq<Rect>, c: Command, s': Sky, a: Answer)
    requires Told(s0, cs, s, answers, rects) && InRange(c) && s' == SkyNext(s, c) && a == AnswerTo(s, c)
    ensures Told(s0, cs + [c], s', answers + [a], HandedNext(rects, c, a))
  {
    RunMore(s0, cs, c);
    HandedMore(cs, answers, c, a);
  }

  lemma {:induction false} HandedMore(cs: seq<Command>, answers: seq<Answer>, c: Command, a: Answer)
    requires |cs| == |answers|
    ensures HandedOut(cs + [c], answers + [a]) == HandedNext(HandedOut(cs, answers), c, a)
  {
    assert (cs + [c])[..|cs|] == cs && (answers + [a])[..|cs|] == answers;
  }

  /** Answer k is the one that the skyline after the first k requests gives. */
  ghost predicate AnsweredInTurn(s: Sky, cs: seq<Command>, answers: seq<Answer>, k: nat)
    requires SkyOk(s)
  {
    && k < |cs| == |answers| && InRange(cs[k]) && AllInRange(cs[..k])
    && answers[k] == AnswerTo(SkyAfter(s, cs[..k]), cs[k])
    && (cs[k].Add? ==> answers[k].Asked? && BottomLeft(SkyAfter(s, cs[..k]), answers[k].p, cs[k].w, cs[k].h))
  }

  lemma {:induction false} AnswerAt(s: Sky, cs: seq<Command>, k: nat)
    requires SkyOk(s) && AllInRange(cs) && k < |cs|
    ensures AnsweredInTurn(s, cs, AnswersTo(s, cs), k)
    decreases |cs|
  {
    var n := |cs| - 1;
    var before := AnswersTo(s, cs[..n]);
    assert AnswersTo(s, cs) == before + [AnswerTo(SkyAfter(s, cs[..n]), cs[n])];
    if k < n {
      AnswerAt(s, cs[..n], k);
      assert cs[..n][..k] == cs[..k] && cs[..n][k] == cs[k];
      assert AnswersTo(s, cs)[k] == before[k];
    } else {
      assert cs[..n] == cs[..k];
      if cs[k].Add? { PlacedBottomLeft(SkyAfter(s, cs[..k]), cs[k].w, cs[k].h); }
    }
  }

  /** What adding a rectangle amounts to when it is not refused. */
  lemma {:induction false} PlaceFacts(s: Sky, w: nat, h: nat)
    requires SkyOk(s) && 1 <= w && 1 <= h && !Refuses(s, w, h)
    ensures var b := Chosen(s, w, h);
      && 0 <= b < |s.nodes| && 0 <= s.nodes[b].x && s.nodes[b].x + w <= |Columns(s.nodes)|
      && var x, y := s.nodes[b].x, Peak(Columns(s.nodes), s.nodes[b].x, w);
      && 0 <= y && y + h <= SHORT_MAX && PlacementFor(s, w, h) == At(x, y)
      && SkyNext(s, Add(w, h)) == Sky(Merged(WithSpan(s.nodes, b, y + h, w)), s.width, s.height)
  {
    PlacedIs(s, Chosen(s, w, h), w, h, Top(s, Chosen(s, w, h), w, h));
    RestInside(s, Chosen(s, w, h), w, h);
  }

  /** The columns after a placement. */
  lemma {:induction false} RefusedStays(s: Sky, w: nat, h: nat)
    requires SkyOk(s) && 1 <= w && 1 <= h && Refuses(s, w, h)
    ensures PlacementFor(s, w, h) == Full && SkyNext(s, Add(w, h)) == s
  {}

  lemma {:induction false} NextIsPlaced(s: Sky, w: nat, h: nat)
    requires SkyOk(s) && 1 <= w && 1 <= h && !Refuses(s, w, h)
    ensures var b := Chosen(s, w, h);
      SkyNext(s, Add(w, h)) == Placed(s, b, w, h) && PlacementFor(s, w, h) == At(s.nodes[b].x, Peak(Columns(s.nodes), s.nodes[b].x, w))
  {}

  /** Skyline r is s with a w by h rectangle at x, y. */
  predicate PlacedBy(s: Sky, r: Sky, x: int, y: int, w: nat, h: nat)
    requires 1 <= w
  {
    && 0 <= x && x + w <= |Columns(s.nodes)| && y == Peak(Columns(s.nodes), x, w) && y + h <= s.height
    && Columns(r.nodes) == Raised(Columns(s.nodes), x, w, y + h) && r.height == s.height
  }

  lemma {:induction false} PlacedAt(s: Sky, b: int, x: int, y: int, w: nat, h: nat)
    requires SkyOk(s) && 1 <= w && Fits(s, b, w, h) && x == s.nodes[b].x && y == Peak(Columns(s.nodes), x, w)
    ensures PlacedBy(s, Placed(s, b, w, h), x, y, w, h)
  {
    assert Top(s, b, w, h) == y + h;
    assert Columns(Placed(s, b, w, h).nodes) == Raised(Columns(s.nodes), x, w, y + h) by { PlacedOk(s, b, w, h); }
  }

  lemma {:induction false} PlacedColumns(s: Sky, w: nat, h: nat)
    requires SkyOk(s) && 1 <= w && 1 <= h && !Refuses(s, w, h)
    ensures var p := PlacementFor(s, w, h); p.At? && PlacedBy(s, SkyNext(s, Add(w, h)), p.x, p.y, w, h)
  {
    NextIsPlaced(s, w, h);
    var p := PlacementFor(s, w, h);
    PlacedAt(s, Chosen(s, w, h), p.x, p.y, w, h);
  }

  /** A rectangle that is placed overlaps none handed out before. */
  lemma {:induction false} PackedNext(s: Sky, r: Sky, x: int, y: int, rects: seq<Rect>, w: nat, h: nat)
    requires SkyOk(s) && 1 <= w && 1 <= h && Packed(rects, Columns(s.nodes), s.height) && PlacedBy(s, r, x, y, w, h)
    ensures Packed(rects + [Rect(x, y, w, h)], Columns(r.nodes), r.height)
  {
    LevelsInside(s);
    PackedAfter(Columns(s.nodes), s.height, rects, x, y, w, h, Columns(r.nodes));
  }

  lemma {:induction false} PackedAfter(cols: seq<int>, height: int, rects: seq<Rect>, x: int, y: int, w: nat, h: nat, cols': seq<int>)
    requires 0 <= x && 1 <= w && 1 <= h && x + w <= |cols| && y == Peak(cols, x, w) && y + h <= height
    requires Packed(rects, cols, height) && (forall c :: 0 <= c < |cols| ==> 0 <= cols[c]) && cols' == Raised(cols, x, w, y + h)
    ensures Packed(rects + [Rect(x, y, w, h)], cols', height)
  {
    RestPacks(cols, height, rects, x, w, h);
  }

  lemma {:induction false} LevelsInside(s: Sky)
    requires SkyOk(s)
    ensures forall c :: 0 <= c < |Columns(s.nodes)| ==> 0 <= Columns(s.nodes)[c]
  {
    LevelsExact(Columns(s.nodes), s.height);
  }
}
