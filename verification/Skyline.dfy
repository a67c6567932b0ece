/** The skyline of the font atlas as a value: spans of a polyline, and the height of
    every column that the spans stand for. */
module Skyline {

  datatype Node = Node(x: int, y: int, width: int)

  /** Spans follow each other from x0 without gaps, each at least one column wide. */
  predicate Chain(ns: seq<Node>, x0: int) {
    ns == [] || (ns[0].x == x0 && ns[0].width > 0 && Chain(ns[1..], x0 + ns[0].width))
  }

  function Repeat(y: int, n: int): seq<int> { if n <= 0 then [] else seq(n, _ => y) }

  /** The column heights, left to right. */
  function Columns(ns: seq<Node>): seq<int> {
    if ns == [] then [] else Repeat(ns[0].y, ns[0].width) + Columns(ns[1..])
  }

  lemma {:induction false} ColumnsAppend(a: seq<Node>, b: seq<Node>)
    ensures Columns(a + b) == Columns(a) + Columns(b)
    decreases |a|
  {
    if a == [] {
      assert a + b == b;
    } else {
      assert (a + b)[1..] == a[1..] + b;
      ColumnsAppend(a[1..], b);
    }
  }

  lemma {:induction false} ChainAppend(a: seq<Node>, b: seq<Node>, x0: int)
    requires Chain(a, x0)
    ensures Chain(a + b, x0) <==> Chain(b, x0 + |Columns(a)|)
    ensures Columns(a + b) == Columns(a) + Columns(b)
    decreases |a|
  {
    ColumnsAppend(a, b);
    if a == [] {
      assert a + b == b;
    } else {
      assert (a + b)[1..] == a[1..] + b;
      ChainAppend(a[1..], b, x0 + a[0].width);
    }
  }

  /** Where span k of a chain starts and ends, and the columns it covers. */
  lemma {:induction false} SpanAt(ns: seq<Node>, x0: int, k: nat)
    requires Chain(ns, x0) && k < |ns|
    ensures Chain(ns[..k], x0) && Chain(ns[k..], ns[k].x)
    ensures ns[k].x == x0 + |Columns(ns[..k])|
    ensures Columns(ns) == Columns(ns[..k]) + Columns(ns[k..])
    decreases k
  {
    assert ns[..k] + ns[k..] == ns;
    ColumnsAppend(ns[..k], ns[k..]);
    if k == 0 {
      assert ns[0..] == ns;
    } else {
      SpanAt(ns[1..], x0 + ns[0].width, k - 1);
      assert ns[1..][..k - 1] == ns[..k][1..] && ns[1..][k - 1..] == ns[k..];
    }
  }

  lemma ColumnOf(ns: seq<Node>, x0: int, k: nat, c: int)
    requires Chain(ns, x0) && k < |ns| && ns[k].x <= c < ns[k].x + ns[k].width
    ensures x0 <= c < x0 + |Columns(ns)| && Columns(ns)[c - x0] == ns[k].y
  {
    SpanAt(ns, x0, k);
    var t := ns[k..];
    assert t[0] == ns[k];
    assert Columns(t) == Repeat(ns[k].y, ns[k].width) + Columns(t[1..]);
  }

  /** Consecutive spans touch, and the last one ends at the right edge. */
  lemma SpanEnd(ns: seq<Node>, x0: int, k: nat)
    requires Chain(ns, x0) && k < |ns|
    ensures x0 <= ns[k].x && ns[k].width > 0
    ensures ns[k].x + ns[k].width == if k + 1 < |ns| then ns[k + 1].x else x0 + |Columns(ns)|
  {
    SpanAt(ns, x0, k);
    var t := ns[k..];
    assert t[0] == ns[k];
    assert Columns(t) == Repeat(ns[k].y, ns[k].width) + Columns(t[1..]);
    if k + 1 < |ns| {
      assert t[1..][0] == ns[k + 1];
    } else {
      assert t[1..] == [];
    }
  }

  // ---- what the two loops of AddSkylineLevel compute

  /** The tail of the skyline once everything before end lies in the shadow. */
  function Shadow(tail: seq<Node>, end: int): seq<Node> {
    if tail == [] || tail[0].x >= end then tail
    else if tail[0].x + tail[0].width <= end then Shadow(tail[1..], end)
    else [Node(end, tail[0].y, tail[0].x + tail[0].width - end)] + tail[1..]
  }

  lemma DropBehind(a: seq<int>, b: seq<int>, k: nat)
    requires |a| <= k <= |a| + |b|
    ensures (a + b)[k..] == b[k - |a|..]
  {}

  lemma DropWithin(a: seq<int>, b: seq<int>, k: nat)
    requires k <= |a|
    ensures (a + b)[k..] == a[k..] + b
  {}

  /** A first node that lies in the shadow altogether. */
  lemma ShadowSwallows(tail: seq<Node>, x0: int, end: int)
    requires Chain(tail, x0) && tail != [] && x0 + tail[0].width <= end <= x0 + |Columns(tail)|
    ensures end <= x0 + tail[0].width + |Columns(tail[1..])|
    ensures Columns(tail)[end - x0..] == Columns(tail[1..])[end - (x0 + tail[0].width)..]
  {
    DropBehind(Repeat(tail[0].y, tail[0].width), Columns(tail[1..]), end - x0);
  }

  /** A first node that the shadow cuts. */
  lemma ShadowCuts(tail: seq<Node>, x0: int, end: int)
    requires Chain(tail, x0) && tail != [] && x0 < end < x0 + tail[0].width
    ensures var n := Node(end, tail[0].y, x0 + tail[0].width - end);
      Chain([n] + tail[1..], end) && Columns([n] + tail[1..]) == Columns(tail)[end - x0..]
  {
    var n := Node(end, tail[0].y, x0 + tail[0].width - end);
    ConsColumns(n, tail[1..], end);
    DropWithin(Repeat(tail[0].y, tail[0].width), Columns(tail[1..]), end - x0);
    assert Repeat(tail[0].y, tail[0].width)[end - x0..] == Repeat(n.y, n.width);
  }

  lemma {:induction false} ShadowKeepsTheRest(tail: seq<Node>, x0: int, end: int)
    requires Chain(tail, x0) && x0 <= end <= x0 + |Columns(tail)|
    ensures Chain(Shadow(tail, end), end)
    ensures Columns(Shadow(tail, end)) == Columns(tail)[end - x0..]
    decreases |tail|
  {
    if tail == [] || tail[0].x >= end {
      assert end == x0;
    } else if x0 + tail[0].width <= end {
      ShadowSwallows(tail, x0, end);
      ShadowKeepsTheRest(tail[1..], x0 + tail[0].width, end);
    } else {
      ShadowCuts(tail, x0, end);
    }
  }

  /** The skyline after a rectangle of width w came to rest at column x with its top
      at level: columns [x, x + w) are raised to level and no other changes. */
  function Raised(cols: seq<int>, x: int, w: nat, level: int): seq<int>
    requires 0 <= x && x + w <= |cols|
  {
    cols[..x] + Repeat(level, w) + cols[x + w..]
  }

  lemma Splice(p: seq<int>, t: seq<int>, r: seq<int>, w: nat)
    requires w <= |t|
    ensures p + (r + t[w..]) == (p + t)[..|p|] + r + (p + t)[|p| + w..]
  {
    assert (p + t)[..|p|] == p;
    assert (p + t)[|p| + w..] == t[w..];
  }

  lemma ConsColumns(n: Node, s: seq<Node>, x: int)
    requires n.x == x && n.width > 0 && Chain(s, x + n.width)
    ensures Chain([n] + s, x) && Columns([n] + s) == Repeat(n.y, n.width) + Columns(s)
  {
    assert ([n] + s)[1..] == s;
  }

  /** A new span between the spans before x and what its shadow leaves of the others. */
  lemma RaiseBetween(head: seq<Node>, tail: seq<Node>, x: int, w: nat, level: int)
    requires Chain(head, 0) && x == |Columns(head)| && Chain(tail, x) && 0 < w <= |Columns(tail)|
    ensures var r := head + ([Node(x, level, w)] + Shadow(tail, x + w));
      Chain(r, 0) && Columns(r) == Columns(head) + (Repeat(level, w) + Columns(tail)[w..])
  {
    var n, s := Node(x, level, w), Shadow(tail, x + w);
    ShadowKeepsTheRest(tail, x, x + w);
    ConsColumns(n, s, x);
    ChainAppend(head, [n] + s, 0);
  }

  lemma RaisedSplit(p: seq<int>, t: seq<int>, w: nat, level: int)
    requires w <= |t|
    ensures Raised(p + t, |p|, w, level) == p + (Repeat(level, w) + t[w..])
  {
    Splice(p, t, Repeat(level, w), w);
  }

  /** The spans with a new one before span idx and its shadow cut away. */
  function WithSpan(ns: seq<Node>, idx: nat, level: int, w: int): seq<Node>
    requires idx < |ns|
  {
    ns[..idx] + ([Node(ns[idx].x, level, w)] + Shadow(ns[idx..], ns[idx].x + w))
  }

  /** A new span raises its columns and no others. */
  lemma {:induction false} SpanRaises(ns: seq<Node>, idx: nat, w: nat, level: int)
    requires Chain(ns, 0) && idx < |ns| && w > 0 && ns[idx].x + w <= |Columns(ns)|
    ensures ns[idx].x >= 0 && Chain(WithSpan(ns, idx, level, w), 0)
    ensures Columns(WithSpan(ns, idx, level, w)) == Raised(Columns(ns), ns[idx].x, w, level)
  {
    SpanAt(ns, 0, idx);
    RaiseBetween(ns[..idx], ns[idx..], ns[idx].x, w, level);
    RaisedSplit(Columns(ns[..idx]), Columns(ns[idx..]), w, level);
  }

  /** The first two spans joined to one. */
  function Joined(t: seq<Node>): seq<Node>
    requires |t| >= 2
  {
    [Node(t[0].x, t[0].y, t[0].width + t[1].width)] + t[2..]
  }

  lemma RepeatJoin(y: int, m: nat, n: nat)
    ensures Repeat(y, m) + Repeat(y, n) == Repeat(y, m + n)
  {}

  /** Joining spans of the same height changes no column. */
  lemma JoinKeepsColumns(t: seq<Node>, x: int)
    requires Chain(t, x) && |t| >= 2 && t[0].y == t[1].y
    ensures Chain(Joined(t), x) && Columns(Joined(t)) == Columns(t)
  {
    var a, b, rest := t[0], t[1], t[2..];
    assert t[1..][0] == b && t[1..][1..] == rest;
    FirstTwoColumns(t);
    RepeatJoin(a.y, a.width, b.width);
    ConsColumns(Node(a.x, a.y, a.width + b.width), rest, x);
  }

  lemma {:induction false} FirstTwoColumns(t: seq<Node>)
    requires |t| >= 2
    ensures Columns(t) == Repeat(t[0].y, t[0].width) + Repeat(t[1].y, t[1].width) + Columns(t[2..])
  {
    assert t[1..][0] == t[1] && t[1..][1..] == t[2..];
    assert Columns(t[1..]) == Repeat(t[1].y, t[1].width) + Columns(t[2..]);
  }

  lemma {:induction false} MergeKeepsColumns(ns: seq<Node>, i: nat)
    requires Chain(ns, 0) && i + 1 < |ns| && ns[i].y == ns[i + 1].y
    ensures Chain(ns[..i] + Joined(ns[i..]), 0) && Columns(ns[..i] + Joined(ns[i..])) == Columns(ns)
  {
    SpanAt(ns, 0, i);
    JoinKeepsColumns(ns[i..], ns[i].x);
    ChainAppend(ns[..i], Joined(ns[i..]), 0);
  }

  /** All neighbours of the same height joined, from the left. */
  function Merged(ns: seq<Node>): seq<Node>
    decreases |ns|
  {
    if |ns| < 2 then ns
    else if ns[0].y == ns[1].y then Merged(Joined(ns))
    else [ns[0]] + Merged(ns[1..])
  }

  lemma {:induction false} MergedKeepsColumns(ns: seq<Node>, x: int)
    requires Chain(ns, x)
    ensures Chain(Merged(ns), x) && Columns(Merged(ns)) == Columns(ns)
    decreases |ns|
  {
    if |ns| >= 2 {
      if ns[0].y == ns[1].y {
        JoinKeepsColumns(ns, x);
        MergedKeepsColumns(Joined(ns), x);
      } else {
        MergedKeepsColumns(ns[1..], x + ns[0].width);
        ConsColumns(ns[0], Merged(ns[1..]), x);
      }
    }
  }

  lemma {:induction false} MergedFirst(ns: seq<Node>)
    requires ns != []
    ensures Merged(ns) != [] && Merged(ns)[0].y == ns[0].y
    decreases |ns|
  {
    if |ns| >= 2 && ns[0].y == ns[1].y { MergedFirst(Joined(ns)); }
  }

  predicate LevelsDiffer(ns: seq<Node>) {
    forall k :: 0 <= k < |ns| - 1 ==> ns[k].y != ns[k + 1].y
  }

  /** ... and no neighbours of the same height are left. */
  lemma {:induction false} MergedLevelsDiffer(ns: seq<Node>)
    ensures LevelsDiffer(Merged(ns))
    decreases |ns|
  {
    if |ns| >= 2 {
      if ns[0].y == ns[1].y {
        MergedLevelsDiffer(Joined(ns));
      } else {
        MergedLevelsDiffer(ns[1..]);
        MergedFirst(ns[1..]);
      }
    }
  }

  // ---- resting height

  function Max(a: int, b: int): int { if a > b then a else b }

  /** The highest column under [x, x + w). */
  function Peak(cols: seq<int>, x: int, w: nat): int
    requires 0 <= x && 1 <= w && x + w <= |cols|
  {
    if w == 1 then cols[x] else Max(Peak(cols, x, w - 1), cols[x + w - 1])
  }

  lemma {:induction false} PeakExact(cols: seq<int>, x: int, w: nat, y: int)
    requires 0 <= x && 1 <= w && x + w <= |cols|
    ensures y == Peak(cols, x, w) <==>
      (forall c :: x <= c < x + w ==> cols[c] <= y) && (exists c :: x <= c < x + w && cols[c] == y)
    decreases w
  {
    var p := Peak(cols, x, w);
    assert (forall c :: x <= c < x + w ==> cols[c] <= p) && (exists c :: x <= c < x + w && cols[c] == p) by {
      if w > 1 {
        var q := Peak(cols, x, w - 1);
        PeakExact(cols, x, w - 1, q);
        var c :| x <= c < x + w - 1 && cols[c] == q;
        if p == q { assert cols[c] == p; } else { assert cols[x + w - 1] == p; }
      }
    }
  }

  // ---- rectangles handed out

  datatype Rect = Rect(x: int, y: int, w: int, h: int)

  predicate Covers(r: Rect, px: int, py: int) { r.x <= px < r.x + r.w && r.y <= py < r.y + r.h }

  ghost predicate ShareNoTexel(r: Rect, s: Rect) {
    forall px, py :: !(Covers(r, px, py) && Covers(s, px, py))
  }

  /** r lies in the atlas and under the skyline. */
  predicate Under(r: Rect, cols: seq<int>, height: int) {
    && 0 <= r.x && 1 <= r.w && r.x + r.w <= |cols|
    && 0 <= r.y && 1 <= r.h && r.y + r.h <= height
    && forall c :: r.x <= c < r.x + r.w ==> r.y + r.h <= cols[c]
  }

  ghost predicate Packed(rects: seq<Rect>, cols: seq<int>, height: int) {
    && (forall i :: 0 <= i < |rects| ==> Under(rects[i], cols, height))
    && (forall i, j :: 0 <= i < j < |rects| ==> ShareNoTexel(rects[i], rects[j]))
  }

  lemma AboveSkyline(q: Rect, r: Rect, cols: seq<int>, height: int)
    requires Under(q, cols, height) && 0 <= r.x && r.x + r.w <= |cols|
    requires forall c :: r.x <= c < r.x + r.w ==> cols[c] <= r.y
    ensures ShareNoTexel(q, r)
  {
    forall px, py ensures !(Covers(q, px, py) && Covers(r, px, py)) {
      if Covers(q, px, py) && r.x <= px < r.x + r.w { assert py < cols[px] <= r.y; }
    }
  }

  /** A rectangle that rests on the skyline touches none handed out before. */
  lemma PackOneMore(rects: seq<Rect>, cols: seq<int>, height: int, r: Rect)
    requires Packed(rects, cols, height)
    requires 0 <= r.x && 1 <= r.w && r.x + r.w <= |cols| && 0 <= r.y && 1 <= r.h && r.y + r.h <= height
    requires r.y == Peak(cols, r.x, r.w)
    ensures Packed(rects + [r], Raised(cols, r.x, r.w, r.y + r.h), height)
  {
    var cols' := Raised(cols, r.x, r.w, r.y + r.h);
    PeakExact(cols, r.x, r.w, r.y);
    forall i | 0 <= i < |rects| ensures ShareNoTexel(rects[i], r) && Under(rects[i], cols', height) {
      AboveSkyline(rects[i], r, cols, height);
      UnderRaised(rects[i], r, cols, height);
    }
    assert Under(r, cols', height);
  }

  lemma UnderRaised(q: Rect, r: Rect, cols: seq<int>, height: int)
    requires Under(q, cols, height) && 0 <= r.x && 0 <= r.w && 0 <= r.h && r.x + r.w <= |cols|
    requires forall c :: r.x <= c < r.x + r.w ==> cols[c] <= r.y
    ensures Under(q, Raised(cols, r.x, r.w, r.y + r.h), height)
  {
    var cols' := Raised(cols, r.x, r.w, r.y + r.h);
    assert forall c :: 0 <= c < |cols| ==> cols[c] <= cols'[c];
  }

  /** Growing the atlas disturbs nothing. */
  lemma PackGrow(rects: seq<Rect>, cols: seq<int>, height: int, more: seq<int>, height': int)
    requires Packed(rects, cols, height) && height <= height'
    ensures Packed(rects, cols + more, height')
  {
    forall i | 0 <= i < |rects| ensures Under(rects[i], cols + more, height') {
      assert Under(rects[i], cols, height);
    }
  }
}
