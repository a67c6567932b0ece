/** The skyline bin packer of fontstash.h, editing its node array in place. */
module Atlas {
  import opened Skyline
  import opened Packing

  class FontAtlas {
    var width: int
    var height: int
    var nodes: array<Node>
    var nnodes: nat
    ghost var rects: seq<Rect>      // handed out since the last reset

    ghost function Nodes(): seq<Node>
      reads this, nodes
      requires nnodes <= nodes.Length
    {
      nodes[..nnodes]
    }

    /** The state of the packer as a value. */
    ghost function Value(): Sky
      reads this, nodes
      requires nnodes <= nodes.Length
    {
      Sky(Nodes(), width, height)
    }

    ghost predicate Skyline()
      reads this, nodes
    {
      nnodes <= nodes.Length && SkyOk(Value())
    }

    ghost function Heights(): seq<int>
      reads this, nodes
      requires nnodes <= nodes.Length
    {
      Columns(Nodes())
    }

    ghost predicate Valid()
      reads this, nodes
    {
      Skyline() && Packed(rects, Heights(), height)
    }

    /** Moving the nodes from idx on one place up and writing node at idx. */
    static method InsertAt(a: array<Node>, n: nat, idx: nat, node: Node)
      requires idx <= n < a.Length
      modifies a
      ensures a[..n + 1] == old(a[..n])[..idx] + [node] + old(a[..n])[idx..]
    {
      var i := n;
      while i > idx
        invariant idx <= i <= n
        invariant a[..i] == old(a[..i])
        invariant a[i + 1..n + 1] == old(a[i..n])
      {
        a[i] := a[i - 1];
        i := i - 1;
      }
      a[idx] := node;
      assert a[..n + 1] == a[..idx] + [node] + a[idx + 1..n + 1];
    }

    /** Moving the nodes after idx one place down. */
    static method ShiftDown(a: array<Node>, n: nat, idx: nat)
      requires idx < n <= a.Length
      modifies a
      ensures a[..idx] == old(a[..idx]) && a[idx..n - 1] == old(a[idx + 1..n])
    {
      for i := idx to n - 1
        invariant forall k :: 0 <= k < idx ==> a[k] == old(a[k])
        invariant forall k :: idx <= k < i ==> a[k] == old(a[k + 1])
        invariant forall k :: i <= k < n ==> a[k] == old(a[k])
      {
        a[i] := a[i + 1];
      }
    }

    /** A node array twice as long with the same nodes, as realloc leaves it. */
    static method Doubled(a: array<Node>) returns (b: array<Node>)
      ensures fresh(b) && b.Length > a.Length && b[..a.Length] == a[..]
    {
      b := new Node[if a.Length == 0 then 8 else a.Length * 2](_ => Node(0, 0, 0));
      for k := 0 to a.Length
        invariant b[..k] == a[..k]
      {
        b[k] := a[k];
      }
    }

    /** fons__atlasInsertNode; the array doubles when it is full. */
    method InsertNode(idx: nat, x: int, y: int, w: int)
      requires idx <= nnodes <= nodes.Length
      modifies this`nodes, this`nnodes, nodes
      ensures nnodes == old(nnodes) + 1 <= nodes.Length
      ensures nodes == old(nodes) || fresh(nodes)
      ensures Nodes() == old(Nodes())[..idx] + [Node(ToShort(x), ToShort(y), ToShort(w))] + old(Nodes())[idx..]
    {
      if nnodes + 1 > nodes.Length {
        assert nodes[..] == nodes[..nnodes];
        var bigger := Doubled(nodes);
        nodes := bigger;
      }
      InsertAt(nodes, nnodes, idx, Node(ToShort(x), ToShort(y), ToShort(w)));
      nnodes := nnodes + 1;
    }

    /** fons__atlasRemoveNode. */
    method RemoveNode(idx: nat)
      requires idx < nnodes <= nodes.Length
      modifies this`nnodes, nodes
      ensures nnodes == old(nnodes) - 1
      ensures Nodes() == old(Nodes())[..idx] + old(Nodes())[idx + 1..]
    {
      ShiftDown(nodes, nnodes, idx);
      nnodes := nnodes - 1;
      assert nodes[..nnodes] == nodes[..idx] + nodes[idx..nnodes];
    }

    /** The part of span cur that span prev leaves, through the casts to short. */
    static function CutBack(prev: Node, cur: Node): (r: Node)
      requires 0 <= prev.x <= cur.x < prev.x + prev.width <= SHORT_MAX && 0 < cur.width <= SHORT_MAX
      ensures r == Node(prev.x + prev.width, cur.y, cur.x + cur.width - (prev.x + prev.width))
    {
      var shrink := prev.x + prev.width - cur.x;
      Node(ToShort(cur.x + ToShort(shrink)), cur.y, ToShort(cur.width - ToShort(shrink)))
    }

    method CutNode(i: nat, ghost front: seq<Node>, ghost rest: seq<Node>)
      requires nnodes <= nodes.Length && nodes[..nnodes] == front + rest && i == |front| && 0 < i < nnodes
      requires 0 <= nodes[i - 1].x <= nodes[i].x < nodes[i - 1].x + nodes[i - 1].width <= SHORT_MAX && 0 < nodes[i].width <= SHORT_MAX
      modifies nodes
      ensures nodes[..nnodes] == front + ([nodes[i]] + rest[1..])
      ensures nodes[i] == Node(old(nodes[i - 1].x + nodes[i - 1].width), old(nodes[i].y), old(nodes[i].x + nodes[i].width - (nodes[i - 1].x + nodes[i - 1].width)))
    {
      nodes[i] := CutBack(nodes[i - 1], nodes[i]);
    }

    method DropNode(i: nat, ghost front: seq<Node>, ghost rest: seq<Node>)
      requires nnodes <= nodes.Length && i == |front| < nnodes && nodes[..nnodes] == front + ([nodes[i]] + rest)
      modifies this`nnodes, nodes
      ensures nnodes == old(nnodes) - 1 && nodes[..nnodes] == front + rest
    {
      RemoveNode(i);
    }

    static predicate Ahead(tail: seq<Node>, x0: int) {
      forall k :: 0 <= k < |tail| ==> x0 <= tail[k].x && 0 < tail[k].width <= SHORT_MAX
    }

    /** The first loop of fons__atlasAddSkylineLevel: spans in the shadow of node idx
        are cut back or removed, the index stepping back after each removal. */
    method CutShadow(idx: nat, ghost pre: seq<Node>, ghost n: Node, ghost tail: seq<Node>)
      requires nnodes <= nodes.Length && idx == |pre| && Nodes() == pre + [n] + tail
      requires 0 <= n.x && 0 < n.width && n.x + n.width <= SHORT_MAX
      requires Ahead(tail, n.x)
      modifies this`nnodes, nodes
      ensures nnodes <= nodes.Length
      ensures Nodes() == pre + ([n] + Shadow(tail, n.x + n.width))
    {
      ghost var end, front, rest := n.x + n.width, pre + [n], tail;
      var i := idx + 1;
      while i < nnodes
        invariant nodes == old(nodes) && i == idx + 1 && nnodes <= nodes.Length
        invariant nodes[..nnodes] == front + rest && Shadow(rest, end) == Shadow(tail, end)
        invariant Ahead(rest, n.x)
        decreases nnodes
      {
        assert nodes[i - 1] == n && nodes[i] == rest[0];
        if nodes[i].x < nodes[i - 1].x + nodes[i - 1].width {
          CutNode(i, front, rest);
          if nodes[i].width <= 0 {
            DropNode(i, front, rest[1..]);
            rest := rest[1..];
            i := i - 1;
          } else {
            return;
          }
        } else {
          return;
        }
        i := i + 1;
      }
      assert rest == [];
    }

    static lemma {:induction false} TailNodes(tail: seq<Node>, x0: int)
      requires Chain(tail, x0) && 0 <= x0 && x0 + |Columns(tail)| <= SHORT_MAX
      ensures Ahead(tail, x0)
    {
      forall k | 0 <= k < |tail| ensures x0 <= tail[k].x && 0 < tail[k].width <= SHORT_MAX {
        TailNode(tail, x0, k);
      }
    }

    /** Joining node i + 1 to node i. */
    method MergePair(i: nat)
      requires nnodes <= nodes.Length && i + 1 < nnodes && nodes[i].y == nodes[i + 1].y
      requires Chain(Nodes(), 0) && |Columns(Nodes())| <= SHORT_MAX
      modifies this`nnodes, nodes
      ensures nnodes == old(nnodes) - 1 && Nodes() == old(Nodes()[..i] + Joined(Nodes()[i..]))
    {
      ghost var ns := Nodes();
      JoinFits(ns, i);
      nodes[i] := nodes[i].(width := ToShort(nodes[i].width + nodes[i + 1].width));
      assert Nodes() == ns[i := ns[i].(width := ns[i].width + ns[i + 1].width)];
      RemoveNode(i + 1);
      JoinInPlace(ns, i);
    }

    static lemma {:induction false} JoinFits(ns: seq<Node>, i: nat)
      requires Chain(ns, 0) && |Columns(ns)| <= SHORT_MAX && i + 1 < |ns|
      ensures ToShort(ns[i].width + ns[i + 1].width) == ns[i].width + ns[i + 1].width
    {
      TailNode(ns, 0, i + 1);
      SpanEnd(ns, 0, i);
      TailNode(ns, 0, i);
      ShortSame(ns[i].width + ns[i + 1].width);
    }

    static lemma {:induction false} JoinInPlace(ns: seq<Node>, i: nat)
      requires i + 1 < |ns|
      ensures var r := ns[i := ns[i].(width := ns[i].width + ns[i + 1].width)];
        r[..i + 1] + r[i + 2..] == ns[..i] + Joined(ns[i..])
    {}

    /** The second loop: neighbours of equal height become one span. */
    method MergeLevels()
      requires nnodes <= nodes.Length && Chain(Nodes(), 0) && |Columns(Nodes())| <= SHORT_MAX
      modifies this`nnodes, nodes
      ensures nnodes <= nodes.Length && Nodes() == Merged(old(Nodes()))
    {
      var i := 0;
      ghost var goal := Merged(Nodes());
      assert Nodes()[0..] == Nodes() && [] + goal == goal;
      while i < nnodes - 1
        invariant nodes == old(nodes) && 0 <= i && nnodes <= nodes.Length && Merging(Nodes(), i, goal)
        decreases nnodes - i
      {
        i := MergeTurn(i, goal);
      }
      MergeDone(Nodes(), i);
    }

    /** One turn of the loop. */
    method MergeTurn(i: int, ghost goal: seq<Node>) returns (next: int)
      requires nnodes <= nodes.Length && 0 <= i < nnodes - 1 && Merging(Nodes(), i, goal)
      modifies this`nnodes, nodes
      ensures nnodes <= nodes.Length && 0 <= next && Merging(Nodes(), next, goal)
      ensures nnodes - next < old(nnodes) - i
    {
      next := i;
      if nodes[i].y == nodes[i + 1].y {
        MergeHere(Nodes(), i, goal);
        MergePair(i);
        next := next - 1;
      } else {
        MergeNext(Nodes(), i, goal);
      }
      next := next + 1;
    }

    /** The first i spans are done, the others have still to be merged. */
    static ghost predicate Merging(ns: seq<Node>, i: nat, goal: seq<Node>) {
      i <= |ns| && Chain(ns, 0) && |Columns(ns)| <= SHORT_MAX && ns[..i] + Merged(ns[i..]) == goal
    }

    static lemma {:induction false} MergeHere(ns: seq<Node>, i: nat, goal: seq<Node>)
      requires Merging(ns, i, goal) && i + 1 < |ns| && ns[i].y == ns[i + 1].y
      ensures Merging(ns[..i] + Joined(ns[i..]), i, goal)
    {
      MergeKeepsColumns(ns, i);
      var r := ns[..i] + Joined(ns[i..]);
      assert r[i..] == Joined(ns[i..]) && r[..i] == ns[..i];
    }

    static lemma {:induction false} MergeNext(ns: seq<Node>, i: nat, goal: seq<Node>)
      requires Merging(ns, i, goal) && i + 1 < |ns| && ns[i].y != ns[i + 1].y
      ensures Merging(ns, i + 1, goal)
    {
      assert ns[i..][1..] == ns[i + 1..];
      assert ns[..i + 1] == ns[..i] + [ns[i]];
    }

    static lemma {:induction false} MergeDone(ns: seq<Node>, i: nat)
      requires i <= |ns| <= i + 1
      ensures ns[..i] + Merged(ns[i..]) == ns
    {}

    /** Inserting the new span and cutting its shadow. */
    method InsertSpan(idx: nat, x: int, level: int, w: nat)
      requires nnodes <= nodes.Length && idx < nnodes && x == nodes[idx].x && 0 <= x && 0 < w && x + w <= SHORT_MAX
      requires 0 <= level <= SHORT_MAX && Ahead(Nodes()[idx..], x)
      modifies this`nodes, this`nnodes, nodes
      ensures nodes == old(nodes) || fresh(nodes)
      ensures nnodes <= nodes.Length && Nodes() == WithSpan(old(Nodes()), idx, level, w)
    {
      ghost var ns := Nodes();
      assert ns[idx] == nodes[idx];
      ShortSame(x);
      ShortSame(level);
      ShortSame(w);
      InsertNode(idx, x, level, w);
      CutShadow(idx, ns[..idx], Node(x, level, w), ns[idx..]);
      assert Nodes() == WithSpan(ns, idx, level, w);
    }

    /** fons__atlasAddSkylineLevel: the new span goes in, its shadow is cut and equal
        neighbours are joined, so that columns [x, x + w) rise to y + h and no other
        column changes. */
    method AddSkylineLevel(idx: nat, x: int, y: int, w: nat, h: nat)
      requires nnodes <= nodes.Length && Chain(Nodes(), 0) && idx < nnodes && x == nodes[idx].x
      requires 0 < w && x + w <= |Heights()| <= SHORT_MAX && 0 <= y && y + h <= SHORT_MAX
      modifies this`nodes, this`nnodes, nodes
      ensures nodes == old(nodes) || fresh(nodes)
      ensures 0 <= x && nnodes <= nodes.Length && Nodes() == Merged(WithSpan(old(Nodes()), idx, y + h, w))
      ensures Heights() == Raised(old(Heights()), x, w, y + h)
      ensures LevelsDiffer(Nodes())
    {
      ghost var ns := Nodes();
      assert ns[idx] == nodes[idx];
      LevelReady(ns, idx, w, y + h);
      ghost var cols, raised := Columns(ns), Merged(WithSpan(ns, idx, y + h, w));
      assert Columns(raised) == Raised(cols, x, w, y + h) && LevelsDiffer(raised);
      RaiseNodes(idx, x, y + h, w);
      assert Nodes() == raised;
    }

    method RaiseNodes(idx: nat, x: int, level: int, w: nat)
      requires nnodes <= nodes.Length && idx < nnodes && x == nodes[idx].x && 0 <= x && 0 < w && x + w <= SHORT_MAX
      requires 0 <= level <= SHORT_MAX && Ahead(Nodes()[idx..], x)
      requires Chain(WithSpan(Nodes(), idx, level, w), 0) && |Columns(WithSpan(Nodes(), idx, level, w))| <= SHORT_MAX
      modifies this`nodes, this`nnodes, nodes
      ensures nodes == old(nodes) || fresh(nodes)
      ensures nnodes <= nodes.Length && Nodes() == Merged(WithSpan(old(Nodes()), idx, level, w))
    {
      InsertSpan(idx, x, level, w);
      MergeLevels();
    }

    static lemma {:induction false} LevelReady(ns: seq<Node>, idx: nat, w: nat, level: int)
      requires Chain(ns, 0) && idx < |ns| && 0 < w && ns[idx].x + w <= |Columns(ns)| <= SHORT_MAX
      ensures var spanned := WithSpan(ns, idx, level, w);
        && 0 <= ns[idx].x && Ahead(ns[idx..], ns[idx].x) && Chain(spanned, 0) && |Columns(spanned)| <= SHORT_MAX
        && Columns(Merged(spanned)) == Raised(Columns(ns), ns[idx].x, w, level)
        && LevelsDiffer(Merged(spanned))
    {
      SpanRaises(ns, idx, w, level);
      SpanAt(ns, 0, idx);
      TailNodes(ns[idx..], ns[idx].x);
      MergedKeepsColumns(WithSpan(ns, idx, level, w), 0);
      MergedLevelsDiffer(WithSpan(ns, idx, level, w));
    }

    /** fons__atlasRectFits: the height at which a w by h rectangle comes to rest when
        dropped at span i, or -1 when it would leave the atlas. */
    method RectFits(start: nat, w: nat, h: nat) returns (r: int)
      requires Skyline() && start < nnodes && 1 <= w
      ensures 0 <= nodes[start].x
      ensures r != -1 <==> nodes[start].x + w <= width && Peak(Heights(), nodes[start].x, w) + h <= height
      ensures r != -1 ==> r == Peak(Heights(), nodes[start].x, w)
    {
      ghost var ns, cols := Nodes(), Heights();
      SpanEnd(ns, 0, start);
      var i, x, y := start, nodes[start].x, nodes[start].y;
      LevelsExact(cols, height);
      if x + w > width { return -1; }
      ColumnOf(ns, 0, start, x);
      var spaceLeft := w as int;
      while spaceLeft > 0
        invariant start <= i <= nnodes
        invariant spaceLeft == x + w - if i < nnodes then nodes[i].x else width
        invariant forall c :: x <= c < x + w - spaceLeft && c < x + w ==> cols[c] <= y
        invariant exists c :: x <= c < x + w && cols[c] == y
        invariant spaceLeft < w ==> y + h <= height
      {
        if i == nnodes { return -1; }
        SpanEnd(ns, 0, i);
        forall c | nodes[i].x <= c < nodes[i].x + nodes[i].width ensures 0 <= c < |cols| && cols[c] == nodes[i].y {
          ColumnOf(ns, 0, i, c);
        }
        assert cols[nodes[i].x] == nodes[i].y;
        y := Max(y, nodes[i].y);
        assert exists c :: x <= c < x + w && cols[c] == y;
        if y + h > height {
          PeakExact(cols, x, w, Peak(cols, x, w));
          return -1;
        }
        spaceLeft := spaceLeft - nodes[i].width;
        i := i + 1;
      }
      PeakExact(cols, x, w, y);
      return y;
    }

    /** The search loop of fons__atlasAddRect. */
    method ChooseSpan(rw: nat, rh: nat) returns (besti: int, bestx: int, besty: int)
      requires Skyline() && 1 <= rw
      ensures besti == -1 <==> Refuses(Value(), rw, rh)
      ensures besti != -1 ==> besti == Chosen(Value(), rw, rh)
      ensures besti != -1 ==> bestx == nodes[besti].x && besty == Peak(Heights(), bestx, rw)
    {
      var besth, bestw := height, width;
      besti, bestx, besty := -1, -1, -1;
      for i := 0 to nnodes
        invariant Leads(Value(), besti, besth, bestw, i, rw, rh)
        invariant besti != -1 ==> bestx == nodes[besti].x && besty == Peak(Heights(), bestx, rw)
      {
        var y := RectFits(i, rw, rh);
        LeadsOn(Value(), besti, besth, bestw, i, rw, rh);
        if y != -1 {
          if y + rh < besth || (y + rh == besth && nodes[i].width < bestw) {
            besti, bestw, besth, bestx, besty := i, nodes[i].width, y + rh, nodes[i].x, y;
          }
        }
      }
      LeaderIsChosen(Value(), besti, besth, bestw, rw, rh);
    }

    /** AddSkylineLevel as far as the nodes go. */
    method RaiseSpan(idx: nat, x: int, y: int, w: nat, h: nat)
      requires nnodes <= nodes.Length && Chain(Nodes(), 0) && idx < nnodes && x == nodes[idx].x
      requires 0 < w && x + w <= |Heights()| <= SHORT_MAX && 0 <= y && y + h <= SHORT_MAX
      modifies this`nodes, this`nnodes, nodes
      ensures nodes == old(nodes) || fresh(nodes)
      ensures nnodes <= nodes.Length && Value() == Sky(Merged(WithSpan(old(Nodes()), idx, y + h, w)), width, height)
    {
      AddSkylineLevel(idx, x, y, w, h);
    }

    /** Search and insertion. */
    method Insert(rw: nat, rh: nat) returns (p: Placement)
      requires Skyline() && 1 <= rw && 1 <= rh
      modifies this`nodes, this`nnodes, nodes
      ensures nnodes <= nodes.Length && (nodes == old(nodes) || fresh(nodes))
      ensures p == PlacementFor(old(Value()), rw, rh) && Value() == SkyNext(old(Value()), Add(rw, rh))
    {
      var besti, bestx, besty := ChooseSpan(rw, rh);
      if besti == -1 {
        RefusedStays(Value(), rw, rh);
        return Full;
      }
      SpanChosen(Value(), rw, rh, besti, bestx, besty);
      RaiseSpan(besti, bestx, besty, rw, rh);
      p := At(bestx, besty);
    }

    /** The rectangle goes on the chosen span. */
    static lemma {:induction false} SpanChosen(s: Sky, w: nat, h: nat, b: int, x: int, y: int)
      requires SkyOk(s) && 1 <= w && 1 <= h && !Refuses(s, w, h) && b == Chosen(s, w, h)
      requires x == s.nodes[b].x && 0 <= x && x + w <= |Columns(s.nodes)| && y == Peak(Columns(s.nodes), x, w)
      ensures 0 <= y && y + h <= SHORT_MAX && PlacementFor(s, w, h) == At(x, y)
      ensures SkyNext(s, Add(w, h)) == Sky(Merged(WithSpan(s.nodes, b, y + h, w)), s.width, s.height)
    {
      PlaceFacts(s, w, h);
    }

    /** fons__atlasAddRect: places the rectangle at the bottom-left choice, disjoint
        from all others, or refuses and changes nothing. */
    method AddRect(rw: nat, rh: nat) returns (p: Placement)
      requires Valid() && 1 <= rw && 1 <= rh
      modifies this`nodes, this`nnodes, this`rects, nodes
      ensures Valid() && (nodes == old(nodes) || fresh(nodes))
      ensures p == PlacementFor(old(Value()), rw, rh) && Value() == SkyNext(old(Value()), Add(rw, rh))
      ensures rects == old(rects) + if p.At? then [Rect(p.x, p.y, rw, rh)] else []
      ensures BottomLeft(old(Value()), p, rw, rh)
      ensures if p.At? then PlacedBy(old(Value()), Value(), p.x, p.y, rw, rh) else Value() == old(Value())
    {
      ghost var s := Value();
      PlacedBottomLeft(s, rw, rh);
      p := Insert(rw, rh);
      if p.At? {
        PlacedColumns(s, rw, rh);
        PackedNext(s, Value(), p.x, p.y, rects, rw, rh);
        rects := rects + [Rect(p.x, p.y, rw, rh)];
      }
    }

    /** fons__allocAtlas. */
    constructor (w: int, h: int, capacity: nat)
      requires 1 <= w <= SHORT_MAX && 0 <= h <= SHORT_MAX && 1 <= capacity
      ensures Valid() && fresh(nodes) && nodes.Length >= 1
      ensures Value() == Flat(w, h) && rects == []
    {
      width, height, nnodes, rects := w, h, 1, [];
      var a := new Node[capacity](_ => Node(0, 0, 0));
      a[0] := Node(0, 0, ToShort(w));
      nodes := a;
      new;
      ShortSame(w);
      assert Nodes() == [Node(0, 0, w)];
      assert Value() == Flat(w, h);
    }

    /** fons__atlasReset: a flat skyline and no rectangles. */
    method Reset(w: int, h: int)
      requires 1 <= w <= SHORT_MAX && 0 <= h <= SHORT_MAX && nodes.Length >= 1
      modifies this`width, this`height, this`nnodes, this`rects, nodes
      ensures Valid() && Value() == Flat(w, h) && rects == []
    {
      width, height := w, h;
      nodes[0] := Node(0, 0, ToShort(w));
      nnodes := 1;
      rects := [];
      ShortSame(w);
      assert Nodes() == [Node(0, 0, w)];
      assert Value() == Flat(w, h);
    }

    /** fons__atlasExpand as fonsExpandAtlas calls it, sizes never shrinking: new empty
        columns at the right, nothing else moves. */
    method Expand(w0: int, h0: int)
      requires Valid() && w0 <= SHORT_MAX && h0 <= SHORT_MAX
      modifies this`width, this`height, this`nodes, this`nnodes, nodes
      ensures Valid() && (nodes == old(nodes) || fresh(nodes)) && rects == old(rects)
      ensures Value() == Grown(old(Value()), w0, h0)
      ensures width == Max(w0, old(width)) && height == Max(h0, old(height))
      ensures Heights() == old(Heights()) + Repeat(0, width - old(width))
    {
      var w, h := Max(w0, width), Max(h0, height);
      ghost var s := Value();
      PackGrow(rects, Heights(), height, Repeat(0, w - width), h);
      if w > width {
        ShortSame(width);
        ShortSame(w - width);
        InsertNode(nnodes, width, 0, w - width);
        assert Nodes() == s.nodes + [Node(s.width, 0, w - s.width)];
      }
      width := w;
      height := h;
      assert Value() == Grown(s, w0, h0);
    }
  }

  /** One request of a run. */
  method Serve(a: FontAtlas, c: Command) returns (answer: Answer)
    requires a.Valid() && a.nodes.Length >= 1 && InRange(c)
    modifies a, a.nodes
    ensures a.Valid() && a.nodes.Length >= 1 && (a.nodes == old(a.nodes) || fresh(a.nodes))
    ensures answer == AnswerTo(old(a.Value()), c) && a.Value() == SkyNext(old(a.Value()), c)
    ensures a.rects == HandedNext(old(a.rects), c, answer)
  {
    answer := Resized;
    match c
    case Add(w, h) =>
      var p := a.AddRect(w, h);
      answer := Asked(p);
    case Grow(w, h) => a.Expand(w, h);
    case Clear(w, h) => a.Reset(w, h);
  }

  /** Over every run of requests: each is answered as the skyline of that moment says, the
      rectangles handed out are those of the answers since the last clearing, and these
      lie in the atlas and share no texel. */
  method Replay(w: int, h: int, capacity: nat, cs: seq<Command>)
    returns (answers: seq<Answer>, handed: seq<Rect>, width: int, height: int)
    requires 1 <= w <= SHORT_MAX && 0 <= h <= SHORT_MAX && 1 <= capacity && AllInRange(cs)
    ensures answers == AnswersTo(Flat(w, h), cs) && handed == HandedOut(cs, answers)
    ensures forall k: nat :: k < |cs| ==> AnsweredInTurn(Flat(w, h), cs, answers, k)
    ensures var s := SkyAfter(Flat(w, h), cs); width == s.width && height == s.height
    ensures forall i :: 0 <= i < |handed| ==>
      0 <= handed[i].x && handed[i].x + handed[i].w <= width && 0 <= handed[i].y && handed[i].y + handed[i].h <= height
    ensures forall i, j :: 0 <= i < j < |handed| ==> ShareNoTexel(handed[i], handed[j])
  {
    var a := new FontAtlas(w, h, capacity);
    answers := [];
    for k := 0 to |cs|
      invariant fresh(a) && fresh(a.nodes) && a.nodes.Length >= 1 && a.Valid()
      invariant Told(Flat(w, h), cs[..k], a.Value(), answers, a.rects)
    {
      ghost var s, rects := a.Value(), a.rects;
      var answer := Serve(a, cs[k]);
      assert cs[..k + 1] == cs[..k] + [cs[k]];
      ToldMore(Flat(w, h), cs[..k], s, answers, rects, cs[k], a.Value(), answer);
      answers := answers + [answer];
    }
    assert cs[..|cs|] == cs;
    handed := HandedOut(cs, answers);
    forall k: nat | k < |cs| ensures AnsweredInTurn(Flat(w, h), cs, answers, k) { AnswerAt(Flat(w, h), cs, k); }
    width, height := a.width, a.height;
    PackedInside(handed, a.Heights(), height);
  }

  lemma {:induction false} PackedInside(rects: seq<Rect>, cols: seq<int>, height: int)
    requires Packed(rects, cols, height)
    ensures forall i :: 0 <= i < |rects| ==>
      0 <= rects[i].x && rects[i].x + rects[i].w <= |cols| && 0 <= rects[i].y && rects[i].y + rects[i].h <= height
    ensures forall i, j :: 0 <= i < j < |rects| ==> ShareNoTexel(rects[i], rects[j])
  {
    forall i | 0 <= i < |rects| ensures Under(rects[i], cols, height) {}
  }
}
