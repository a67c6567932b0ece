/** What a request to the glyph cache must be answered and must leave behind, told by the
    glyphs and rectangles alone. */
module GlyphAnswers {
  import opened Skyline
  import opened Packing
  import opened GlyphCache

  /** The fonts, the skyline, the rectangles handed out and the glyphs they were handed out
      for. */
  datatype Moment = Moment(shelf: Shelf, rects: seq<Rect>, owners: seq<Owner>)

  /** Blurs above 20 count as 20. */
  function Twenty(blur: int): int { if blur > 20 then 20 else blur }

  /** Glyph g is for the codepoint, size and blur of the request. */
  predicate Asked(g: Glyph, q: Request)
    requires q.LookUp?
  {
    g.key.codepoint == q.codepoint && g.key.size == q.isize && g.key.blur == Twenty(q.iblur)
  }

  /** How long a side of a glyph's bitmap is with the padding of blur and border. */
  function WithPadding(side: nat, iblur: int): int { side + (Twenty(iblur) + 2) * 2 }

  /** The request has a font and a size. */
  predicate Proper(fonts: seq<Font>, q: Request)
    requires q.LookUp?
  {
    q.font < |fonts| && q.isize >= 2
  }

  ghost predicate HasGlyph(f: Font, q: Request)
    requires q.LookUp?
  {
    exists j :: 0 <= j < |f.glyphs| && Asked(f.glyphs[j], q)
  }

  ghost predicate HasDrawn(f: Font, q: Request)
    requires q.LookUp?
  {
    exists j :: 0 <= j < |f.glyphs| && Asked(f.glyphs[j], q) && HasBitmap(f.glyphs[j])
  }

  /** What is asked for is in the cache already. */
  ghost predicate InCache(f: Font, q: Request)
    requires q.LookUp?
  {
    if q.required then HasDrawn(f, q) else HasGlyph(f, q)
  }

  /** Only glyph i of font f changes, and it is new if there was none for the request. */
  ghost predicate OnlyGlyph(before: seq<Font>, after: seq<Font>, q: Request, i: nat)
    requires q.LookUp? && q.font < |before|
  {
    && |after| == |before| && (forall g :: 0 <= g < |before| && g != q.font ==> after[g] == before[g])
    && |after[q.font].glyphs| == |before[q.font].glyphs| + (if HasGlyph(before[q.font], q) then 0 else 1)
    && (forall j :: 0 <= j < |before[q.font].glyphs| && j != i ==> j < |after[q.font].glyphs| && after[q.font].glyphs[j] == before[q.font].glyphs[j])
  }

  /** A look-up answered with glyph i. */
  ghost predicate FoundRightly(a: Moment, q: Request, i: nat, b: Moment)
    requires q.LookUp?
  {
    var before, after := a.shelf.fonts, b.shelf.fonts;
    && Proper(before, q) && |after| == |before| && i < |after[q.font].glyphs|
    && var g := after[q.font].glyphs[i];
    && Asked(g, q)
    && (q.required ==> HasBitmap(g) && exists k :: HousedAt(after, b.rects, b.owners, q.font, i, k))
    && (InCache(before[q.font], q) ==> b == a)
    && (!InCache(before[q.font], q) ==> OnlyGlyph(before, after, q, i))
    && (!InCache(before[q.font], q) && q.required ==> Drew(a, q, i, b))
    && (!q.required ==> b.rects == a.rects && b.owners == a.owners && b.shelf.sky == a.shelf.sky)
  }

  /** A bitmap was made: one rectangle of the padded size was handed out, for glyph i. */
  ghost predicate Drew(a: Moment, q: Request, i: nat, b: Moment)
    requires q.LookUp? && q.font < |b.shelf.fonts| && i < |b.shelf.fonts[q.font].glyphs|
  {
    var r := Texels(b.shelf.fonts[q.font].glyphs[i]);
    && r.w == WithPadding(q.bw, q.iblur) && r.h == WithPadding(q.bh, q.iblur)
    && b.rects == a.rects + [r] && b.owners == a.owners + [Bitmap(q.font, i)]
    && r.w >= 1 && r.h >= 1 && PlaceRight(a.shelf.sky, q.handler, At(r.x, r.y), r.w, r.h)
  }

  /** The answer is that of the atlas; if that was full and the error callback made it larger,
      that of the larger one. */
  ghost predicate PlaceRight(s: Sky, handler: Handler, p: Placement, w: nat, h: nat) {
    if !BottomLeft(s, Full, w, h) || handler.NoHandler? then BottomLeft(s, p, w, h)
    else SkyOk(s) && HandlerOk(handler) && BottomLeft(Grown(s, handler.w, handler.h), p, w, h)
  }

  /** ... and it is larger from then on. */
  ghost predicate Widened(a: Sky, handler: Handler, b: Sky) {
    match handler
    case NoHandler => b == a
    case Expands(w, h) => Sized(b, Max(w, a.width), Max(h, a.height))
  }

  /** A look-up answered with nothing: there is no such font, the size is too small, or a
      bitmap is wanted that the cache has not and the atlas has no room for. */
  ghost predicate MissedRightly(a: Moment, q: Request, b: Moment)
    requires q.LookUp?
  {
    && b.shelf.fonts == a.shelf.fonts && b.rects == a.rects && b.owners == a.owners
    && (Proper(a.shelf.fonts, q) ==>
         && q.required && !HasDrawn(a.shelf.fonts[q.font], q)
         && 1 <= WithPadding(q.bw, q.iblur) && 1 <= WithPadding(q.bh, q.iblur)
         && Widened(a.shelf.sky, q.handler, b.shelf.sky)
         && PlaceRight(a.shelf.sky, q.handler, Full, WithPadding(q.bw, q.iblur), WithPadding(q.bh, q.iblur)))
  }

  /** Only the white rectangle. */
  predicate White(rects: seq<Rect>, owners: seq<Owner>) {
    && |rects| == |owners| <= 1
    && forall k :: 0 <= k < |rects| ==> rects[k].w == 2 && rects[k].h == 2 && owners[k] == Nobody
  }

  predicate NoGlyphs(fonts: seq<Font>) { forall f :: 0 <= f < |fonts| ==> fonts[f].glyphs == [] }

  /** Font `base` has lost its glyphs and the others are as before. */
  predicate Emptied(before: seq<Font>, base: nat, after: seq<Font>) {
    && |after| == |before| && (base < |after| ==> after[base].glyphs == [])
    && forall f :: 0 <= f < |after| && f != base ==> after[f] == before[f]
  }

  /** The fonts have one more, without glyphs. */
  predicate OneMore(before: seq<Font>, after: seq<Font>) {
    |after| == |before| + 1 && after[..|before|] == before && after[|before|].glyphs == []
  }

  predicate SameRects(a: Moment, b: Moment) { b.rects == a.rects && b.owners == a.owners }

  predicate Sized(s: Sky, w: int, h: int) { s.width == w && s.height == h }

  /** Request q at moment a is answered r, and moment b follows. */
  ghost predicate Honoured(a: Moment, q: Request, r: Lookup, b: Moment) {
    if q.LookUp? then
      if r.Found? then FoundRightly(a, q, r.index, b) else MissedRightly(a, q, b)
    else if q.NewFont? then
      SameRects(a, b) && b.shelf.sky == a.shelf.sky && OneMore(a.shelf.fonts, b.shelf.fonts)
    else if q.ExpandAtlas? then
      SameRects(a, b) && b.shelf.fonts == a.shelf.fonts && Sized(b.shelf.sky, Max(q.w, a.shelf.sky.width), Max(q.h, a.shelf.sky.height))
    else if q.ResetFallback? then
      SameRects(a, b) && b.shelf.sky == a.shelf.sky && Emptied(a.shelf.fonts, q.base, b.shelf.fonts)
    else
      White(b.rects, b.owners) && Sized(b.shelf.sky, q.w, q.h) && |b.shelf.fonts| == |a.shelf.fonts| && NoGlyphs(b.shelf.fonts)
  }

  // ---- the rectangles that a request adds

  function AddedRects(v: Shelf, q: Request, r: Lookup, after: Shelf): seq<Rect> {
    if q.LookUp? && NeedsBitmap(v, q) && r.Found? && q.font < |after.fonts| && r.index < |after.fonts[q.font].glyphs|
    then [Texels(after.fonts[q.font].glyphs[r.index])] else []
  }

  function AddedOwners(v: Shelf, q: Request, r: Lookup, after: Shelf): seq<Owner> {
    if q.LookUp? && NeedsBitmap(v, q) && r.Found? && q.font < |after.fonts| && r.index < |after.fonts[q.font].glyphs|
    then [Bitmap(q.font, r.index)] else []
  }

  // ---- what the cache does is right

  lemma {:induction false} ScanIsAsked(f: Font, q: Request)
    requires q.LookUp?
    ensures var k := Scan(f.glyphs, KeyFor(q.codepoint, q.isize, q.iblur), |f.glyphs|);
      && (k == -1 <==> !HasGlyph(f, q)) && (k != -1 ==> Asked(f.glyphs[k], q))
  {
    var key := KeyFor(q.codepoint, q.isize, q.iblur);
    var k := Scan(f.glyphs, key, |f.glyphs|);
    if k != -1 { assert Asked(f.glyphs[k], q); }
    if HasGlyph(f, q) {
      var j :| 0 <= j < |f.glyphs| && Asked(f.glyphs[j], q);
      assert f.glyphs[j].key == key;
    }
  }

  /** Keys are cached once, so the glyph with the key decides. */
  lemma {:induction false} DrawnIsScanned(hash: HashFn, f: Font, q: Request)
    requires q.LookUp? && Chained(hash, f)
    ensures var k := Scan(f.glyphs, KeyFor(q.codepoint, q.isize, q.iblur), |f.glyphs|);
      HasDrawn(f, q) <==> k != -1 && HasBitmap(f.glyphs[k])
  {
    var key := KeyFor(q.codepoint, q.isize, q.iblur);
    var k := Scan(f.glyphs, key, |f.glyphs|);
    ScanIsAsked(f, q);
    if HasDrawn(f, q) {
      var j: int :| 0 <= j < |f.glyphs| && Asked(f.glyphs[j], q) && HasBitmap(f.glyphs[j]);
      assert f.glyphs[j].key == key;
      OnlyOne(f.glyphs, key, j);
    }
  }

  /** What suffices is what is asked for. */
  lemma {:induction false} SufficesIsInCache(hash: HashFn, f: Font, q: Request)
    requires q.LookUp? && Chained(hash, f)
    ensures var k := Scan(f.glyphs, KeyFor(q.codepoint, q.isize, q.iblur), |f.glyphs|);
      Suffices(f, k, q.required) <==> InCache(f, q)
  {
    ScanIsAsked(f, q);
    DrawnIsScanned(hash, f, q);
  }

  lemma {:induction false} SettledRightly(hash: HashFn, fonts: seq<Font>, q: Request, x0: int, y0: int, x1: int, y1: int)
    requires q.LookUp? && q.font < |fonts|
    ensures var key := KeyFor(q.codepoint, q.isize, q.iblur);
      var found := Scan(fonts[q.font].glyphs, key, |fonts[q.font].glyphs|);
      var i, after := SettledIndex(fonts[q.font], found), fonts[q.font := Settled(hash, fonts[q.font], key, found, x0, y0, x1, y1)];
      && i < |after[q.font].glyphs| && Asked(after[q.font].glyphs[i], q) && OnlyGlyph(fonts, after, q, i)
      && after[q.font].glyphs[i].x0 == x0 && after[q.font].glyphs[i].y0 == y0
      && after[q.font].glyphs[i].x1 == x1 && after[q.font].glyphs[i].y1 == y1
  {
    ScanIsAsked(fonts[q.font], q);
  }

  /** The trial of a bitmap is that of the atlas, or of the larger one. */
  lemma {:induction false} TriedRightly(s: Sky, gw: nat, gh: nat, handler: Handler)
    requires SkyOk(s) && 1 <= gw && 1 <= gh && HandlerOk(handler)
    ensures PlaceRight(s, handler, Tried(s, gw, gh, handler).p, gw, gh)
    ensures Tried(s, gw, gh, handler).p.Full? ==> Widened(s, handler, Tried(s, gw, gh, handler).sky)
  {
    PlacedBottomLeft(s, gw, gh);
    PlacedBottomLeft(Retried(s, gw, gh, handler), gw, gh);
    if BottomLeft(s, Full, gw, gh) { BottomLeftUnique(s, PlacementFor(s, gw, gh), Full, gw, gh); }
  }

  lemma {:induction false} PlacedInside(s: Sky, gw: nat, gh: nat, handler: Handler)
    requires SkyOk(s) && 1 <= gw && 1 <= gh && HandlerOk(handler) && Tried(s, gw, gh, handler).p.At?
    ensures 0 <= Tried(s, gw, gh, handler).p.x && 0 <= Tried(s, gw, gh, handler).p.y
  {
    PlaceFacts(Retried(s, gw, gh, handler), gw, gh);
  }

  /** After the request, given that the bitmaps of the fonts are housed. */
  ghost predicate FollowsFrom(hash: HashFn, a: Moment, q: Request, r: Lookup, b: Moment)
    requires ShelfOk(hash, a.shelf) && RequestOk(q)
  {
    && Reply(b.shelf, r) == Served(hash, a.shelf, q)
    && b.rects == a.rects + AddedRects(a.shelf, q, r, b.shelf) && b.owners == a.owners + AddedOwners(a.shelf, q, r, b.shelf)
  }

  lemma {:induction false} CachedIsHonoured(hash: HashFn, a: Moment, q: Request, r: Lookup, b: Moment)
    requires ShelfOk(hash, a.shelf) && RequestOk(q) && q.LookUp? && Proper(a.shelf.fonts, q) && FollowsFrom(hash, a, q, r, b)
    requires Housed(a.shelf.fonts, a.rects, a.owners) && InCache(a.shelf.fonts[q.font], q)
    ensures Honoured(a, q, r, b)
  {
    var f := a.shelf.fonts[q.font];
    ChainedAt(hash, a.shelf.fonts, q.font);
    SufficesIsInCache(hash, f, q);
    ScanIsAsked(f, q);
    assert a.rects + [] == a.rects && a.owners + [] == a.owners;
    assert b == a;
    if q.required { assert Cached(a.shelf.fonts, q.font, r.index); }
  }

  lemma {:induction false} SketchIsHonoured(hash: HashFn, a: Moment, q: Request, r: Lookup, b: Moment)
    requires ShelfOk(hash, a.shelf) && RequestOk(q) && q.LookUp? && Proper(a.shelf.fonts, q) && FollowsFrom(hash, a, q, r, b)
    requires !InCache(a.shelf.fonts[q.font], q) && !q.required
    ensures Honoured(a, q, r, b)
  {
    ChainedAt(hash, a.shelf.fonts, q.font);
    SufficesIsInCache(hash, a.shelf.fonts[q.font], q);
    var gw, gh := Padded(q.bw, q.iblur), Padded(q.bh, q.iblur);
    SettledRightly(hash, a.shelf.fonts, q, -1, -1, ToShort(-1 + gw), ToShort(-1 + gh));
    assert a.rects + [] == a.rects && a.owners + [] == a.owners;
  }

  lemma {:induction false} FullIsHonoured(hash: HashFn, a: Moment, q: Request, r: Lookup, b: Moment)
    requires ShelfOk(hash, a.shelf) && RequestOk(q) && q.LookUp? && Proper(a.shelf.fonts, q) && FollowsFrom(hash, a, q, r, b)
    requires !InCache(a.shelf.fonts[q.font], q) && q.required && r.Missing?
    ensures Honoured(a, q, r, b)
  {
    ChainedAt(hash, a.shelf.fonts, q.font);
    SufficesIsInCache(hash, a.shelf.fonts[q.font], q);
    var gw, gh := Padded(q.bw, q.iblur), Padded(q.bh, q.iblur);
    if Tried(a.shelf.sky, gw, gh, q.handler).p.Full? { TriedRightly(a.shelf.sky, gw, gh, q.handler); }
    assert a.rects + [] == a.rects && a.owners + [] == a.owners;
  }

  /** What drawing leaves: one glyph on the rectangle of the trial. */
  lemma {:induction false} DrawnFacts(hash: HashFn, a: Moment, q: Request, r: Lookup, b: Moment)
    requires ShelfOk(hash, a.shelf) && RequestOk(q) && q.LookUp? && Proper(a.shelf.fonts, q) && FollowsFrom(hash, a, q, r, b)
    requires !InCache(a.shelf.fonts[q.font], q) && q.required && r.Found?
    ensures var gw, gh := Padded(q.bw, q.iblur), Padded(q.bh, q.iblur);
      var t := Tried(a.shelf.sky, gw, gh, q.handler);
      && t.p.At? && |b.shelf.fonts| == |a.shelf.fonts| && r.index < |b.shelf.fonts[q.font].glyphs|
      && Asked(b.shelf.fonts[q.font].glyphs[r.index], q) && OnlyGlyph(a.shelf.fonts, b.shelf.fonts, q, r.index)
      && Texels(b.shelf.fonts[q.font].glyphs[r.index]) == Rect(t.p.x, t.p.y, gw, gh)
      && b.rects == a.rects + [Rect(t.p.x, t.p.y, gw, gh)] && b.owners == a.owners + [Bitmap(q.font, r.index)]
  {
    ChainedAt(hash, a.shelf.fonts, q.font);
    SufficesIsInCache(hash, a.shelf.fonts[q.font], q);
    var gw, gh := Padded(q.bw, q.iblur), Padded(q.bh, q.iblur);
    var t := Tried(a.shelf.sky, gw, gh, q.handler);
    if t.p.At? { SettledRightly(hash, a.shelf.fonts, q, t.p.x, t.p.y, t.p.x + gw, t.p.y + gh); }
  }

  lemma {:induction false} DrawIsHonoured(hash: HashFn, a: Moment, q: Request, r: Lookup, b: Moment)
    requires ShelfOk(hash, a.shelf) && RequestOk(q) && q.LookUp? && Proper(a.shelf.fonts, q) && FollowsFrom(hash, a, q, r, b)
    requires Housed(b.shelf.fonts, b.rects, b.owners)
    requires !InCache(a.shelf.fonts[q.font], q) && q.required && r.Found?
    ensures Honoured(a, q, r, b)
  {
    var gw, gh := Padded(q.bw, q.iblur), Padded(q.bh, q.iblur);
    var p := Tried(a.shelf.sky, gw, gh, q.handler).p;
    DrawnFacts(hash, a, q, r, b);
    assert 0 <= p.x && 0 <= p.y by { PlacedInside(a.shelf.sky, gw, gh, q.handler); }
    assert PlaceRight(a.shelf.sky, q.handler, p, gw, gh) by { TriedRightly(a.shelf.sky, gw, gh, q.handler); }
    DrewRightly(a, q, r.index, b, p, gw, gh);
  }

  lemma {:induction false} DrewRightly(a: Moment, q: Request, i: nat, b: Moment, p: Placement, gw: nat, gh: nat)
    requires q.LookUp? && q.required && Proper(a.shelf.fonts, q) && !InCache(a.shelf.fonts[q.font], q)
    requires Housed(b.shelf.fonts, b.rects, b.owners) && |b.shelf.fonts| == |a.shelf.fonts| && i < |b.shelf.fonts[q.font].glyphs|
    requires p.At? && 0 <= p.x && 0 <= p.y && 1 <= gw == WithPadding(q.bw, q.iblur) && 1 <= gh == WithPadding(q.bh, q.iblur)
    requires Asked(b.shelf.fonts[q.font].glyphs[i], q) && OnlyGlyph(a.shelf.fonts, b.shelf.fonts, q, i)
    requires Texels(b.shelf.fonts[q.font].glyphs[i]) == Rect(p.x, p.y, gw, gh) && PlaceRight(a.shelf.sky, q.handler, p, gw, gh)
    requires b.rects == a.rects + [Rect(p.x, p.y, gw, gh)] && b.owners == a.owners + [Bitmap(q.font, i)]
    ensures FoundRightly(a, q, i, b)
  {
    assert Cached(b.shelf.fonts, q.font, i);
    assert At(p.x, p.y) == p;
  }

  /** Every look-up is answered rightly. */
  lemma {:induction false} LookUpIsHonoured(hash: HashFn, a: Moment, q: Request, r: Lookup, b: Moment)
    requires ShelfOk(hash, a.shelf) && RequestOk(q) && q.LookUp? && FollowsFrom(hash, a, q, r, b)
    requires Housed(a.shelf.fonts, a.rects, a.owners) && Housed(b.shelf.fonts, b.rects, b.owners)
    ensures Honoured(a, q, r, b)
  {
    if !Proper(a.shelf.fonts, q) {
      assert a.rects + [] == a.rects && a.owners + [] == a.owners;
    } else if InCache(a.shelf.fonts[q.font], q) {
      CachedIsHonoured(hash, a, q, r, b);
    } else if q.required && r.Missing? {
      FullIsHonoured(hash, a, q, r, b);
    } else if q.required {
      DrawIsHonoured(hash, a, q, r, b);
    } else {
      SketchIsHonoured(hash, a, q, r, b);
    }
  }
}
