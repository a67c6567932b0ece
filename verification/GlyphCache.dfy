/** The glyph cache of fontstash.h: hash chains threaded through a glyph array, and
    glyph bitmaps placed in the shared atlas. */
module GlyphCache {
  import opened Skyline
  import opened Packing

  const LUT_SIZE: nat := 256

  /** The chains work with any mixing function; fons__hashint is one. */
  type HashFn = nat -> nat

  /** The chain a codepoint belongs to, `hash & (FONS_HASH_LUT_SIZE - 1)`. */
  function Bucket(hash: HashFn, codepoint: nat): (h: nat)
    ensures h < LUT_SIZE
  {
    hash(codepoint) % LUT_SIZE
  }

  datatype Key = Key(codepoint: nat, size: int, blur: int)

  /** A cached glyph; negative x0 and y0 say that no bitmap has been made. */
  datatype Glyph = Glyph(key: Key, next: int, x0: int, y0: int, x1: int, y1: int)

  /** The heads of the chains. */
  type Lut = l: seq<int> | |l| == LUT_SIZE witness seq(LUT_SIZE, _ => -1)

  datatype Font = Font(lut: Lut, glyphs: seq<Glyph>)

  const EmptyFont: Font := Font(seq(LUT_SIZE, _ => -1), [])

  // ---- the chains

  /** The youngest of the first n glyphs in chain h, or -1. */
  function LastIn(hash: HashFn, gs: seq<Glyph>, n: nat, h: nat): (r: int)
    requires n <= |gs|
    ensures -1 <= r < n
    ensures r >= 0 ==> Bucket(hash, gs[r].key.codepoint) == h
    ensures forall k :: r < k < n ==> Bucket(hash, gs[k].key.codepoint) != h
  {
    if n == 0 then -1
    else if Bucket(hash, gs[n - 1].key.codepoint) == h then n - 1
    else LastIn(hash, gs, n - 1, h)
  }

  ghost predicate HeadRight(hash: HashFn, f: Font, h: int) {
    0 <= h < |f.lut| && f.lut[h] == LastIn(hash, f.glyphs, |f.glyphs|, h)
  }

  ghost predicate LinkRight(hash: HashFn, gs: seq<Glyph>, i: int) {
    0 <= i < |gs| && gs[i].next == LastIn(hash, gs, i, Bucket(hash, gs[i].key.codepoint))
  }

  /** Every chain runs through all glyphs of its bucket, youngest first, so its
      indices strictly decrease; and no key is cached twice. */
  ghost predicate Chained(hash: HashFn, f: Font) {
    && (forall h :: 0 <= h < LUT_SIZE ==> HeadRight(hash, f, h))
    && (forall i :: 0 <= i < |f.glyphs| ==> LinkRight(hash, f.glyphs, i))
    && (forall i, j :: 0 <= i < j < |f.glyphs| ==> f.glyphs[i].key != f.glyphs[j].key)
  }

  /** A plain scan of the glyph array. */
  function Scan(gs: seq<Glyph>, key: Key, n: nat): (r: int)
    requires n <= |gs|
    ensures -1 <= r < n
    ensures r >= 0 ==> gs[r].key == key
    ensures r == -1 ==> forall k :: 0 <= k < n ==> gs[k].key != key
  {
    if n == 0 then -1 else if gs[n - 1].key == key then n - 1 else Scan(gs, key, n - 1)
  }

  /** Where a walk of chain h has got to: nothing it passed has the key. */
  ghost predicate WalkedTo(hash: HashFn, gs: seq<Glyph>, key: Key, i: int) {
    && -1 <= i < |gs| && (i >= 0 ==> Bucket(hash, gs[i].key.codepoint) == Bucket(hash, key.codepoint))
    && forall k :: i < k < |gs| ==> gs[k].key != key
  }

  lemma {:induction false} WalkStarts(hash: HashFn, f: Font, key: Key)
    requires Chained(hash, f)
    ensures WalkedTo(hash, f.glyphs, key, f.lut[Bucket(hash, key.codepoint)])
  {
    assert HeadRight(hash, f, Bucket(hash, key.codepoint));
  }

  /** Following a link skips no glyph of the chain. */
  lemma {:induction false} WalkGoesOn(hash: HashFn, f: Font, key: Key, i: nat)
    requires Chained(hash, f) && WalkedTo(hash, f.glyphs, key, i) && f.glyphs[i].key != key
    ensures f.glyphs[i].next < i && WalkedTo(hash, f.glyphs, key, f.glyphs[i].next)
  {
    assert LinkRight(hash, f.glyphs, i);
  }

  lemma {:induction false} OnlyOne(gs: seq<Glyph>, key: Key, i: nat)
    requires forall i, j :: 0 <= i < j < |gs| ==> gs[i].key != gs[j].key
    requires i < |gs| && gs[i].key == key
    ensures Scan(gs, key, |gs|) == i
  {
    var r := Scan(gs, key, |gs|);
    assert r >= 0 && gs[r].key == key;
  }

  /** The chain walk of fons__getGlyph: it ends, and it finds what a scan of the
      whole array finds. */
  method Find(hash: HashFn, f: Font, key: Key) returns (r: int)
    requires Chained(hash, f)
    ensures r == Scan(f.glyphs, key, |f.glyphs|)
  {
    WalkStarts(hash, f, key);
    r := f.lut[Bucket(hash, key.codepoint)];
    while r != -1
      invariant WalkedTo(hash, f.glyphs, key, r)
      decreases r
    {
      if f.glyphs[r].key == key {
        OnlyOne(f.glyphs, key, r);
        return;
      }
      WalkGoesOn(hash, f, key, r);
      r := f.glyphs[r].next;
    }
  }

  lemma {:induction false} LastInPrefix(hash: HashFn, gs: seq<Glyph>, more: seq<Glyph>, n: nat, h: nat)
    requires n <= |gs|
    ensures LastIn(hash, gs + more, n, h) == LastIn(hash, gs, n, h)
    decreases n
  {
    if n > 0 { LastInPrefix(hash, gs, more, n - 1, h); }
  }

  /** Appending a glyph and making it the head of its chain. */
  function Inserted(hash: HashFn, f: Font, key: Key): Font {
    var h := Bucket(hash, key.codepoint);
    Font(f.lut[h := |f.glyphs|], f.glyphs + [Glyph(key, f.lut[h], -1, -1, -1, -1)])
  }

  lemma {:induction false} InsertKeepsChains(hash: HashFn, f: Font, key: Key)
    requires Chained(hash, f) && Scan(f.glyphs, key, |f.glyphs|) == -1
    ensures Chained(hash, Inserted(hash, f, key))
  {
    var g := Inserted(hash, f, key);
    var n := |f.glyphs|;
    var new_ := g.glyphs[n..];
    assert g.glyphs == f.glyphs + new_;
    forall h | 0 <= h < LUT_SIZE ensures HeadRight(hash, g, h) {
      assert HeadRight(hash, f, h);
      LastInPrefix(hash, f.glyphs, new_, n, h);
    }
    assert HeadRight(hash, f, Bucket(hash, key.codepoint));
    forall i | 0 <= i <= n ensures LinkRight(hash, g.glyphs, i) {
      if i < n { assert LinkRight(hash, f.glyphs, i); }
      LastInPrefix(hash, f.glyphs, new_, i, Bucket(hash, g.glyphs[i].key.codepoint));
    }
  }

  /** Moving a glyph's bitmap rectangle leaves the chains alone. */
  function WithBitmap(f: Font, i: nat, x0: int, y0: int, x1: int, y1: int): Font
    requires i < |f.glyphs|
  {
    f.(glyphs := f.glyphs[i := f.glyphs[i].(x0 := x0, y0 := y0, x1 := x1, y1 := y1)])
  }

  lemma {:induction false} LastInSameKeys(hash: HashFn, gs: seq<Glyph>, hs: seq<Glyph>, n: nat, h: nat)
    requires n <= |gs| == |hs| && forall i :: 0 <= i < |gs| ==> gs[i].key == hs[i].key
    ensures LastIn(hash, gs, n, h) == LastIn(hash, hs, n, h)
    decreases n
  {
    if n > 0 { LastInSameKeys(hash, gs, hs, n - 1, h); }
  }

  lemma {:induction false} BitmapKeepsChains(hash: HashFn, f: Font, i: nat, x0: int, y0: int, x1: int, y1: int)
    requires Chained(hash, f) && i < |f.glyphs|
    ensures Chained(hash, WithBitmap(f, i, x0, y0, x1, y1))
  {
    var g := WithBitmap(f, i, x0, y0, x1, y1);
    forall h | 0 <= h < LUT_SIZE ensures HeadRight(hash, g, h) {
      assert HeadRight(hash, f, h);
      LastInSameKeys(hash, f.glyphs, g.glyphs, |f.glyphs|, h);
    }
    forall j | 0 <= j < |g.glyphs| ensures LinkRight(hash, g.glyphs, j) {
      assert LinkRight(hash, f.glyphs, j);
      LastInSameKeys(hash, f.glyphs, g.glyphs, j, Bucket(hash, g.glyphs[j].key.codepoint));
    }
  }

  // ---- bitmaps in the atlas

  predicate HasBitmap(g: Glyph) { g.x0 >= 0 && g.y0 >= 0 }

  function Texels(g: Glyph): Rect { Rect(g.x0, g.y0, g.x1 - g.x0, g.y1 - g.y0) }

  predicate Cached(fonts: seq<Font>, f: int, i: int) {
    0 <= f < |fonts| && 0 <= i < |fonts[f].glyphs| && HasBitmap(fonts[f].glyphs[i])
  }

  /** Which glyph a rectangle of the atlas was handed out for. */
  datatype Owner = Nobody | Bitmap(font: int, glyph: int)

  predicate HousedAt(fonts: seq<Font>, rects: seq<Rect>, owners: seq<Owner>, f: int, i: int, k: int) {
    && 0 <= k < |owners| && k < |rects| && owners[k] == Bitmap(f, i)
    && Cached(fonts, f, i) && rects[k] == Texels(fonts[f].glyphs[i])
  }

  /** Every cached bitmap has a rectangle of its own. */
  ghost predicate Housed(fonts: seq<Font>, rects: seq<Rect>, owners: seq<Owner>) {
    && |owners| == |rects|
    && forall f, i :: Cached(fonts, f, i) ==> exists k :: HousedAt(fonts, rects, owners, f, i, k)
  }

  /** No two cached bitmaps share a texel, and all lie in the atlas. */
  lemma {:induction false} BitmapsApart(fonts: seq<Font>, rects: seq<Rect>, owners: seq<Owner>, cols: seq<int>, height: int, f: int, i: int, g: int, j: int)
    requires Housed(fonts, rects, owners) && Packed(rects, cols, height)
    requires Cached(fonts, f, i) && Cached(fonts, g, j) && (f, i) != (g, j)
    ensures Under(Texels(fonts[f].glyphs[i]), cols, height)
    ensures ShareNoTexel(Texels(fonts[f].glyphs[i]), Texels(fonts[g].glyphs[j]))
  {
    var k :| HousedAt(fonts, rects, owners, f, i, k);
    var l :| HousedAt(fonts, rects, owners, g, j, l);
    assert k != l;
    if k < l {
      assert ShareNoTexel(rects[k], rects[l]);
    } else {
      ShareNoTexelCommutes(rects[l], rects[k]);
    }
  }

  lemma {:induction false} ShareNoTexelCommutes(r: Rect, s: Rect)
    requires ShareNoTexel(r, s)
    ensures ShareNoTexel(s, r)
  {}

  /** Dropping bitmaps, or handing out rectangles for something else. */
  lemma {:induction false} HousedKept(fonts: seq<Font>, fonts': seq<Font>, rects: seq<Rect>, owners: seq<Owner>, more: seq<Rect>, moreOwners: seq<Owner>)
    requires Housed(fonts, rects, owners) && |more| == |moreOwners|
    requires forall f, i :: Cached(fonts', f, i) ==>
      Cached(fonts, f, i) && Texels(fonts'[f].glyphs[i]) == Texels(fonts[f].glyphs[i])
    ensures Housed(fonts', rects + more, owners + moreOwners)
  {
    forall f, i | Cached(fonts', f, i) ensures exists k :: HousedAt(fonts', rects + more, owners + moreOwners, f, i, k) {
      var k :| HousedAt(fonts, rects, owners, f, i, k);
      assert HousedAt(fonts', rects + more, owners + moreOwners, f, i, k);
    }
  }

  /** A bitmap for glyph i0 of font f0 on a rectangle handed out for it. */
  lemma {:induction false} HousedWithNew(fonts: seq<Font>, fonts': seq<Font>, rects: seq<Rect>, owners: seq<Owner>, f0: int, i0: int)
    requires Housed(fonts, rects, owners) && Cached(fonts', f0, i0)
    requires forall f, i :: Cached(fonts', f, i) && (f, i) != (f0, i0) ==>
      Cached(fonts, f, i) && Texels(fonts'[f].glyphs[i]) == Texels(fonts[f].glyphs[i])
    ensures Housed(fonts', rects + [Texels(fonts'[f0].glyphs[i0])], owners + [Bitmap(f0, i0)])
  {
    var rects', owners' := rects + [Texels(fonts'[f0].glyphs[i0])], owners + [Bitmap(f0, i0)];
    forall f, i | Cached(fonts', f, i) ensures exists k :: HousedAt(fonts', rects', owners', f, i, k) {
      if (f, i) == (f0, i0) {
        assert HousedAt(fonts', rects', owners', f, i, |rects|);
      } else {
        var k :| HousedAt(fonts, rects, owners, f, i, k);
        assert HousedAt(fonts', rects', owners', f, i, k);
      }
    }
  }

  // ---- looking a glyph up

  datatype Lookup = Missing | Found(index: nat)

  /** The font once glyph `found`, or a new one when found is -1, has its rectangle. */
  function Settled(hash: HashFn, f: Font, key: Key, found: int, x0: int, y0: int, x1: int, y1: int): Font
    requires -1 <= found < |f.glyphs|
  {
    if found == -1 then WithBitmap(Inserted(hash, f, key), |f.glyphs|, x0, y0, x1, y1)
    else WithBitmap(f, found, x0, y0, x1, y1)
  }

  lemma {:induction false} SettledKeepsChains(hash: HashFn, f: Font, key: Key, found: int, x0: int, y0: int, x1: int, y1: int)
    requires Chained(hash, f) && found == Scan(f.glyphs, key, |f.glyphs|)
    ensures Chained(hash, Settled(hash, f, key, found, x0, y0, x1, y1))
  {
    if found == -1 {
      InsertKeepsChains(hash, f, key);
      BitmapKeepsChains(hash, Inserted(hash, f, key), |f.glyphs|, x0, y0, x1, y1);
    } else {
      BitmapKeepsChains(hash, f, found, x0, y0, x1, y1);
    }
  }

  /** The glyph that a lookup settles. */
  function SettledIndex(f: Font, found: int): nat
    requires -1 <= found < |f.glyphs|
  {
    if found == -1 then |f.glyphs| else found
  }

  /** Settling one glyph touches no other cached bitmap. */
  lemma {:induction false} SettledKeepsOthers(hash: HashFn, fonts: seq<Font>, f0: nat, key: Key, found: int, x0: int, y0: int, x1: int, y1: int)
    requires f0 < |fonts| && -1 <= found < |fonts[f0].glyphs|
    ensures var fonts' := fonts[f0 := Settled(hash, fonts[f0], key, found, x0, y0, x1, y1)];
      forall f, i :: Cached(fonts', f, i) && (f, i) != (f0, SettledIndex(fonts[f0], found)) ==>
        Cached(fonts, f, i) && fonts'[f].glyphs[i] == fonts[f].glyphs[i]
  {}

  const MAX_BLUR: int := 20

  function ClampedBlur(blur: int): int { if blur > MAX_BLUR then MAX_BLUR else blur }

  /** The key that a lookup uses, and the size of its bitmap with padding. */
  function KeyFor(codepoint: nat, isize: int, iblur: int): Key { Key(codepoint, isize, ClampedBlur(iblur)) }

  function Padded(side: nat, iblur: int): int { side + 2 * (ClampedBlur(iblur) + 2) }

  /** The cached glyph is good enough for the request. */
  predicate Suffices(f: Font, found: int, required: bool) {
    0 <= found < |f.glyphs| && (!required || HasBitmap(f.glyphs[found]))
  }

  // ---- the stash as a value

  /** The fonts and the skyline of their atlas. */
  datatype Shelf = Shelf(sky: Sky, fonts: seq<Font>)

  ghost predicate AllChained(hash: HashFn, fonts: seq<Font>) {
    fonts == [] || (AllChained(hash, fonts[..|fonts| - 1]) && Chained(hash, fonts[|fonts| - 1]))
  }

  lemma {:induction false} AllChainedExact(hash: HashFn, fonts: seq<Font>)
    ensures AllChained(hash, fonts) <==> forall f :: 0 <= f < |fonts| ==> Chained(hash, fonts[f])
    decreases |fonts|
  {
    if fonts != [] { AllChainedExact(hash, fonts[..|fonts| - 1]); }
  }

  lemma {:induction false} ChainedAt(hash: HashFn, fonts: seq<Font>, f: nat)
    requires AllChained(hash, fonts) && f < |fonts|
    ensures Chained(hash, fonts[f])
  {
    AllChainedExact(hash, fonts);
  }

  lemma {:induction false} ChainedUpdate(hash: HashFn, fonts: seq<Font>, f: nat, font: Font)
    requires AllChained(hash, fonts) && f < |fonts| && Chained(hash, font)
    ensures AllChained(hash, fonts[f := font])
  {
    AllChainedExact(hash, fonts);
    AllChainedExact(hash, fonts[f := font]);
  }

  ghost predicate ShelfOk(hash: HashFn, v: Shelf) { SkyOk(v.sky) && AllChained(hash, v.fonts) }

  lemma {:induction false} SettledAllChained(hash: HashFn, fonts: seq<Font>, f: nat, key: Key, found: int, x0: int, y0: int, x1: int, y1: int)
    requires AllChained(hash, fonts) && f < |fonts| && found == Scan(fonts[f].glyphs, key, |fonts[f].glyphs|)
    ensures AllChained(hash, fonts[f := Settled(hash, fonts[f], key, found, x0, y0, x1, y1)])
  {
    ChainedAt(hash, fonts, f);
    SettledKeepsChains(hash, fonts[f], key, found, x0, y0, x1, y1);
    ChainedUpdate(hash, fonts, f, Settled(hash, fonts[f], key, found, x0, y0, x1, y1));
  }

  /** What the error callback does when the atlas is full. */
  datatype Handler = NoHandler | Expands(w: int, h: int)

  datatype Request =
    | NewFont
    | LookUp(font: nat, codepoint: nat, isize: int, iblur: int, required: bool, bw: nat, bh: nat, handler: Handler)
    | ExpandAtlas(w: int, h: int)
    | ResetFallback(base: nat)
    | ResetAtlas(w: int, h: int)

  /** Sizes in range of a short, and bitmaps with at least one texel. */
  predicate RequestOk(q: Request) {
    match q
    case NewFont => true
    case LookUp(_, _, _, iblur, required, bw, bh, handler) =>
      && (required ==> 1 <= Padded(bw, iblur) && 1 <= Padded(bh, iblur))
      && HandlerOk(handler)
    case ExpandAtlas(w, h) => w <= SHORT_MAX && h <= SHORT_MAX
    case ResetFallback(_) => true
    case ResetAtlas(w, h) => 1 <= w <= SHORT_MAX && 0 <= h <= SHORT_MAX
  }

  datatype Reply = Reply(shelf: Shelf, r: Lookup)

  /** A font with glyph `found`, or a new one, settled without a bitmap. */
  function Sketched(hash: HashFn, f: Font, key: Key, found: int, gw: int, gh: int): Font
    requires -1 <= found < |f.glyphs|
  {
    Settled(hash, f, key, found, -1, -1, ToShort(-1 + gw), ToShort(-1 + gh))
  }

  /** The skyline after an attempt to place a bitmap, and where it was placed. */
  datatype Trial = Trial(sky: Sky, p: Placement)

  predicate HandlerOk(handler: Handler) { handler.Expands? ==> handler.w <= SHORT_MAX && handler.h <= SHORT_MAX }

  /** The skyline on which a bitmap is placed: after the callback, if need be. */
  ghost function Retried(s: Sky, gw: nat, gh: nat, handler: Handler): (r: Sky)
    requires SkyOk(s) && 1 <= gw && 1 <= gh && HandlerOk(handler)
    ensures SkyOk(r)
  {
    if Refuses(s, gw, gh) && handler.Expands? then Grown(s, handler.w, handler.h) else s
  }

  ghost function Tried(s: Sky, gw: nat, gh: nat, handler: Handler): (t: Trial)
    requires SkyOk(s) && 1 <= gw && 1 <= gh && HandlerOk(handler)
    ensures SkyOk(t.sky)
  {
    var r := Retried(s, gw, gh, handler);
    Trial(SkyNext(r, Add(gw, gh)), PlacementFor(r, gw, gh))
  }

  /** A bitmap for glyph `found` or a new one, where the trial placed it. */
  function Drawn(hash: HashFn, fonts: seq<Font>, f: nat, key: Key, found: int, gw: nat, gh: nat, t: Trial): Reply
    requires f < |fonts| && -1 <= found < |fonts[f].glyphs|
  {
    if t.p.Full? then Reply(Shelf(t.sky, fonts), Missing)
    else Reply(Shelf(t.sky, fonts[f := Settled(hash, fonts[f], key, found, t.p.x, t.p.y, t.p.x + gw, t.p.y + gh)]),
               Found(SettledIndex(fonts[f], found)))
  }

  /** The glyph in the cache is not good enough, and a bitmap is wanted. */
  predicate NeedsBitmap(v: Shelf, q: Request)
    requires q.LookUp?
  {
    && q.font < |v.fonts| && q.isize >= 2 && q.required
    && var f, key := v.fonts[q.font], KeyFor(q.codepoint, q.isize, q.iblur);
       !Suffices(f, Scan(f.glyphs, key, |f.glyphs|), true)
  }

  /** The trial of a request; one that needs no bitmap leaves the skyline alone. */
  ghost function TrialFor(v: Shelf, q: Request): (t: Trial)
    requires SkyOk(v.sky) && q.LookUp? && RequestOk(q)
    ensures SkyOk(t.sky)
  {
    if NeedsBitmap(v, q) then Tried(v.sky, Padded(q.bw, q.iblur), Padded(q.bh, q.iblur), q.handler) else Trial(v.sky, Full)
  }

  /** What fons__getGlyph does to the stash, and what it returns. */
  function Looked(hash: HashFn, v: Shelf, q: Request, t: Trial): Reply
    requires q.LookUp? && RequestOk(q)
  {
    if q.font >= |v.fonts| || q.isize < 2 then Reply(v, Missing)
    else
      var f, key := v.fonts[q.font], KeyFor(q.codepoint, q.isize, q.iblur);
      var found := Scan(f.glyphs, key, |f.glyphs|);
      var gw, gh := Padded(q.bw, q.iblur), Padded(q.bh, q.iblur);
      if Suffices(f, found, q.required) then Reply(v, Found(found))
      else if !q.required then
        Reply(v.(fonts := v.fonts[q.font := Sketched(hash, f, key, found, gw, gh)]), Found(SettledIndex(f, found)))
      else Drawn(hash, v.fonts, q.font, key, found, gw, gh, t)
  }

  /** An atlas with the white rectangle, if that fits. */
  ghost function Started(w: int, h: int): (s: Sky)
    requires 1 <= w <= SHORT_MAX && 0 <= h <= SHORT_MAX
    ensures SkyOk(s)
  {
    SkyNext(Flat(w, h), Add(2, 2))
  }

  ghost function Served(hash: HashFn, v: Shelf, q: Request): Reply
    requires ShelfOk(hash, v) && RequestOk(q)
  {
    match q
    case NewFont => Reply(v.(fonts := v.fonts + [EmptyFont]), Missing)
    case LookUp(_, _, _, _, _, _, _, _) => Looked(hash, v, q, TrialFor(v, q))
    case ExpandAtlas(w, h) => Reply(v.(sky := Grown(v.sky, w, h)), Missing)
    case ResetFallback(base) => Reply(if base < |v.fonts| then v.(fonts := v.fonts[base := EmptyFont]) else v, Missing)
    case ResetAtlas(w, h) => Reply(Shelf(Started(w, h), seq(|v.fonts|, _ => EmptyFont)), Missing)
  }

  lemma {:induction false} EmptyChains(hash: HashFn)
    ensures Chained(hash, EmptyFont)
  {
    assert forall h :: 0 <= h < LUT_SIZE ==> HeadRight(hash, EmptyFont, h);
  }

  lemma {:induction false} DrawnOk(hash: HashFn, fonts: seq<Font>, f: nat, key: Key, found: int, gw: nat, gh: nat, t: Trial)
    requires AllChained(hash, fonts) && f < |fonts| && found == Scan(fonts[f].glyphs, key, |fonts[f].glyphs|)
    ensures AllChained(hash, Drawn(hash, fonts, f, key, found, gw, gh, t).shelf.fonts)
  {
    if t.p.At? { SettledAllChained(hash, fonts, f, key, found, t.p.x, t.p.y, t.p.x + gw, t.p.y + gh); }
  }

  lemma {:induction false} LookedOk(hash: HashFn, v: Shelf, q: Request, t: Trial)
    requires AllChained(hash, v.fonts) && q.LookUp? && RequestOk(q)
    ensures AllChained(hash, Looked(hash, v, q, t).shelf.fonts)
    ensures Looked(hash, v, q, t).shelf.sky == v.sky || Looked(hash, v, q, t).shelf.sky == t.sky
  {
    if q.font < |v.fonts| && q.isize >= 2 {
      var f, key := v.fonts[q.font], KeyFor(q.codepoint, q.isize, q.iblur);
      var found := Scan(f.glyphs, key, |f.glyphs|);
      var gw, gh := Padded(q.bw, q.iblur), Padded(q.bh, q.iblur);
      if q.required {
        DrawnOk(hash, v.fonts, q.font, key, found, gw, gh, t);
      } else {
        SettledAllChained(hash, v.fonts, q.font, key, found, -1, -1, ToShort(-1 + gw), ToShort(-1 + gh));
      }
    }
  }

  /** Every request keeps the chains: complete, strictly decreasing, no key twice. */
  lemma {:induction false} ServedOk(hash: HashFn, v: Shelf, q: Request)
    requires ShelfOk(hash, v) && RequestOk(q)
    ensures ShelfOk(hash, Served(hash, v, q).shelf)
  {
    match q
    case NewFont => EmptyAdded(hash, v.fonts);
    case LookUp(_, _, _, _, _, _, _, _) => LookedOk(hash, v, q, TrialFor(v, q));
    case ExpandAtlas(_, _) =>
    case ResetFallback(base) =>
      EmptyChains(hash);
      if base < |v.fonts| { ChainedUpdate(hash, v.fonts, base, EmptyFont); }
    case ResetAtlas(_, _) => AllEmpty(hash, |v.fonts|);
  }

  lemma {:induction false} EmptyAdded(hash: HashFn, fonts: seq<Font>)
    requires AllChained(hash, fonts)
    ensures AllChained(hash, fonts + [EmptyFont])
  {
    EmptyChains(hash);
    assert (fonts + [EmptyFont])[..|fonts|] == fonts;
  }

  lemma {:induction false} AllEmpty(hash: HashFn, n: nat)
    ensures AllChained(hash, seq(n, _ => EmptyFont))
  {
    EmptyChains(hash);
    AllChainedExact(hash, seq(n, _ => EmptyFont));
  }

  predicate AllRequestsOk(qs: seq<Request>) { forall i :: 0 <= i < |qs| ==> RequestOk(qs[i]) }

  /** The stash after a run of requests. */
  ghost function ShelfAfter(hash: HashFn, v: Shelf, qs: seq<Request>): (r: Shelf)
    requires ShelfOk(hash, v) && AllRequestsOk(qs)
    ensures ShelfOk(hash, r)
    decreases |qs|
  {
    if qs == [] then v else
      var before := ShelfAfter(hash, v, qs[..|qs| - 1]);
      ServedOk(hash, before, qs[|qs| - 1]);
      Served(hash, before, qs[|qs| - 1]).shelf
  }

  /** What the requests of a run are answered. */
  ghost function Replies(hash: HashFn, v: Shelf, qs: seq<Request>): (r: seq<Lookup>)
    requires ShelfOk(hash, v) && AllRequestsOk(qs)
    ensures |r| == |qs|
    decreases |qs|
  {
    if qs == [] then [] else
      Replies(hash, v, qs[..|qs| - 1]) + [Served(hash, ShelfAfter(hash, v, qs[..|qs| - 1]), qs[|qs| - 1]).r]
  }

  lemma {:induction false} ShelfMore(hash: HashFn, v: Shelf, qs: seq<Request>, q: Request)
    requires ShelfOk(hash, v) && AllRequestsOk(qs) && RequestOk(q)
    ensures AllRequestsOk(qs + [q])
    ensures var s := Served(hash, ShelfAfter(hash, v, qs), q);
      ShelfAfter(hash, v, qs + [q]) == s.shelf && Replies(hash, v, qs + [q]) == Replies(hash, v, qs) + [s.r]
  {
    assert (qs + [q])[..|qs|] == qs;
  }

  /** What a run has told so far. */
  ghost predicate ShelfTold(hash: HashFn, v0: Shelf, qs: seq<Request>, v: Shelf, answers: seq<Lookup>) {
    ShelfOk(hash, v0) && AllRequestsOk(qs) && v == ShelfAfter(hash, v0, qs) && answers == Replies(hash, v0, qs)
  }

  lemma {:induction false} ShelfToldMore(hash: HashFn, v0: Shelf, qs: seq<Request>, v: Shelf, answers: seq<Lookup>, q: Request, v': Shelf, r: Lookup)
    requires ShelfTold(hash, v0, qs, v, answers) && RequestOk(q) && ShelfOk(hash, v) && Reply(v', r) == Served(hash, v, q)
    ensures ShelfTold(hash, v0, qs + [q], v', answers + [r])
  {
    ShelfMore(hash, v0, qs, q);
  }
}
