/** The font stash of fontstash.h: its glyph caches on a shared atlas, in place. */
module GlyphStash {
  import opened Skyline
  import opened Packing
  import opened Atlas
  import opened GlyphCache
  import opened GlyphAnswers

  class Stash {
    const hash: HashFn
    const atlas: FontAtlas
    var fonts: seq<Font>
    ghost var owners: seq<Owner>     // of the rectangles of the atlas

    ghost function Value(): Shelf
      reads this, atlas, atlas.nodes
      requires atlas.nnodes <= atlas.nodes.Length
    {
      Shelf(atlas.Value(), fonts)
    }

    ghost function Now(): Moment
      reads this, atlas, atlas.nodes
      requires atlas.nnodes <= atlas.nodes.Length
    {
      Moment(Value(), atlas.rects, owners)
    }

    ghost predicate Valid()
      reads this, atlas, atlas.nodes
    {
      && atlas.Valid() && atlas.nodes.Length >= 1
      && ShelfOk(hash, Value()) && Housed(fonts, atlas.rects, owners)
    }

    constructor (hash: HashFn, atlas: FontAtlas)
      requires atlas.Valid() && atlas.nodes.Length >= 1
      ensures Valid() && this.atlas == atlas && this.hash == hash && fonts == []
      ensures |owners| == |atlas.rects| && forall k :: 0 <= k < |owners| ==> owners[k] == Nobody
    {
      this.hash := hash;
      this.atlas := atlas;
      fonts := [];
      owners := seq(|atlas.rects|, _ => Nobody);
    }

    /** What Valid() promises a reader of the cache. */
    lemma {:induction false} NoTexelTwice(f: int, i: int, g: int, j: int)
      requires Valid() && Cached(fonts, f, i) && Cached(fonts, g, j) && (f, i) != (g, j)
      ensures ShareNoTexel(Texels(fonts[f].glyphs[i]), Texels(fonts[g].glyphs[j]))
      ensures Under(Texels(fonts[f].glyphs[i]), atlas.Heights(), atlas.height)
      ensures f == g ==> fonts[f].glyphs[i].key != fonts[g].glyphs[j].key
    {
      BitmapsApart(fonts, atlas.rects, owners, atlas.Heights(), atlas.height, f, i, g, j);
      if f == g {
        ChainedAt(hash, fonts, f);
        DistinctKeys(hash, fonts[f], i, j);
      }
    }

    lemma AllApart()
      requires Valid()
      ensures Apart(fonts)
    {
      forall f, i, g, j | Cached(fonts, f, i) && Cached(fonts, g, j) && (f, i) != (g, j)
        ensures ShareNoTexel(Texels(fonts[f].glyphs[i]), Texels(fonts[g].glyphs[j]))
      {
        NoTexelTwice(f, i, g, j);
      }
    }

    lemma SoundNow()
      requires Valid()
      ensures Sound(hash, Now())
    {
      AllApart();
    }

    static lemma {:induction false} DistinctKeys(hash: HashFn, f: Font, i: int, j: int)
      requires Chained(hash, f) && 0 <= i < |f.glyphs| && 0 <= j < |f.glyphs| && i != j
      ensures f.glyphs[i].key != f.glyphs[j].key
    {}

    /** fonsAddFontMem, as far as the cache goes: a font with empty chains. */
    method AddFont()
      requires Valid()
      modifies this`fonts
      ensures Valid() && Value() == Served(hash, old(Value()), NewFont).shelf
      ensures Honoured(old(Now()), NewFont, Missing, Now())
    {
      ServedOk(hash, Value(), NewFont);
      HousedWithout(fonts, fonts + [EmptyFont], atlas.rects, owners);
      fonts := fonts + [EmptyFont];
    }

    static lemma {:induction false} HousedWithout(fonts: seq<Font>, fonts': seq<Font>, rects: seq<Rect>, owners: seq<Owner>)
      requires Housed(fonts, rects, owners)
      requires forall f, i :: Cached(fonts', f, i) ==>
        Cached(fonts, f, i) && Texels(fonts'[f].glyphs[i]) == Texels(fonts[f].glyphs[i])
      ensures Housed(fonts', rects, owners)
    {
      HousedKept(fonts, fonts', rects, owners, [], []);
      assert rects + [] == rects && owners + [] == owners;
    }

    /** Settling a glyph without bitmap keeps every bitmap housed. */
    static lemma {:induction false} SketchKeepsHoused(hash: HashFn, fonts: seq<Font>, f: nat, key: Key, found: int, gw: int, gh: int, rects: seq<Rect>, owners: seq<Owner>)
      requires f < |fonts| && -1 <= found < |fonts[f].glyphs| && Housed(fonts, rects, owners)
      ensures Housed(fonts[f := Sketched(hash, fonts[f], key, found, gw, gh)], rects, owners)
    {
      SettledKeepsOthers(hash, fonts, f, key, found, -1, -1, ToShort(-1 + gw), ToShort(-1 + gh));
      HousedWithout(fonts, fonts[f := Sketched(hash, fonts[f], key, found, gw, gh)], rects, owners);
    }

    /** A bitmap on the rectangle just handed out for it. */
    static lemma {:induction false} BitmapKeepsHoused(hash: HashFn, fonts: seq<Font>, f: nat, key: Key, found: int, r: Rect, rects: seq<Rect>, owners: seq<Owner>)
      requires f < |fonts| && -1 <= found < |fonts[f].glyphs| && Housed(fonts, rects, owners)
      requires 0 <= r.x && 0 <= r.y
      ensures Housed(fonts[f := Settled(hash, fonts[f], key, found, r.x, r.y, r.x + r.w, r.y + r.h)],
                     rects + [r], owners + [Bitmap(f, SettledIndex(fonts[f], found))])
    {
      var after := fonts[f := Settled(hash, fonts[f], key, found, r.x, r.y, r.x + r.w, r.y + r.h)];
      var i := SettledIndex(fonts[f], found);
      SettledKeepsOthers(hash, fonts, f, key, found, r.x, r.y, r.x + r.w, r.y + r.h);
      assert Texels(after[f].glyphs[i]) == r;
      HousedWithNew(fonts, after, rects, owners, f, i);
    }

    static lemma NothingCached(fonts: seq<Font>, rects: seq<Rect>, owners: seq<Owner>)
      requires |owners| == |rects| && forall f :: 0 <= f < |fonts| ==> fonts[f] == EmptyFont
      ensures Housed(fonts, rects, owners)
    {}

    /** fonsExpandAtlas: the cache and its rectangles stay. */
    method ExpandTo(w: int, h: int)
      requires Valid() && w <= SHORT_MAX && h <= SHORT_MAX
      modifies atlas`width, atlas`height, atlas`nodes, atlas`nnodes, atlas.nodes
      ensures Valid() && (atlas.nodes == old(atlas.nodes) || fresh(atlas.nodes)) && atlas.rects == old(atlas.rects)
      ensures Value() == Served(hash, old(Value()), ExpandAtlas(w, h)).shelf && atlas.Value() == Grown(old(atlas.Value()), w, h)
      ensures Honoured(old(Now()), ExpandAtlas(w, h), Missing, Now())
    {
      atlas.Expand(w, h);
    }

    /** fonsResetFallbackFont, as far as the cache goes: one font loses its glyphs. */
    method ResetFallbackFont(base: nat)
      requires Valid()
      modifies this`fonts
      ensures Valid() && Value() == Served(hash, old(Value()), ResetFallback(base)).shelf
      ensures Honoured(old(Now()), ResetFallback(base), Missing, Now())
    {
      ServedOk(hash, Value(), ResetFallback(base));
      if base < |fonts| {
        HousedWithout(fonts, fonts[base := EmptyFont], atlas.rects, owners);
        fonts := fonts[base := EmptyFont];
      }
    }

    /** fonsResetAtlas: all fonts lose their glyphs, and the atlas starts over with the
        white rectangle, if that fits. */
    method ResetTo(w: int, h: int)
      requires Valid() && 1 <= w <= SHORT_MAX && 0 <= h <= SHORT_MAX
      modifies this`fonts, this`owners, atlas, atlas.nodes
      ensures Valid() && (atlas.nodes == old(atlas.nodes) || fresh(atlas.nodes))
      ensures Value() == Served(hash, old(Value()), ResetAtlas(w, h)).shelf
      ensures Honoured(old(Now()), ResetAtlas(w, h), Missing, Now())
    {
      AllEmpty(hash, |fonts|);
      StartOver(atlas, w, h);
      EmptyFonts();
      owners := seq(|atlas.rects|, _ => Nobody);
      NothingCached(fonts, atlas.rects, owners);
    }

    /** The loop over the fonts. */
    method EmptyFonts()
      modifies this`fonts
      ensures fonts == seq(|old(fonts)|, _ => EmptyFont)
    {
      for i := 0 to |fonts|
        invariant |fonts| == |old(fonts)|
        invariant forall f :: 0 <= f < i ==> fonts[f] == EmptyFont
      {
        fonts := fonts[i := EmptyFont];
      }
    }

    /** Writing the rectangle of a glyph without bitmap. */
    method Sketch(f: nat, key: Key, found: int, gw: int, gh: int)
      requires Valid() && f < |fonts| && found == Scan(fonts[f].glyphs, key, |fonts[f].glyphs|)
      modifies this`fonts
      ensures Valid() && fonts == old(fonts)[f := Sketched(hash, old(fonts)[f], key, found, gw, gh)]
    {
      SettledAllChained(hash, fonts, f, key, found, -1, -1, ToShort(-1 + gw), ToShort(-1 + gh));
      SketchKeepsHoused(hash, fonts, f, key, found, gw, gh, atlas.rects, owners);
      fonts := fonts[f := Settled(hash, fonts[f], key, found, -1, -1, ToShort(-1 + gw), ToShort(-1 + gh))];
    }

    /** Writing the rectangle that the atlas hands out for a glyph. */
    method Settle(f: nat, key: Key, found: int, gx: int, gy: int, gw: nat, gh: nat, ghost before: seq<Rect>)
      requires atlas.Valid() && atlas.nodes.Length >= 1 && AllChained(hash, fonts) && Housed(fonts, before, owners)
      requires atlas.rects == before + [Rect(gx, gy, gw, gh)]
      requires f < |fonts| && found == Scan(fonts[f].glyphs, key, |fonts[f].glyphs|)
      modifies this`fonts, this`owners
      ensures Valid() && fonts == old(fonts)[f := Settled(hash, old(fonts)[f], key, found, gx, gy, gx + gw, gy + gh)]
      ensures owners == old(owners) + [Bitmap(f, SettledIndex(old(fonts)[f], found))]
    {
      LastRectInside();
      ShortSame(gx);
      ShortSame(gy);
      ShortSame(gx + gw);
      ShortSame(gy + gh);
      var x0, y0 := ToShort(gx), ToShort(gy);
      var x1, y1 := ToShort(x0 + gw), ToShort(y0 + gh);
      SettledAllChained(hash, fonts, f, key, found, x0, y0, x1, y1);
      BitmapKeepsHoused(hash, fonts, f, key, found, Rect(gx, gy, gw, gh), before, owners);
      owners := owners + [Bitmap(f, SettledIndex(fonts[f], found))];
      fonts := fonts[f := Settled(hash, fonts[f], key, found, x0, y0, x1, y1)];
    }

    /** A rectangle handed out by the atlas stays in the range of a short. */
    lemma {:induction false} LastRectInside()
      requires atlas.Valid() && |atlas.rects| > 0
      ensures var r := atlas.rects[|atlas.rects| - 1];
        0 <= r.x && 0 <= r.y && r.x + r.w <= SHORT_MAX && r.y + r.h <= SHORT_MAX
    {
      assert Under(atlas.rects[|atlas.rects| - 1], atlas.Heights(), atlas.height);
    }

    /** fons__atlasAddRect, and once more after the error callback when the atlas is full. */
    method AddRectTwice(gw: nat, gh: nat, handler: Handler) returns (p: Placement)
      requires atlas.Valid() && atlas.nodes.Length >= 1 && 1 <= gw && 1 <= gh && HandlerOk(handler)
      modifies atlas, atlas.nodes
      ensures atlas.Valid() && atlas.nodes.Length >= 1 && (atlas.nodes == old(atlas.nodes) || fresh(atlas.nodes))
      ensures Trial(atlas.Value(), p) == Tried(old(atlas.Value()), gw, gh, handler)
      ensures atlas.rects == old(atlas.rects) + if p.At? then [Rect(p.x, p.y, gw, gh)] else []
    {
      p := atlas.AddRect(gw, gh);
      if p.Full? && handler.Expands? {
        atlas.Expand(handler.w, handler.h);
        p := atlas.AddRect(gw, gh);
      }
    }

    /** The atlas has answered: the glyph is settled where the bitmap was placed. */
    method Place(f: nat, key: Key, found: int, gw: nat, gh: nat, p: Placement, ghost before: seq<Rect>) returns (r: Lookup)
      requires atlas.Valid() && atlas.nodes.Length >= 1 && AllChained(hash, fonts) && Housed(fonts, before, owners)
      requires atlas.rects == before + if p.At? then [Rect(p.x, p.y, gw, gh)] else []
      requires f < |fonts| && found == Scan(fonts[f].glyphs, key, |fonts[f].glyphs|)
      modifies this`fonts, this`owners
      ensures Valid() && Reply(Value(), r) == Drawn(hash, old(fonts), f, key, found, gw, gh, Trial(atlas.Value(), p))
      ensures owners == old(owners) + if p.At? then [Bitmap(f, SettledIndex(old(fonts)[f], found))] else []
      ensures p.At? <==> r.Found?
      ensures p.At? ==> |fonts| > f && r.index < |fonts[f].glyphs| && Texels(fonts[f].glyphs[r.index]) == Rect(p.x, p.y, gw, gh)
    {
      if p.Full? {
        assert atlas.rects == before;
        return Missing;
      }
      r := Found(SettledIndex(fonts[f], found));
      Settle(f, key, found, p.x, p.y, gw, gh, before);
    }

    /** Making a bitmap for a glyph that has none. */
    method Draw(f: nat, key: Key, found: int, gw: nat, gh: nat, handler: Handler) returns (r: Lookup)
      requires Valid() && f < |fonts| && found == Scan(fonts[f].glyphs, key, |fonts[f].glyphs|) && 1 <= gw && 1 <= gh && HandlerOk(handler)
      modifies this`fonts, this`owners, atlas, atlas.nodes
      ensures Valid() && (atlas.nodes == old(atlas.nodes) || fresh(atlas.nodes))
      ensures Reply(Value(), r) == Drawn(hash, old(fonts), f, key, found, gw, gh, Tried(old(atlas.Value()), gw, gh, handler))
      ensures if r.Found? then f < |fonts| && r.index < |fonts[f].glyphs| &&
                atlas.rects == old(atlas.rects) + [Texels(fonts[f].glyphs[r.index])] && owners == old(owners) + [Bitmap(f, r.index)]
              else atlas.rects == old(atlas.rects) && owners == old(owners)
    {
      ghost var rects := atlas.rects;
      var p := AddRectTwice(gw, gh, handler);
      r := Place(f, key, found, gw, gh, p, rects);
    }

    /** fons__getGlyph; bw by bh is the glyph's own bitmap.  A cached glyph that suffices is
        returned and nothing changes; otherwise one glyph is settled, on a rectangle of its
        own when a bitmap is required. */
    method GetGlyph(q: Request) returns (r: Lookup)
      requires Valid() && q.LookUp? && RequestOk(q)
      modifies this`fonts, this`owners, atlas, atlas.nodes
      ensures Valid() && (atlas.nodes == old(atlas.nodes) || fresh(atlas.nodes))
      ensures Reply(Value(), r) == Served(hash, old(Value()), q)
      ensures Honoured(old(Now()), q, r, Now())
    {
      ghost var before := Now();
      r := Look(q);
      LookUpIsHonoured(hash, before, q, r, Now());
    }

    method Look(q: Request) returns (r: Lookup)
      requires Valid() && q.LookUp? && RequestOk(q)
      modifies this`fonts, this`owners, atlas, atlas.nodes
      ensures Valid() && (atlas.nodes == old(atlas.nodes) || fresh(atlas.nodes))
      ensures FollowsFrom(hash, old(Now()), q, r, Now())
    {
      if q.font >= |fonts| || q.isize < 2 { return Missing; }
      var key := KeyFor(q.codepoint, q.isize, q.iblur);
      ChainedAt(hash, fonts, q.font);
      var found := Find(hash, fonts[q.font], key);
      if Suffices(fonts[q.font], found, q.required) { return Found(found); }
      var gw, gh := Padded(q.bw, q.iblur), Padded(q.bh, q.iblur);
      if q.required {
        r := Draw(q.font, key, found, gw, gh, q.handler);
      } else {
        r := Found(SettledIndex(fonts[q.font], found));
        Sketch(q.font, key, found, gw, gh);
      }
    }

    /** Any request. */
    method Serve(q: Request) returns (r: Lookup)
      requires Valid() && RequestOk(q)
      modifies this`fonts, this`owners, atlas, atlas.nodes
      ensures Valid() && (atlas.nodes == old(atlas.nodes) || fresh(atlas.nodes))
      ensures Reply(Value(), r) == Served(hash, old(Value()), q)
      ensures Honoured(old(Now()), q, r, Now())
    {
      r := Missing;
      match q
      case NewFont => AddFont();
      case LookUp(_, _, _, _, _, _, _, _) => r := GetGlyph(q);
      case ExpandAtlas(w, h) => ExpandTo(w, h);
      case ResetFallback(base) => ResetFallbackFont(base);
      case ResetAtlas(w, h) => ResetTo(w, h);
    }
  }

  /** An empty atlas with the white rectangle, if that fits. */
  method StartOver(atlas: FontAtlas, w: int, h: int)
    requires 1 <= w <= SHORT_MAX && 0 <= h <= SHORT_MAX && atlas.nodes.Length >= 1
    modifies atlas, atlas.nodes
    ensures atlas.Valid() && atlas.nodes.Length >= 1 && (atlas.nodes == old(atlas.nodes) || fresh(atlas.nodes))
    ensures atlas.Value() == Started(w, h)
    ensures |atlas.rects| <= 1 && forall k :: 0 <= k < |atlas.rects| ==> atlas.rects[k].w == 2 && atlas.rects[k].h == 2
  {
    atlas.Reset(w, h);
    var white := atlas.AddRect(2, 2);
  }

  /** At this moment every bitmap has a rectangle of its own in the atlas, no two of them
      share a texel, and the chains are right. */
  ghost predicate Sound(hash: HashFn, m: Moment) {
    && ShelfOk(hash, m.shelf) && Housed(m.shelf.fonts, m.rects, m.owners)
    && Packed(m.rects, Columns(m.shelf.sky.nodes), m.shelf.sky.height) && Apart(m.shelf.fonts)
  }

  ghost predicate Apart(fonts: seq<Font>) {
    forall f, i, g, j :: Cached(fonts, f, i) && Cached(fonts, g, j) && (f, i) != (g, j) ==>
      ShareNoTexel(Texels(fonts[f].glyphs[i]), Texels(fonts[g].glyphs[j]))
  }

  /** The moments of a run: each request is honoured. */
  ghost predicate Run(hash: HashFn, moments: seq<Moment>, qs: seq<Request>, answers: seq<Lookup>) {
    && |moments| == |qs| + 1 && |answers| == |qs|
    && (forall k :: 0 <= k < |moments| ==> Sound(hash, moments[k]))
    && (forall k :: 0 <= k < |qs| ==> Honoured(moments[k], qs[k], answers[k], moments[k + 1]))
  }

  lemma RunMore(hash: HashFn, moments: seq<Moment>, qs: seq<Request>, answers: seq<Lookup>, q: Request, r: Lookup, m: Moment)
    requires Run(hash, moments, qs, answers) && Honoured(moments[|qs|], q, r, m) && Sound(hash, m)
    ensures Run(hash, moments + [m], qs + [q], answers + [r])
  {
    var ms, rs, ps := moments + [m], answers + [r], qs + [q];
    forall k | 0 <= k < |ps| ensures Honoured(ms[k], ps[k], rs[k], ms[k + 1]) {
      assert ms[k] == moments[k];
    }
  }

  /** The requests so far have been served, and this is the moment they have led to. */
  ghost predicate ServedSoFar(hash: HashFn, start: Moment, qs: seq<Request>, answers: seq<Lookup>, moments: seq<Moment>, now: Moment) {
    ShelfTold(hash, start.shelf, qs, now.shelf, answers) && Run(hash, moments, qs, answers) && moments[0] == start && moments[|qs|] == now
  }

  lemma ServedMore(hash: HashFn, start: Moment, qs: seq<Request>, answers: seq<Lookup>, moments: seq<Moment>, a: Moment, q: Request, b: Moment, r: Lookup)
    requires ServedSoFar(hash, start, qs, answers, moments, a)
    requires RequestOk(q) && ShelfOk(hash, a.shelf) && Reply(b.shelf, r) == Served(hash, a.shelf, q) && Honoured(a, q, r, b) && Sound(hash, b)
    ensures ServedSoFar(hash, start, qs + [q], answers + [r], moments + [b], b)
  {
    ShelfToldMore(hash, start.shelf, qs, a.shelf, answers, q, b.shelf, r);
    RunMore(hash, moments, qs, answers, q, r, b);
  }

  /** A run of requests to a stash. */
  method ServeAll(stash: Stash, qs: seq<Request>) returns (answers: seq<Lookup>, ghost moments: seq<Moment>)
    requires stash.Valid() && AllRequestsOk(qs)
    modifies stash, stash.atlas, stash.atlas.nodes
    ensures stash.Valid() && old(ShelfOk(stash.hash, stash.Value()))
    ensures answers == Replies(stash.hash, old(stash.Value()), qs) && stash.Value() == ShelfAfter(stash.hash, old(stash.Value()), qs)
    ensures Run(stash.hash, moments, qs, answers) && moments[0] == old(stash.Now()) && moments[|qs|] == stash.Now()
  {
    ghost var start := stash.Now();
    answers, moments := [], [start];
    stash.SoundNow();
    for k := 0 to |qs|
      invariant stash.Valid() && (stash.atlas.nodes == old(stash.atlas.nodes) || fresh(stash.atlas.nodes))
      invariant ServedSoFar(stash.hash, start, qs[..k], answers, moments, stash.Now())
    {
      ghost var before := stash.Now();
      var r := stash.Serve(qs[k]);
      assert qs[..k + 1] == qs[..k] + [qs[k]];
      stash.SoundNow();
      ServedMore(stash.hash, start, qs[..k], answers, moments, before, qs[k], stash.Now(), r);
      answers, moments := answers + [r], moments + [stash.Now()];
    }
    assert qs[..|qs|] == qs;
  }

  /** Over every run of requests: each is answered as the caches and the skyline of that
      moment say, and as the request demands; at every moment no font caches a key twice, and
      no two cached bitmaps share a texel. */
  method Session(hash: HashFn, w: int, h: int, capacity: nat, qs: seq<Request>)
    returns (answers: seq<Lookup>, fonts: seq<Font>, ghost moments: seq<Moment>)
    requires 1 <= w <= SHORT_MAX && 0 <= h <= SHORT_MAX && 1 <= capacity && AllRequestsOk(qs)
    ensures ShelfOk(hash, Shelf(Started(w, h), []))
    ensures answers == Replies(hash, Shelf(Started(w, h), []), qs) && fonts == ShelfAfter(hash, Shelf(Started(w, h), []), qs).fonts
    ensures Run(hash, moments, qs, answers)
    ensures moments[0].shelf == Shelf(Started(w, h), []) && White(moments[0].rects, moments[0].owners) && moments[|qs|].shelf.fonts == fonts
    ensures AllChained(hash, fonts) && Apart(fonts)
  {
    var atlas := new FontAtlas(w, h, capacity);
    StartOver(atlas, w, h);
    var stash := new Stash(hash, atlas);
    answers, moments := ServeAll(stash, qs);
    fonts := stash.fonts;
    stash.AllApart();
  }
}
