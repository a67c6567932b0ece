/** Adam7 interlacing (section 8.2 of the PNG Specification, Second Edition) as
    stbi__create_png_image undoes it. */
module Adam7 {
  import opened PngFilter
  import opened PngDecode

  const XORIG: seq<nat> := [0, 4, 0, 2, 0, 1, 0]
  const YORIG: seq<nat> := [0, 0, 4, 0, 2, 0, 1]
  const XSPC: seq<nat> := [8, 8, 4, 4, 2, 2, 1]
  const YSPC: seq<nat> := [8, 8, 8, 4, 4, 2, 2]

  function SpcX(p: nat): (r: nat)
    requires p < 7
    ensures r == XSPC[p] && (r == 1 || r == 2 || r == 4 || r == 8) && XORIG[p] < r
  {
    assert XSPC[0] == 8 && XSPC[1] == 8 && XSPC[2] == 4 && XSPC[3] == 4 && XSPC[4] == 2 && XSPC[5] == 2 && XSPC[6] == 1;
    XSPC[p]
  }

  function SpcY(p: nat): (r: nat)
    requires p < 7
    ensures r == YSPC[p] && (r == 1 || r == 2 || r == 4 || r == 8) && YORIG[p] < r
  {
    assert YSPC[0] == 8 && YSPC[1] == 8 && YSPC[2] == 8 && YSPC[3] == 4 && YSPC[4] == 4 && YSPC[5] == 2 && YSPC[6] == 2;
    YSPC[p]
  }

  const UINT: int := 0x1_0000_0000

  /** The size of a pass in one direction, in 32-bit unsigned arithmetic: n - orig may
      wrap around. */
  function Cells(n: nat, orig: nat, spc: nat): nat
    requires 0 < spc
  {
    ((((n - orig) % UINT) + spc - 1) % UINT) / spc
  }

  function Width(w: nat, p: nat): nat
    requires p < 7
  {
    Cells(w, XORIG[p], SpcX(p))
  }

  function Height(h: nat, p: nat): nat
    requires p < 7
  {
    Cells(h, YORIG[p], SpcY(p))
  }

  /** A size up to 2^31 passes through the wrap-around: cell i exists exactly if its
      position is inside. */
  lemma CellsExact(n: nat, orig: nat, spc: nat, i: nat)
    requires 1 <= n < 0x8000_0000 && orig < spc && (spc == 1 || spc == 2 || spc == 4 || spc == 8)
    ensures i < Cells(n, orig, spc) <==> i * spc + orig < n
  {
    assert (((n - orig) % UINT) + spc - 1) % UINT == n - orig + spc - 1;
  }

  /** Where cell (i, j) of pass p belongs. */
  function PlaceX(p: nat, i: nat): nat
    requires p < 7
  {
    i * XSPC[p] + XORIG[p]
  }

  function PlaceY(p: nat, j: nat): nat
    requires p < 7
  {
    j * YSPC[p] + YORIG[p]
  }

  /** The pass that brings pixel (x, y), from the finest grid to the coarsest. */
  function PassOf(x: nat, y: nat): (p: nat)
    ensures p < 7
  {
    if y % 2 == 1 then 6
    else if x % 2 == 1 then 5
    else if y % 4 == 2 then 4
    else if x % 4 == 2 then 3
    else if y % 8 == 4 then 2
    else if x % 8 == 4 then 1
    else 0
  }

  /** The 8 by 8 pattern of section 8.2, its passes counted from 1. */
  const PATTERN: seq<seq<nat>> := [
    [1, 6, 4, 6, 2, 6, 4, 6],
    [7, 7, 7, 7, 7, 7, 7, 7],
    [5, 6, 5, 6, 5, 6, 5, 6],
    [7, 7, 7, 7, 7, 7, 7, 7],
    [3, 6, 4, 6, 3, 6, 4, 6],
    [7, 7, 7, 7, 7, 7, 7, 7],
    [5, 6, 5, 6, 5, 6, 5, 6],
    [7, 7, 7, 7, 7, 7, 7, 7]]

  /** A pixel belongs to the pass that the pattern says, and lies on the grid of that pass. */
  lemma PassIsPattern(x: nat, y: nat)
    ensures |PATTERN| == 8 && |PATTERN[y % 8]| == 8 && PassOf(x, y) + 1 == PATTERN[y % 8][x % 8]
  {
    Mod8(x);
    Mod8(y);
    PatternRow(x % 8, y % 8);
  }

  lemma PatternRow(x: nat, y: nat)
    requires x < 8 && y < 8
    ensures |PATTERN| == 8 && |PATTERN[y]| == 8 && PassOf(x, y) + 1 == PATTERN[y][x]
  {
    if y % 2 == 1 { assert PATTERN[y] == [7, 7, 7, 7, 7, 7, 7, 7]; }
    else if y % 4 == 2 { assert PATTERN[y] == [5, 6, 5, 6, 5, 6, 5, 6]; }
    else if y == 0 { assert PATTERN[0] == [1, 6, 4, 6, 2, 6, 4, 6]; }
    else { assert PATTERN[4] == [3, 6, 4, 6, 3, 6, 4, 6]; }
  }

  function CellX(p: nat, x: nat): nat
    requires p < 7
  {
    x / SpcX(p)
  }

  function CellY(p: nat, y: nat): nat
    requires p < 7
  {
    y / SpcY(p)
  }

  /** Cell number and position determine each other on a grid. */
  lemma Grid(orig: nat, spc: nat, i: nat, x: nat)
    requires orig < spc && (spc == 1 || spc == 2 || spc == 4 || spc == 8)
    ensures (i * spc + orig) / spc == i
    ensures x % spc == orig ==> (x / spc) * spc + orig == x
    ensures (i * spc + orig) % spc == orig
  {}

  /** Which pixels a pass brings. */
  lemma PassExact(x: nat, y: nat, p: nat)
    requires p < 7
    ensures PassOf(x, y) == p ==> x % SpcX(p) == XORIG[p] && y % SpcY(p) == YORIG[p]
    ensures x % SpcX(p) == XORIG[p] && y % SpcY(p) == YORIG[p] ==> PassOf(x, y) == p
  {
    Mod8(x);
    Mod8(y);
  }

  lemma Mod8(x: nat)
    ensures x % 2 == (x % 8) % 2 && x % 4 == (x % 8) % 4
  {}

  /** Every pixel of the image comes from a cell of a pass ... */
  lemma PixelHasCell(w: nat, h: nat, x: nat, y: nat)
    requires 1 <= w < 0x8000_0000 && 1 <= h < 0x8000_0000 && x < w && y < h
    ensures var p := PassOf(x, y);
      && CellX(p, x) < Width(w, p) && CellY(p, y) < Height(h, p)
      && PlaceX(p, CellX(p, x)) == x && PlaceY(p, CellY(p, y)) == y
  {
    var p := PassOf(x, y);
    PassExact(x, y, p);
    Grid(XORIG[p], SpcX(p), 0, x);
    Grid(YORIG[p], SpcY(p), 0, y);
    CellsExact(w, XORIG[p], XSPC[p], CellX(p, x));
    CellsExact(h, YORIG[p], YSPC[p], CellY(p, y));
  }

  /** ... every cell belongs inside the image, also of a pass whose origin lies outside,
      and no two cells belong to the same pixel. */
  lemma CellHasPixel(w: nat, h: nat, p: nat, i: nat, j: nat)
    requires 1 <= w < 0x8000_0000 && 1 <= h < 0x8000_0000 && p < 7 && i < Width(w, p) && j < Height(h, p)
    ensures PlaceX(p, i) < w && PlaceY(p, j) < h
    ensures PassOf(PlaceX(p, i), PlaceY(p, j)) == p && CellX(p, PlaceX(p, i)) == i && CellY(p, PlaceY(p, j)) == j
  {
    Grid(XORIG[p], SpcX(p), i, 0);
    Grid(YORIG[p], SpcY(p), j, 0);
    PassExact(PlaceX(p, i), PlaceY(p, j), p);
    CellsExact(w, XORIG[p], XSPC[p], i);
    CellsExact(h, YORIG[p], YSPC[p], j);
  }

  // ---- putting the passes together

  predicate Sizes(w: nat, h: nat) { 1 <= w < 0x8000_0000 && 1 <= h < 0x8000_0000 }

  predicate Empty(w: nat, h: nat, p: nat)
    requires p < 7
  {
    Width(w, p) == 0 || Height(h, p) == 0
  }

  function RowBytes(w: nat, imgN: nat, p: nat): nat
    requires p < 7
  {
    imgN * Width(w, p)
  }

  /** How many bytes the passes before p take. */
  function Offset(w: nat, h: nat, imgN: nat, p: nat): nat
    requires p <= 7
  {
    if p == 0 then 0
    else Offset(w, h, imgN, p - 1) + if Empty(w, h, p - 1) then 0 else LineBytes(Height(h, p - 1), RowBytes(w, imgN, p - 1))
  }

  /** The data of pass p are the filtered image `rows`. */
  ghost predicate PassEncodes(raw: seq<Byte>, w: nat, h: nat, imgN: nat, p: nat, fts: seq<nat>, rows: seq<seq<Byte>>)
    requires p < 7
  {
    && Offset(w, h, imgN, p) <= |raw|
    && Encodes(raw[Offset(w, h, imgN, p)..], Width(w, p) == w && Height(h, p) == h, fts, rows, Height(h, p), RowBytes(w, imgN, p), imgN)
  }

  ghost predicate PassOk(raw: seq<Byte>, w: nat, h: nat, imgN: nat, p: nat)
    requires p < 7
  {
    Empty(w, h, p) || exists fts, rows :: PassEncodes(raw, w, h, imgN, p, fts, rows)
  }

  /** Pixel i of row j in a pass's output. */
  function CellBytes(out: seq<Byte>, width: nat, outN: nat, i: nat, j: nat): seq<Byte> {
    var at := (j * width + i) * outN;
    if at + outN <= |out| then out[at..at + outN] else []
  }

  predicate SampleCopied(pixel: seq<Byte>, row: seq<Byte>, imgN: nat, i: nat, k: nat) {
    k < |pixel| && Times(i, imgN) + k < |row| && pixel[k] == row[Times(i, imgN) + k]
  }

  /** A pixel of the final image has the samples of pixel i of the row, and alpha 255. */
  predicate Copied(pixel: seq<Byte>, row: seq<Byte>, imgN: nat, outN: nat, i: nat) {
    && |pixel| == outN
    && (forall k :: 0 <= k < imgN ==> SampleCopied(pixel, row, imgN, i, k))
    && (imgN < outN ==> pixel[imgN] == 255)
  }

  lemma CellIndex(width: nat, outN: nat, i: nat, j: nat)
    ensures (j * width + i) * outN == Times(j, Times(width, outN)) + Times(i, outN)
  {
    TimesIsProduct(width, outN);
    TimesIsProduct(j, width * outN);
    TimesIsProduct(i, outN);
    assert (j * width + i) * outN == j * width * outN + i * outN;
    assert j * width * outN == j * (width * outN);
  }

  lemma CellFits(height: nat, width: nat, outN: nat, i: nat, j: nat)
    requires i < width && j < height
    ensures (j * width + i) * outN + outN <= height * (width * outN)
  {
    CellIndex(width, outN, i, j);
    var stride := Times(width, outN);
    TimesIsProduct(width, outN);
    TimesIsProduct(height, stride);
    TimesMonotone(j, height, stride);
    TimesMonotone(i, width, outN);
  }

  lemma CellSlice(out: seq<Byte>, width: nat, outN: nat, height: nat, i: nat, j: nat)
    requires i < width && j < height && |out| == height * (width * outN)
    ensures var at := Times(j, Times(width, outN)) + Times(i, outN);
      at + outN <= |out| && CellBytes(out, width, outN, i, j) == out[at..at + outN]
  {
    CellIndex(width, outN, i, j);
    CellFits(height, width, outN, i, j);
  }

  /** The pixel at an index where the row's samples and alpha lie. */
  lemma PixelCopied(out: seq<Byte>, base: nat, row: seq<Byte>, imgN: nat, outN: nat, x: nat, i: nat)
    requires imgN <= outN <= imgN + 1 && RowPainted(out, row, base, imgN, outN, x) && i < x
    requires base + Times(i, outN) + outN <= |out|
    ensures Copied(out[base + Times(i, outN)..base + Times(i, outN) + outN], row, imgN, outN, i)
  {
    var at := base + Times(i, outN);
    var pixel := out[at..at + outN];
    forall k | 0 <= k < imgN ensures SampleCopied(pixel, row, imgN, i, k) {
      assert Same(out, base, row, imgN, outN, i, k);
    }
    assert Opaque(out, base, imgN, outN, i);
    assert imgN < outN ==> pixel[imgN] == out[at + imgN] == 255;
    assert Copied(pixel, row, imgN, outN, i);
  }

  /** The cells of a painted pass are its pixels. */
  lemma CellCopied(out: seq<Byte>, rows: seq<seq<Byte>>, imgN: nat, outN: nat, width: nat, i: nat, j: nat)
    requires imgN <= outN <= imgN + 1 && Painted(out, rows, imgN, outN, width) && i < width && j < |rows|
    requires |out| == |rows| * (width * outN)
    ensures Copied(CellBytes(out, width, outN, i, j), rows[j], imgN, outN, i)
  {
    CellSlice(out, width, outN, |rows|, i, j);
    assert RowPainted(out, rows[j], Times(j, Times(width, outN)), imgN, outN, width);
    PixelCopied(out, Times(j, Times(width, outN)), rows[j], imgN, outN, width, i);
  }

  /** The pixels of the passes up to cell (i, j) of pass p. */
  predicate Before(p: nat, i: nat, j: nat, x: nat, y: nat)
    requires p < 7
  {
    PassOf(x, y) == p && (CellY(p, y) < j || (CellY(p, y) == j && CellX(p, x) < i))
  }

  /** One of the memcpy calls. */
  method CopyCell(final: array2<seq<Byte>>, out: array<Byte>, p: nat, i: nat, j: nat, w: nat, h: nat, outN: nat)
    requires p < 7 && Sizes(w, h) && i < Width(w, p) && j < Height(h, p) && final.Length0 == h && final.Length1 == w
    requires out.Length == Height(h, p) * (Width(w, p) * outN)
    modifies final
    ensures PlaceX(p, i) < w && PlaceY(p, j) < h
    ensures final[PlaceY(p, j), PlaceX(p, i)] == CellBytes(out[..], Width(w, p), outN, i, j)
    ensures forall y, x :: 0 <= y < h && 0 <= x < w && (y, x) != (PlaceY(p, j), PlaceX(p, i)) ==> final[y, x] == old(final[y, x])
  {
    CellHasPixel(w, h, p, i, j);
    var at := (j * Width(w, p) + i) * outN;
    CellIndex(Width(w, p), outN, i, j);
    CellFits(Height(h, p), Width(w, p), outN, i, j);
    final[PlaceY(p, j), PlaceX(p, i)] := out[at..at + outN];
  }

  /** Pixel (x, y) while pass p is being copied: its cell once it has been reached. */
  function Reached(p: nat, i: nat, j: nat, x: nat, y: nat, was: seq<Byte>, out: seq<Byte>, width: nat, outN: nat): seq<Byte>
    requires p < 7
  {
    if Before(p, i, j, x, y) then CellBytes(out, width, outN, CellX(p, x), CellY(p, y)) else was
  }

  lemma BeforeNext(p: nat, i: nat, j: nat, x: nat, y: nat, w: nat, h: nat)
    requires p < 7 && Sizes(w, h) && x < w && y < h && i < Width(w, p) && j < Height(h, p)
    ensures Before(p, i + 1, j, x, y) <==> Before(p, i, j, x, y) || (x == PlaceX(p, i) && y == PlaceY(p, j))
    ensures x == PlaceX(p, i) && y == PlaceY(p, j) ==> CellX(p, x) == i && CellY(p, y) == j
  {
    CellHasPixel(w, h, p, i, j);
    PixelHasCell(w, h, x, y);
  }

  lemma BeforeRow(p: nat, j: nat, x: nat, y: nat, w: nat, h: nat)
    requires p < 7 && Sizes(w, h) && x < w && y < h
    ensures Before(p, Width(w, p), j, x, y) <==> Before(p, 0, j + 1, x, y)
    ensures Before(p, 0, Height(h, p), x, y) <==> PassOf(x, y) == p
  {
    PixelHasCell(w, h, x, y);
  }

  /** The two loops over a pass: its cells come to their places and nothing else changes. */
  method CopyPass(final: array2<seq<Byte>>, out: array<Byte>, p: nat, w: nat, h: nat, outN: nat)
    requires p < 7 && Sizes(w, h) && final.Length0 == h && final.Length1 == w
    requires out.Length == Height(h, p) * (Width(w, p) * outN)
    modifies final
    ensures forall y, x :: 0 <= y < h && 0 <= x < w ==>
      final[y, x] == Reached(p, 0, Height(h, p), x, y, old(final[y, x]), out[..], Width(w, p), outN)
  {
    for j := 0 to Height(h, p)
      invariant forall y, x :: 0 <= y < h && 0 <= x < w ==>
        final[y, x] == Reached(p, 0, j, x, y, old(final[y, x]), out[..], Width(w, p), outN)
    {
      for i := 0 to Width(w, p)
        invariant forall y, x :: 0 <= y < h && 0 <= x < w ==>
          final[y, x] == Reached(p, i, j, x, y, old(final[y, x]), out[..], Width(w, p), outN)
      {
        CopyCell(final, out, p, i, j, w, h, outN);
        forall y, x | 0 <= y < h && 0 <= x < w
          ensures final[y, x] == Reached(p, i + 1, j, x, y, old(final[y, x]), out[..], Width(w, p), outN)
        {
          BeforeNext(p, i, j, x, y, w, h);
        }
      }
      forall y, x | 0 <= y < h && 0 <= x < w
        ensures final[y, x] == Reached(p, 0, j + 1, x, y, old(final[y, x]), out[..], Width(w, p), outN)
      {
        BeforeRow(p, j, x, y, w, h);
      }
    }
  }

  /** The pixels of pass p are those of every image that its data encode. */
  ghost predicate PassRight(raw: seq<Byte>, final: array2<seq<Byte>>, w: nat, h: nat, imgN: nat, outN: nat, p: nat)
    requires p < 7
    reads final
  {
    forall fts, rows :: PassEncodes(raw, w, h, imgN, p, fts, rows) ==> PassShows(final, rows, w, h, imgN, outN, p)
  }

  ghost predicate PassShows(final: array2<seq<Byte>>, rows: seq<seq<Byte>>, w: nat, h: nat, imgN: nat, outN: nat, p: nat)
    requires p < 7
    reads final
  {
    && final.Length0 == h && final.Length1 == w && |rows| == Height(h, p)
    && forall y, x :: 0 <= y < h && 0 <= x < w && PassOf(x, y) == p ==>
         CellY(p, y) < |rows| && Copied(final[y, x], rows[CellY(p, y)], imgN, outN, CellX(p, x))
  }

  lemma PassShown(final: array2<seq<Byte>>, out: seq<Byte>, rows: seq<seq<Byte>>, w: nat, h: nat, imgN: nat, outN: nat, p: nat)
    requires p < 7 && Sizes(w, h) && imgN <= outN <= imgN + 1 && final.Length0 == h && final.Length1 == w
    requires |rows| == Height(h, p) && |out| == |rows| * (Width(w, p) * outN) && Painted(out, rows, imgN, outN, Width(w, p))
    requires forall y, x :: 0 <= y < h && 0 <= x < w && PassOf(x, y) == p ==>
      final[y, x] == CellBytes(out, Width(w, p), outN, CellX(p, x), CellY(p, y))
    ensures PassShows(final, rows, w, h, imgN, outN, p)
  {
    forall y, x | 0 <= y < h && 0 <= x < w && PassOf(x, y) == p
      ensures CellY(p, y) < |rows| && Copied(final[y, x], rows[CellY(p, y)], imgN, outN, CellX(p, x))
    {
      PixelHasCell(w, h, x, y);
      CellCopied(out, rows, imgN, outN, Width(w, p), CellX(p, x), CellY(p, y));
    }
  }

  /** What CreateRaw says about the data of a pass. */
  ghost predicate DataDecoded(raw: seq<Byte>, w: nat, h: nat, imgN: nat, outN: nat, p: nat, ok: bool, out: seq<Byte>)
    requires p < 7
  {
    && (ok <==> exists fts, rows :: PassEncodes(raw, w, h, imgN, p, fts, rows))
    && |out| == Height(h, p) * (Width(w, p) * outN)
    && forall fts, rows :: PassEncodes(raw, w, h, imgN, p, fts, rows) ==> Painted(out, rows, imgN, outN, Width(w, p))
  }

  method DecodeData(raw: seq<Byte>, off: nat, w: nat, h: nat, imgN: nat, outN: nat, p: nat) returns (ok: bool, out: array<Byte>)
    requires p < 7 && 0 < imgN <= outN <= imgN + 1 && !Empty(w, h, p) && off == Offset(w, h, imgN, p) <= |raw|
    ensures fresh(out) && DataDecoded(raw, w, h, imgN, outN, p, ok, out[..])
  {
    ok, out := CreateRaw(raw[off..], imgN, outN, Width(w, p), Height(h, p), Width(w, p) == w && Height(h, p) == h);
    if fts, rows :| PassEncodes(raw, w, h, imgN, p, fts, rows) {
      assert Encodes(raw[off..], Width(w, p) == w && Height(h, p) == h, fts, rows, Height(h, p), RowBytes(w, imgN, p), imgN);
    } else if ok {
      var fts, rows :| Encodes(raw[off..], Width(w, p) == w && Height(h, p) == h, fts, rows, Height(h, p), RowBytes(w, imgN, p), imgN);
      assert PassEncodes(raw, w, h, imgN, p, fts, rows);
    }
  }

  /** One non-empty pass: decode it and copy its pixels. */
  method DecodePass(final: array2<seq<Byte>>, raw: seq<Byte>, off: nat, w: nat, h: nat, imgN: nat, outN: nat, p: nat) returns (ok: bool)
    requires p < 7 && Sizes(w, h) && 0 < imgN <= outN <= imgN + 1 && !Empty(w, h, p)
    requires final.Length0 == h && final.Length1 == w && off == Offset(w, h, imgN, p) <= |raw|
    modifies final
    ensures ok <==> PassOk(raw, w, h, imgN, p)
    ensures ok ==> PassRight(raw, final, w, h, imgN, outN, p)
    ensures forall y, x :: 0 <= y < h && 0 <= x < w && PassOf(x, y) != p ==> final[y, x] == old(final[y, x])
  {
    var out;
    ok, out := DecodeData(raw, off, w, h, imgN, outN, p);
    if !ok { return; }
    CopyPass(final, out, p, w, h, outN);
    AllCopied(p, w, h);
    forall fts, rows | PassEncodes(raw, w, h, imgN, p, fts, rows) ensures PassShows(final, rows, w, h, imgN, outN, p) {
      PassShown(final, out[..], rows, w, h, imgN, outN, p);
    }
  }

  lemma AllCopied(p: nat, w: nat, h: nat)
    requires p < 7 && Sizes(w, h)
    ensures forall y, x :: 0 <= y < h && 0 <= x < w ==> (Before(p, 0, Height(h, p), x, y) <==> PassOf(x, y) == p)
  {
    forall y, x | 0 <= y < h && 0 <= x < w ensures Before(p, 0, Height(h, p), x, y) <==> PassOf(x, y) == p {
      BeforeRow(p, 0, x, y, w, h);
    }
  }

  lemma PassTakes(raw: seq<Byte>, w: nat, h: nat, imgN: nat, p: nat)
    requires p < 7 && PassOk(raw, w, h, imgN, p) && Offset(w, h, imgN, p) <= |raw|
    ensures Offset(w, h, imgN, p + 1) <= |raw|
  {
    if !Empty(w, h, p) {
      var fts, rows :| PassEncodes(raw, w, h, imgN, p, fts, rows);
      SizeRight(raw[Offset(w, h, imgN, p)..], Width(w, p) == w && Height(h, p) == h, fts, rows, Height(h, p), RowBytes(w, imgN, p), imgN);
    }
  }

  /** The body of the loop over the passes. */
  method NextPass(final: array2<seq<Byte>>, raw: seq<Byte>, off: nat, w: nat, h: nat, imgN: nat, outN: nat, p: nat) returns (ok: bool, off': nat)
    requires p < 7 && Sizes(w, h) && 0 < imgN <= outN <= imgN + 1
    requires final.Length0 == h && final.Length1 == w && off == Offset(w, h, imgN, p) <= |raw|
    modifies final
    ensures ok <==> PassOk(raw, w, h, imgN, p)
    ensures ok ==> off' == Offset(w, h, imgN, p + 1) <= |raw| && PassRight(raw, final, w, h, imgN, outN, p)
    ensures forall q :: 0 <= q < 7 && q != p && old(PassRight(raw, final, w, h, imgN, outN, q)) ==> PassRight(raw, final, w, h, imgN, outN, q)
  {
    off' := off;
    if Width(w, p) == 0 || Height(h, p) == 0 {
      EmptyRight(raw, final, w, h, imgN, outN, p);
      return true, off';
    }
    ok := DecodePass(final, raw, off, w, h, imgN, outN, p);
    forall q | 0 <= q < 7 && q != p && old(PassRight(raw, final, w, h, imgN, outN, q)) ensures PassRight(raw, final, w, h, imgN, outN, q) {
      forall fts, rows | PassEncodes(raw, w, h, imgN, q, fts, rows) ensures PassShows(final, rows, w, h, imgN, outN, q) {
        assert old(PassShows(final, rows, w, h, imgN, outN, q));
      }
    }
    if ok {
      PassTakes(raw, w, h, imgN, p);
      LineBytesIsProduct(Height(h, p), RowBytes(w, imgN, p));
      off' := off + (RowBytes(w, imgN, p) + 1) * Height(h, p);
    }
  }

  /** stbi__create_png_image on interlaced 8-bit data: it succeeds exactly if every
      non-empty pass holds a filtered image, and then every pixel of the result is the
      pixel of its one pass. */
  method Deinterlace(raw: seq<Byte>, w: nat, h: nat, imgN: nat, outN: nat) returns (ok: bool, final: array2<seq<Byte>>)
    requires Sizes(w, h) && 0 < imgN <= outN <= imgN + 1
    ensures final.Length0 == h && final.Length1 == w
    ensures ok <==> forall p :: 0 <= p < 7 ==> PassOk(raw, w, h, imgN, p)
    ensures ok ==> forall p :: 0 <= p < 7 ==> PassRight(raw, final, w, h, imgN, outN, p)
  {
    var blank: seq<Byte> := [];
    final := new seq<Byte>[h, w]((y, x) => blank);
    var off: nat := 0;
    for p := 0 to 7
      invariant off == Offset(w, h, imgN, p) <= |raw|
      invariant forall q :: 0 <= q < p ==> PassOk(raw, w, h, imgN, q) && PassRight(raw, final, w, h, imgN, outN, q)
    {
      var next;
      ok, next := NextPass(final, raw, off, w, h, imgN, outN, p);
      if !ok { return; }
      off := next;
    }
    ok := true;
  }

  lemma EmptyRight(raw: seq<Byte>, final: array2<seq<Byte>>, w: nat, h: nat, imgN: nat, outN: nat, p: nat)
    requires p < 7 && Sizes(w, h) && Empty(w, h, p) && final.Length0 == h && final.Length1 == w
    ensures PassRight(raw, final, w, h, imgN, outN, p)
  {
    forall fts, rows | PassEncodes(raw, w, h, imgN, p, fts, rows) ensures PassShows(final, rows, w, h, imgN, outN, p) {
      forall y, x | 0 <= y < h && 0 <= x < w && PassOf(x, y) == p ensures false {
        PixelHasCell(w, h, x, y);
      }
    }
  }

  // ---- interlacing and back

  /** Samples of an image by column, row and channel. */
  type Samples = (nat, nat, nat) -> Byte

  predicate CellOf(rows: seq<seq<Byte>>, image: Samples, imgN: nat, p: nat, i: nat, j: nat, k: nat)
    requires p < 7
  {
    j < |rows| && Times(i, imgN) + k < |rows[j]| && rows[j][Times(i, imgN) + k] == image(PlaceX(p, i), PlaceY(p, j), k)
  }

  /** The rows are the image as pass p sees it. */
  ghost predicate IsPass(rows: seq<seq<Byte>>, image: Samples, w: nat, h: nat, imgN: nat, p: nat)
    requires p < 7
  {
    forall i, j, k :: 0 <= i < Width(w, p) && 0 <= j < Height(h, p) && 0 <= k < imgN ==> CellOf(rows, image, imgN, p, i, j, k)
  }

  /** The data of pass p are the filtered pass of the image, with some filter types. */
  ghost predicate HoldsPass(raw: seq<Byte>, image: Samples, w: nat, h: nat, imgN: nat, p: nat)
    requires p < 7
  {
    exists fts, rows :: PassEncodes(raw, w, h, imgN, p, fts, rows) && IsPass(rows, image, w, h, imgN, p)
  }

  lemma PixelIsImage(pixel: seq<Byte>, rows: seq<seq<Byte>>, image: Samples, imgN: nat, outN: nat, p: nat, i: nat, j: nat)
    requires p < 7 && imgN <= outN && j < |rows| && Copied(pixel, rows[j], imgN, outN, i)
    requires forall k :: 0 <= k < imgN ==> CellOf(rows, image, imgN, p, i, j, k)
    ensures forall k :: 0 <= k < imgN ==> pixel[k] == image(PlaceX(p, i), PlaceY(p, j), k)
  {
    forall k | 0 <= k < imgN ensures pixel[k] == image(PlaceX(p, i), PlaceY(p, j), k) {
      assert SampleCopied(pixel, rows[j], imgN, i, k);
      assert CellOf(rows, image, imgN, p, i, j, k);
    }
  }

  /** The pixel (x, y) shows the image. */
  predicate PixelShows(pixel: seq<Byte>, image: Samples, imgN: nat, outN: nat, x: nat, y: nat) {
    && |pixel| == outN && (imgN < outN ==> pixel[imgN] == 255)
    && forall k :: 0 <= k < imgN && k < outN ==> pixel[k] == image(x, y, k)
  }

  lemma PassReassembled(raw: seq<Byte>, final: array2<seq<Byte>>, image: Samples, w: nat, h: nat, imgN: nat, outN: nat, x: nat, y: nat, p: nat)
    requires Sizes(w, h) && x < w && y < h && imgN <= outN && final.Length0 == h && final.Length1 == w && p == PassOf(x, y)
    requires PassRight(raw, final, w, h, imgN, outN, p) && HoldsPass(raw, image, w, h, imgN, p)
    ensures PixelShows(final[y, x], image, imgN, outN, x, y)
  {
    PixelHasCell(w, h, x, y);
    var i, j := CellX(p, x), CellY(p, y);
    var fts, rows :| PassEncodes(raw, w, h, imgN, p, fts, rows) && IsPass(rows, image, w, h, imgN, p);
    assert PassShows(final, rows, w, h, imgN, outN, p);
    assert Copied(final[y, x], rows[j], imgN, outN, i);
    forall k | 0 <= k < imgN ensures CellOf(rows, image, imgN, p, i, j, k) {}
    PixelIsImage(final[y, x], rows, image, imgN, outN, p, i, j);
  }

  /** Interlacing an image and filtering its passes is undone: what Deinterlace returns on
      such data is the image. */
  lemma Reassembled(raw: seq<Byte>, final: array2<seq<Byte>>, image: Samples, w: nat, h: nat, imgN: nat, outN: nat, x: nat, y: nat)
    requires Sizes(w, h) && x < w && y < h && imgN <= outN && final.Length0 == h && final.Length1 == w
    requires forall p :: 0 <= p < 7 ==> PassRight(raw, final, w, h, imgN, outN, p)
    requires forall p :: 0 <= p < 7 && !Empty(w, h, p) ==> HoldsPass(raw, image, w, h, imgN, p)
    ensures PixelShows(final[y, x], image, imgN, outN, x, y)
  {
    PixelHasCell(w, h, x, y);
    PassReassembled(raw, final, image, w, h, imgN, outN, x, y, PassOf(x, y));
  }
}
