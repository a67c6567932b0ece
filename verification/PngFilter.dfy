/** PNG filtering (section 9 of the PNG Specification, Second Edition) as a map on rows,
    independent of the decoder that inverts it. */
module PngFilter {

  type Byte = x: int | 0 <= x < 256

  function Abs(x: int): nat { if x < 0 then -x else x }

  /** stbi__paeth. */
  function Paeth(a: int, b: int, c: int): int {
    var p := a + b - c;
    var pa, pb, pc := Abs(p - a), Abs(p - b), Abs(p - c);
    if pa <= pb && pa <= pc then a
    else if pb <= pc then b
    else c
  }

  /** The Paeth predictor is the first of left, above and upper left that is nearest to
      left + above - upper left. */
  lemma PaethNearest(a: int, b: int, c: int)
    ensures var p, r := a + b - c, Paeth(a, b, c);
      && (r == a || r == b || r == c)
      && Abs(p - r) <= Abs(p - a) && Abs(p - r) <= Abs(p - b) && Abs(p - r) <= Abs(p - c)
      && (Abs(p - r) == Abs(p - a) ==> r == a)
      && (Abs(p - r) < Abs(p - a) && Abs(p - r) == Abs(p - b) ==> r == b)
  {}

  /** What filter type ft predicts from the bytes to the left, above and upper left. */
  function Predict(ft: nat, a: Byte, b: Byte, c: Byte): Byte
    requires ft <= 4
  {
    if ft == 0 then 0
    else if ft == 1 then a
    else if ft == 2 then b
    else if ft == 3 then (a + b) / 2
    else Paeth(a, b, c)
  }

  /** The predictions of section 9.2: nothing, the left byte, the byte above, the mean of the
      two rounded down, and the nearest of three. */
  lemma PredictExact(ft: nat, a: Byte, b: Byte, c: Byte)
    requires ft <= 4
    ensures var p, e := Predict(ft, a, b, c), a + b - c;
      && (ft == 0 ==> p == 0) && (ft == 1 ==> p == a) && (ft == 2 ==> p == b)
      && (ft == 3 ==> 2 * p <= a + b <= 2 * p + 1)
      && (ft == 4 ==> (p == a || p == b || p == c) && Abs(e - p) <= Abs(e - a) && Abs(e - p) <= Abs(e - b) && Abs(e - p) <= Abs(e - c))
  {
    PaethNearest(a, b, c);
  }

  /** The byte bpp positions before k, or 0 left of the image. */
  function Left(row: seq<Byte>, k: nat, bpp: nat): Byte
    requires k <= |row| && 0 < bpp
  {
    if k < bpp then 0 else row[k - bpp]
  }

  /** Byte k of the filtered row. */
  function FilterByte(ft: nat, row: seq<Byte>, prior: seq<Byte>, bpp: nat, k: nat): Byte
    requires ft <= 4 && k < |row| <= |prior| && 0 < bpp
  {
    (row[k] - Predict(ft, Left(row, k, bpp), prior[k], Left(prior, k, bpp))) % 256
  }

  function FilterRow(ft: nat, row: seq<Byte>, prior: seq<Byte>, bpp: nat): (r: seq<Byte>)
    requires ft <= 4 && |row| <= |prior| && 0 < bpp
    ensures |r| == |row|
  {
    seq(|row|, k requires 0 <= k < |row| => FilterByte(ft, row, prior, bpp, k))
  }

  /** The row before the first. */
  function ZeroRow(n: nat): seq<Byte> { seq(n, _ => 0) }

  function Prior(rows: seq<seq<Byte>>, width: nat): seq<Byte> {
    if rows == [] then ZeroRow(width) else rows[|rows| - 1]
  }

  /** An image of rows of `width` bytes with a filter type for each row. */
  ghost predicate Image(fts: seq<nat>, rows: seq<seq<Byte>>, width: nat) {
    && |fts| == |rows|
    && (forall j :: 0 <= j < |rows| ==> fts[j] <= 4 && |rows[j]| == width)
  }

  /** The filtered data stream: each row behind its filter type. */
  ghost function Encode(fts: seq<nat>, rows: seq<seq<Byte>>, width: nat, bpp: nat): seq<Byte>
    requires Image(fts, rows, width) && 0 < bpp
  {
    if rows == [] then [] else
      var n := |rows| - 1;
      Encode(fts[..n], rows[..n], width, bpp) + [fts[n]] + FilterRow(fts[n], rows[n], Prior(rows[..n], width), bpp)
  }

  /** n lines of `width` bytes and a filter type. */
  function LineBytes(n: nat, width: nat): nat { if n == 0 then 0 else LineBytes(n - 1, width) + 1 + width }

  lemma {:induction false} EncodeLength(fts: seq<nat>, rows: seq<seq<Byte>>, width: nat, bpp: nat)
    requires Image(fts, rows, width) && 0 < bpp
    ensures |Encode(fts, rows, width, bpp)| == LineBytes(|rows|, width)
    decreases |rows|
  {
    if rows != [] { EncodeLength(fts[..|rows| - 1], rows[..|rows| - 1], width, bpp); }
  }

  /** Filtering loses nothing: the bytes come back one after the other. */
  lemma {:induction false} FilterInjective(ft: nat, r: seq<Byte>, s: seq<Byte>, prior: seq<Byte>, bpp: nat, k: nat)
    requires ft <= 4 && |r| == |s| <= |prior| && 0 < bpp && k <= |r|
    requires FilterRow(ft, r, prior, bpp) == FilterRow(ft, s, prior, bpp)
    ensures r[..k] == s[..k]
    decreases k
  {
    if k > 0 {
      FilterInjective(ft, r, s, prior, bpp, k - 1);
      var q := k - 1;
      assert FilterRow(ft, r, prior, bpp)[q] == FilterByte(ft, r, prior, bpp, q);
      assert FilterRow(ft, s, prior, bpp)[q] == FilterByte(ft, s, prior, bpp, q);
      if q >= bpp { assert r[..q][q - bpp] == s[..q][q - bpp]; }
      assert r[q] == s[q];
      assert r[..k] == r[..q] + [r[q]];
      assert s[..k] == s[..q] + [s[q]];
    }
  }

  /** `line` is the stream's line for filter type ft behind the bytes p. */
  predicate LineAt(e: seq<Byte>, p: seq<Byte>, ft: nat, line: seq<Byte>) {
    |e| >= |p| + 1 + |line| && e[..|p|] == p && e[|p|] == ft && e[|p| + 1..|p| + 1 + |line|] == line
  }

  lemma LineInLonger(e: seq<Byte>, more: seq<Byte>, p: seq<Byte>, ft: nat, line: seq<Byte>)
    requires LineAt(e, p, ft, line)
    ensures LineAt(e + more, p, ft, line)
  {
    assert (e + more)[..|p|] == e[..|p|];
    assert (e + more)[|p| + 1..|p| + 1 + |line|] == e[|p| + 1..|p| + 1 + |line|];
  }

  lemma LineAtEnd(p: seq<Byte>, ft: nat, line: seq<Byte>)
    requires ft < 256
    ensures LineAt(p + [ft] + line, p, ft, line)
  {
    assert (p + [ft] + line)[..|p|] == p;
    assert (p + [ft] + line)[|p| + 1..] == line;
  }

  /** The stream of the first n rows, and line n behind it. */
  lemma {:induction false} EncodePrefix(fts: seq<nat>, rows: seq<seq<Byte>>, width: nat, bpp: nat, n: nat)
    requires Image(fts, rows, width) && 0 < bpp && n < |rows|
    ensures Image(fts[..n], rows[..n], width)
    ensures LineAt(Encode(fts, rows, width, bpp), Encode(fts[..n], rows[..n], width, bpp), fts[n],
                   FilterRow(fts[n], rows[n], Prior(rows[..n], width), bpp))
    decreases |rows|
  {
    var m := |rows| - 1;
    EncodeLast(fts, rows, width, bpp);
    var e := Encode(fts[..m], rows[..m], width, bpp);
    var last := FilterRow(fts[m], rows[m], Prior(rows[..m], width), bpp);
    if n < m {
      EncodePrefix(fts[..m], rows[..m], width, bpp, n);
      assert fts[..m][..n] == fts[..n] && rows[..m][..n] == rows[..n];
      LineInLonger(e, [fts[m]] + last, Encode(fts[..n], rows[..n], width, bpp), fts[n],
                   FilterRow(fts[n], rows[n], Prior(rows[..n], width), bpp));
    } else {
      assert e + ([fts[m]] + last) == e + [fts[m]] + last;
      LineAtEnd(e, fts[m], last);
    }
  }

  lemma EncodeLast(fts: seq<nat>, rows: seq<seq<Byte>>, width: nat, bpp: nat)
    requires Image(fts, rows, width) && 0 < bpp && rows != []
    ensures var m := |rows| - 1;
      && Image(fts[..m], rows[..m], width)
      && Encode(fts, rows, width, bpp)
         == Encode(fts[..m], rows[..m], width, bpp) + ([fts[m]] + FilterRow(fts[m], rows[m], Prior(rows[..m], width), bpp))
  {
    var m := |rows| - 1;
    var e, last := Encode(fts[..m], rows[..m], width, bpp), FilterRow(fts[m], rows[m], Prior(rows[..m], width), bpp);
    assert e + [fts[m]] + last == e + ([fts[m]] + last);
  }

  lemma LinesAgree(e: seq<Byte>, p: seq<Byte>, ft: nat, line: seq<Byte>, p': seq<Byte>, ft': nat, line': seq<Byte>)
    requires LineAt(e, p, ft, line) && LineAt(e, p', ft', line') && |p| == |p'| && |line| == |line'|
    ensures p == p' && ft == ft' && line == line'
  {}

  lemma SameByLast<T>(a: seq<T>, b: seq<T>)
    requires |a| == |b| > 0 && a[..|a| - 1] == b[..|b| - 1] && a[|a| - 1] == b[|b| - 1]
    ensures a == b
  {
    assert a == a[..|a| - 1] + [a[|a| - 1]];
    assert b == b[..|b| - 1] + [b[|b| - 1]];
  }

  lemma RowsAgree(ft: nat, r: seq<Byte>, s: seq<Byte>, prior: seq<Byte>, bpp: nat)
    requires ft <= 4 && |r| == |s| <= |prior| && 0 < bpp
    requires FilterRow(ft, r, prior, bpp) == FilterRow(ft, s, prior, bpp)
    ensures r == s
  {
    FilterInjective(ft, r, s, prior, bpp, |r|);
    assert r[..|r|] == r && s[..|s|] == s;
  }

  lemma LastLinesAgree(fts: seq<nat>, rows: seq<seq<Byte>>, fts': seq<nat>, rows': seq<seq<Byte>>, width: nat, bpp: nat)
    requires Image(fts, rows, width) && Image(fts', rows', width) && |rows| == |rows'| > 0 && 0 < bpp
    requires Encode(fts, rows, width, bpp) == Encode(fts', rows', width, bpp)
    ensures var n := |rows| - 1;
      && Encode(fts[..n], rows[..n], width, bpp) == Encode(fts'[..n], rows'[..n], width, bpp)
      && fts[n] == fts'[n]
      && FilterRow(fts[n], rows[n], Prior(rows[..n], width), bpp) == FilterRow(fts'[n], rows'[n], Prior(rows'[..n], width), bpp)
  {
    var n := |rows| - 1;
    EncodeLength(fts[..n], rows[..n], width, bpp);
    EncodeLength(fts'[..n], rows'[..n], width, bpp);
    EncodePrefix(fts, rows, width, bpp, n);
    EncodePrefix(fts', rows', width, bpp, n);
    LinesAgree(Encode(fts, rows, width, bpp),
      Encode(fts[..n], rows[..n], width, bpp), fts[n], FilterRow(fts[n], rows[n], Prior(rows[..n], width), bpp),
      Encode(fts'[..n], rows'[..n], width, bpp), fts'[n], FilterRow(fts'[n], rows'[n], Prior(rows'[..n], width), bpp));
  }

  /** The stream determines the filter types and the rows. */
  lemma {:induction false} EncodeInjective(fts: seq<nat>, rows: seq<seq<Byte>>, fts': seq<nat>, rows': seq<seq<Byte>>, width: nat, bpp: nat)
    requires Image(fts, rows, width) && Image(fts', rows', width) && |rows| == |rows'| && 0 < bpp
    requires Encode(fts, rows, width, bpp) == Encode(fts', rows', width, bpp)
    ensures fts == fts' && rows == rows'
    decreases |rows|
  {
    if rows != [] {
      var n := |rows| - 1;
      LastLinesAgree(fts, rows, fts', rows', width, bpp);
      EncodeInjective(fts[..n], rows[..n], fts'[..n], rows'[..n], width, bpp);
      RowsAgree(fts[n], rows[n], rows'[n], Prior(rows[..n], width), bpp);
      SameByLast(fts, fts');
      SameByLast(rows, rows');
    }
  }
}
