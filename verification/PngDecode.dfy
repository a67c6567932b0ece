/** The row decoder of stb_image.h for 8-bit samples, with or without an inserted alpha
    channel, working in place on the output buffer. */
module PngDecode {
  import opened PngFilter

  /** a * b, by addition. */
  function Times(a: nat, b: nat): nat { if a == 0 then 0 else Times(a - 1, b) + b }

  lemma {:induction false} TimesIsProduct(a: nat, b: nat)
    ensures Times(a, b) == a * b
    decreases a
  {
    if a > 0 { TimesIsProduct(a - 1, b); }
  }

  lemma {:induction false} TimesMonotone(i: nat, j: nat, n: nat)
    requires i <= j
    ensures Times(i, n) <= Times(j, n) && (i < j ==> Times(i, n) + n <= Times(j, n))
    decreases j
  {
    if i < j { TimesMonotone(i, j - 1, n); }
  }

  // ---- what the output holds

  /** The output holds sample k of pixel i of the row that starts at base. */
  predicate Same(out: seq<Byte>, base: nat, row: seq<Byte>, imgN: nat, outN: nat, i: nat, k: nat) {
    && base + Times(i, outN) + k < |out| && Times(i, imgN) + k < |row|
    && out[base + Times(i, outN) + k] == row[Times(i, imgN) + k]
  }

  /** ... of its first x pixels. */
  predicate Laid(out: seq<Byte>, base: nat, row: seq<Byte>, imgN: nat, outN: nat, x: nat) {
    forall i, k :: 0 <= i < x && 0 <= k < imgN ==> Same(out, base, row, imgN, outN, i, k)
  }

  /** Alpha is 255 where the output has one channel more. */
  predicate Opaque(out: seq<Byte>, base: nat, imgN: nat, outN: nat, i: nat) {
    imgN == outN || (base + Times(i, outN) + imgN < |out| && out[base + Times(i, outN) + imgN] == 255)
  }

  predicate AllOpaque(out: seq<Byte>, base: nat, imgN: nat, outN: nat, x: nat) {
    forall i :: 0 <= i < x ==> Opaque(out, base, imgN, outN, i)
  }

  lemma {:induction false} TimesAt(i: nat, k: nat, n: nat, x: nat)
    requires i < x && k < n
    ensures Times(i, n) + k < Times(x, n)
  {
    TimesMonotone(i, x, n);
  }

  /** Without alpha the bytes lie as they are. */
  lemma {:induction false} LaidFlat(out: seq<Byte>, base: nat, row: seq<Byte>, n: nat, x: nat, q: nat)
    requires Laid(out, base, row, n, n, x) && q < Times(x, n)
    ensures q < |row| && base + q < |out| && out[base + q] == row[q]
    decreases x
  {
    if q < Times(x - 1, n) {
      LaidFlat(out, base, row, n, x - 1, q);
    } else {
      assert Same(out, base, row, n, n, x - 1, q - Times(x - 1, n));
    }
  }

  lemma FlatLaid(out: seq<Byte>, base: nat, row: seq<Byte>, n: nat, x: nat)
    requires |row| == Times(x, n) && base + |row| <= |out| && forall q :: 0 <= q < |row| ==> out[base + q] == row[q]
    ensures Laid(out, base, row, n, n, x)
  {
    forall i, k | 0 <= i < x && 0 <= k < n ensures Same(out, base, row, n, n, i, k) {
      TimesAt(i, k, n, x);
    }
  }

  // ---- what the decoder computes

  const NONE: nat := 0
  const SUB: nat := 1
  const UP: nat := 2
  const AVG: nat := 3
  const PAETH: nat := 4
  const AVG_FIRST: nat := 5
  const PAETH_FIRST: nat := 6

  /** first_row_filter: filters for the first row that read no row above. */
  function FirstRowFilter(ft: nat): nat
    requires ft <= 4
  {
    if ft == NONE then NONE else if ft == SUB then SUB else if ft == UP then NONE
    else if ft == AVG then AVG_FIRST else PAETH_FIRST
  }

  function FilterFor(ft: nat, first: bool): nat
    requires ft <= 4
  {
    if first then FirstRowFilter(ft) else ft
  }

  /** A sample of the first pixel. */
  function FirstSample(filter: nat, raw: Byte, up: Byte): Byte {
    if filter == UP then (raw + up) % 256
    else if filter == AVG then (raw + up / 2) % 256
    else if filter == PAETH then (raw + Paeth(0, up, 0)) % 256
    else raw
  }

  /** A sample of any other pixel. */
  function Sample(filter: nat, raw: Byte, left: Byte, up: Byte, upLeft: Byte): Byte {
    if filter == SUB then (raw + left) % 256
    else if filter == UP then (raw + up) % 256
    else if filter == AVG then (raw + (up + left) / 2) % 256
    else if filter == PAETH then (raw + Paeth(left, up, upLeft)) % 256
    else if filter == AVG_FIRST then (raw + left / 2) % 256
    else if filter == PAETH_FIRST then (raw + Paeth(left, 0, 0)) % 256
    else raw
  }

  lemma CastInverts(raw: Byte, p: Byte)
    ensures ((raw + p) % 256 - p) % 256 == raw
  {}

  /** Each sample adds the filter's prediction back; on the first row the synthetic
      filters do what the real ones do below a row of zeros. */
  lemma SampleAdds(ft: nat, first: bool, raw: Byte, a: Byte, b: Byte, c: Byte)
    requires ft <= 4 && (first ==> b == 0 && c == 0)
    ensures Sample(FilterFor(ft, first), raw, a, b, c) == (raw + Predict(ft, a, b, c)) % 256
  {}

  lemma FirstSampleAdds(ft: nat, first: bool, raw: Byte, b: Byte)
    requires ft <= 4 && (first ==> b == 0)
    ensures FirstSample(FilterFor(ft, first), raw, b) == (raw + Predict(ft, 0, b, 0)) % 256
  {}

  lemma SampleInverts(ft: nat, first: bool, raw: Byte, a: Byte, b: Byte, c: Byte)
    requires ft <= 4 && (first ==> b == 0 && c == 0)
    ensures (Sample(FilterFor(ft, first), raw, a, b, c) - Predict(ft, a, b, c)) % 256 == raw
  {
    SampleAdds(ft, first, raw, a, b, c);
    CastInverts(raw, Predict(ft, a, b, c));
  }

  lemma FirstSampleInverts(ft: nat, first: bool, raw: Byte, b: Byte)
    requires ft <= 4 && (first ==> b == 0)
    ensures (FirstSample(FilterFor(ft, first), raw, b) - Predict(ft, 0, b, 0)) % 256 == raw
  {
    FirstSampleAdds(ft, first, raw, b);
    CastInverts(raw, Predict(ft, 0, b, 0));
  }

  /** The decoded bytes so far filter to the line. */
  predicate Undone(ft: nat, row: seq<Byte>, prior: seq<Byte>, line: seq<Byte>, bpp: nat)
    requires ft <= 4 && 0 < bpp
  {
    |row| <= |line| <= |prior| && forall q :: 0 <= q < |row| ==> FilterByte(ft, row, prior, bpp, q) == line[q]
  }

  lemma UndoneMore(ft: nat, row: seq<Byte>, prior: seq<Byte>, line: seq<Byte>, bpp: nat, v: Byte)
    requires ft <= 4 && 0 < bpp && Undone(ft, row, prior, line, bpp) && |row| < |line|
    requires (v - Predict(ft, Left(row, |row|, bpp), prior[|row|], Left(prior, |row|, bpp))) % 256 == line[|row|]
    ensures Undone(ft, row + [v], prior, line, bpp)
  {
    var r := row + [v];
    forall q | 0 <= q < |r| ensures FilterByte(ft, r, prior, bpp, q) == line[q] {
      if q < |row| {
        assert FilterByte(ft, row, prior, bpp, q) == line[q];
        assert Left(r, q, bpp) == Left(row, q, bpp);
      } else {
        assert Left(r, q, bpp) == Left(row, q, bpp);
      }
    }
  }

  predicate Decoded(filter: nat, row: seq<Byte>, prior: seq<Byte>, line: seq<Byte>, n: nat, k: nat)
    requires n <= k < |row| <= |line| <= |prior|
  {
    row[k] == Sample(filter, line[k], row[k - n], prior[k], prior[k - n])
  }

  /** Samples from m on decoded from the samples to the left and the two above. */
  lemma {:induction false} UndoneOthers(ft: nat, first: bool, row: seq<Byte>, m: nat, prior: seq<Byte>, line: seq<Byte>, n: nat)
    requires ft <= 4 && 0 < n <= m <= |row| <= |line| <= |prior| && Undone(ft, row[..m], prior, line, n)
    requires first ==> forall q :: 0 <= q < |prior| ==> prior[q] == 0
    requires forall k :: m <= k < |row| ==> Decoded(FilterFor(ft, first), row, prior, line, n, k)
    ensures Undone(ft, row, prior, line, n)
    decreases |row|
  {
    if m == |row| {
      assert row[..m] == row;
    } else {
      var k := |row| - 1;
      var r := row[..k];
      assert r[..m] == row[..m];
      assert Decoded(FilterFor(ft, first), row, prior, line, n, k);
      forall q | m <= q < k ensures Decoded(FilterFor(ft, first), r, prior, line, n, q) {
        assert Decoded(FilterFor(ft, first), row, prior, line, n, q);
      }
      UndoneOthers(ft, first, r, m, prior, line, n);
      SampleInverts(ft, first, line[k], row[k - n], prior[k], prior[k - n]);
      UndoneMore(ft, r, prior, line, n, row[k]);
      assert row == r + [row[k]];
    }
  }

  lemma {:induction false} UndoneFirst(ft: nat, first: bool, prior: seq<Byte>, line: seq<Byte>, n: nat, px: seq<Byte>)
    requires ft <= 4 && 0 < n && |px| <= |line| <= |prior| && |px| <= n
    requires first ==> forall q :: 0 <= q < |prior| ==> prior[q] == 0
    requires forall k :: 0 <= k < |px| ==> px[k] == FirstSample(FilterFor(ft, first), line[k], prior[k])
    ensures Undone(ft, px, prior, line, n)
    decreases |px|
  {
    if px != [] {
      var m := |px| - 1;
      UndoneFirst(ft, first, prior, line, n, px[..m]);
      FirstSampleInverts(ft, first, line[m], prior[m]);
      UndoneMore(ft, px[..m], prior, line, n, px[m]);
      assert px == px[..m] + [px[m]];
    }
  }

  /** The row above, as the output holds it; above the first row all is zero. */
  ghost predicate Above(out: seq<Byte>, base: nat, stride: nat, first: bool, prior: seq<Byte>, imgN: nat, outN: nat, x: nat) {
    if first then forall q :: 0 <= q < |prior| ==> prior[q] == 0
    else stride <= base && Laid(out, base - stride, prior, imgN, outN, x)
  }

  /** The sample above, if there is a row above. */
  function UpOf(out: seq<Byte>, at: nat, stride: nat, first: bool): Byte
    requires first || stride <= at < |out| + stride
  {
    if first then 0 else out[at - stride]
  }

  lemma ReadAbove(out: seq<Byte>, base: nat, stride: nat, first: bool, prior: seq<Byte>, imgN: nat, outN: nat, x: nat, i: nat, k: nat)
    requires Above(out, base, stride, first, prior, imgN, outN, x) && i < x && k < imgN && |prior| == Times(x, imgN)
    ensures Times(i, imgN) + k < |prior|
    ensures !first ==> stride <= base && base + Times(i, outN) + k - stride < |out|
    ensures UpOf(out, base + Times(i, outN) + k, stride, first) == prior[Times(i, imgN) + k]
  {
    TimesAt(i, k, imgN, x);
    if !first { assert Same(out, base - stride, prior, imgN, outN, i, k); }
  }

  /** The loop over the first pixel's samples. */
  method FirstPixel(out: array<Byte>, cur: nat, stride: nat, pix: seq<Byte>, filter: nat, first: bool)
    requires cur + |pix| <= out.Length && (!first ==> |pix| <= stride <= cur)
    modifies out
    ensures out[..cur] == old(out[..cur])
    ensures forall k :: 0 <= k < |pix| ==> out[cur + k] == FirstSample(filter, pix[k], UpOf(out[..], cur + k, stride, first))
  {
    for k := 0 to |pix|
      invariant out[..cur] == old(out[..cur])
      invariant forall q :: 0 <= q < k ==> out[cur + q] == FirstSample(filter, pix[q], UpOf(out[..], cur + q, stride, first))
    {
      out[cur + k] := FirstSample(filter, pix[k], if first then 0 else out[cur + k - stride]);
    }
  }

  /** What the sample k places behind cur must be; bpp is the distance to the left one. */
  predicate SampleAt(out: seq<Byte>, cur: nat, k: nat, stride: nat, raw: Byte, filter: nat, first: bool, bpp: nat)
    requires bpp <= cur && cur + k < |out| && (!first ==> stride + bpp <= cur)
  {
    var at := cur + k;
    out[at] == Sample(filter, raw, out[at - bpp], if first then 0 else out[at - stride], if first then 0 else out[at - stride - bpp])
  }

  predicate SamplesAt(out: seq<Byte>, cur: nat, stride: nat, pix: seq<Byte>, filter: nat, first: bool, bpp: nat)
    requires bpp <= cur && cur + |pix| <= |out| && (!first ==> stride + bpp <= cur)
  {
    forall k :: 0 <= k < |pix| ==> SampleAt(out, cur, k, stride, pix[k], filter, first, bpp)
  }

  /** The loop over the samples of another pixel, or of all others when no alpha is
      inserted. */
  method OtherSamples(out: array<Byte>, cur: nat, stride: nat, pix: seq<Byte>, filter: nat, first: bool, bpp: nat)
    requires 0 < bpp <= cur && cur + |pix| <= out.Length && 0 < stride && (!first ==> stride + bpp <= cur)
    modifies out
    ensures out[..cur] == old(out[..cur]) && SamplesAt(out[..], cur, stride, pix, filter, first, bpp)
  {
    for k := 0 to |pix|
      invariant out[..cur] == old(out[..cur])
      invariant forall q :: 0 <= q < k ==> SampleAt(out[..], cur, q, stride, pix[q], filter, first, bpp)
    {
      var at := cur + k;
      ghost var before := out[..];
      out[at] := Sample(filter, pix[k], out[at - bpp], if first then 0 else out[at - stride], if first then 0 else out[at - stride - bpp]);
      assert out[..] == before[at := out[at]];
      forall q | 0 <= q < k ensures SampleAt(out[..], cur, q, stride, pix[q], filter, first, bpp) {
        assert SampleAt(before, cur, q, stride, pix[q], filter, first, bpp);
      }
    }
  }

  lemma FirstPixelUndone(out: seq<Byte>, base: nat, stride: nat, ft: nat, first: bool, prior: seq<Byte>, line: seq<Byte>, imgN: nat, outN: nat, x: nat)
    requires ft <= 4 && 0 < imgN && 0 < x && |line| == |prior| == Times(x, imgN) && Above(out, base, stride, first, prior, imgN, outN, x)
    requires imgN <= |line| && base + imgN <= |out| && (first || stride <= base)
    requires forall k :: 0 <= k < imgN ==> out[base + k] == FirstSample(FilterFor(ft, first), line[..imgN][k], UpOf(out, base + k, stride, first))
    ensures Undone(ft, out[base..base + imgN], prior, line, imgN)
  {
    var px := out[base..base + imgN];
    forall k | 0 <= k < |px| ensures px[k] == FirstSample(FilterFor(ft, first), line[k], prior[k]) {
      assert line[..imgN][k] == line[k];
      ReadAbove(out, base, stride, first, prior, imgN, outN, x, 0, k);
    }
    UndoneFirst(ft, first, prior, line, imgN, px);
  }

  /** A sample is decoded if it was computed from the right neighbours. */
  lemma DecodedFrom(out: seq<Byte>, cur: nat, stride: nat, filter: nat, first: bool, all: seq<Byte>, prior: seq<Byte>, line: seq<Byte>, n: nat, bpp: nat, q: nat, k: nat)
    requires n <= q < |all| <= |line| <= |prior|
    requires bpp <= cur && cur + k < |out| && (first || stride + bpp <= cur)
    requires SampleAt(out, cur, k, stride, line[q], filter, first, bpp)
    requires all[q] == out[cur + k] && all[q - n] == out[cur + k - bpp]
    requires UpOf(out, cur + k, stride, first) == prior[q] && UpOf(out, cur + k - bpp, stride, first) == prior[q - n]
    ensures Decoded(filter, all, prior, line, n, q)
  {}

  /** What lies to the left of, above and upper left of sample k of pixel i. */
  predicate Around(out: seq<Byte>, cur: nat, stride: nat, first: bool, row: seq<Byte>, prior: seq<Byte>, imgN: nat, outN: nat, k: nat) {
    && imgN <= |row| && k < imgN && |row| + k < |prior| && outN <= cur && cur + k < |out| && (first || stride + outN <= cur)
    && out[cur + k - outN] == row[|row| + k - imgN]
    && UpOf(out, cur + k, stride, first) == prior[|row| + k]
    && UpOf(out, cur + k - outN, stride, first) == prior[|row| + k - imgN]
  }

  lemma AroundPixel(out: seq<Byte>, base: nat, stride: nat, first: bool, row: seq<Byte>, prior: seq<Byte>, imgN: nat, outN: nat, x: nat, i: nat, k: nat)
    requires 1 <= i < x && k < imgN <= outN && |prior| == Times(x, imgN) && Above(out, base, stride, first, prior, imgN, outN, x)
    requires |row| == Times(i, imgN) && Laid(out, base, row, imgN, outN, i)
    requires base + Times(i, outN) + imgN <= |out| && (first || stride <= base)
    ensures Around(out, base + Times(i, outN), stride, first, row, prior, imgN, outN, k)
  {
    LeftOf(out, base, row, imgN, outN, i, k);
    ReadAbove(out, base, stride, first, prior, imgN, outN, x, i, k);
    LeftAbove(out, base, stride, first, prior, imgN, outN, x, i, k);
  }

  lemma SampleDecoded(out: seq<Byte>, cur: nat, stride: nat, filter: nat, first: bool, row: seq<Byte>, px: seq<Byte>, prior: seq<Byte>, line: seq<Byte>, imgN: nat, outN: nat, k: nat)
    requires Around(out, cur, stride, first, row, prior, imgN, outN, k) && |row| + |px| <= |line| <= |prior| && k < |px|
    requires px[k] == out[cur + k] && SampleAt(out, cur, k, stride, line[|row| + k], filter, first, outN)
    ensures Decoded(filter, row + px, prior, line, imgN, |row| + k)
  {
    DecodedFrom(out, cur, stride, filter, first, row + px, prior, line, imgN, outN, |row| + k, k);
  }

  lemma LeftOf(out: seq<Byte>, base: nat, row: seq<Byte>, imgN: nat, outN: nat, i: nat, k: nat)
    requires 1 <= i && k < imgN <= outN && |row| == Times(i, imgN) && Laid(out, base, row, imgN, outN, i)
    ensures imgN <= |row| && outN <= Times(i, outN) && base + Times(i, outN) + k - outN < |out|
    ensures out[base + Times(i, outN) + k - outN] == row[|row| + k - imgN]
  {
    TimesStep(i, imgN);
    TimesStep(i, outN);
    assert Same(out, base, row, imgN, outN, i - 1, k);
  }

  lemma TimesStep(i: nat, n: nat)
    requires 1 <= i
    ensures Times(i, n) == Times(i - 1, n) + n
  {}

  lemma LeftAbove(out: seq<Byte>, base: nat, stride: nat, first: bool, prior: seq<Byte>, imgN: nat, outN: nat, x: nat, i: nat, k: nat)
    requires Above(out, base, stride, first, prior, imgN, outN, x) && 1 <= i < x && k < imgN <= outN && |prior| == Times(x, imgN)
    ensures imgN <= Times(i, imgN) && outN <= Times(i, outN) && Times(i, imgN) + k - imgN < |prior|
    ensures !first ==> stride <= base && base + Times(i, outN) + k - outN - stride < |out|
    ensures UpOf(out, base + Times(i, outN) + k - outN, stride, first) == prior[Times(i, imgN) + k - imgN]
  {
    TimesStep(i, imgN);
    TimesStep(i, outN);
    var at, q := base + Times(i - 1, outN) + k, Times(i - 1, imgN) + k;
    assert base + Times(i, outN) + k - outN == at && Times(i, imgN) + k - imgN == q;
    ReadAbove(out, base, stride, first, prior, imgN, outN, x, i - 1, k);
  }

  lemma ShiftedSample(out: seq<Byte>, cur: nat, stride: nat, line: seq<Byte>, t: nat, n: nat, filter: nat, first: bool, bpp: nat, k: nat)
    requires bpp <= cur && cur + n <= |out| && (!first ==> stride + bpp <= cur) && t + n <= |line| && k < n
    requires SamplesAt(out, cur, stride, line[t..t + n], filter, first, bpp)
    ensures SampleAt(out, cur, k, stride, line[t + k], filter, first, bpp)
  {
    assert SampleAt(out, cur, k, stride, line[t..t + n][k], filter, first, bpp);
  }

  /** Samples whose surroundings are right undo the filter. */
  lemma SurroundedUndone(out: seq<Byte>, cur: nat, stride: nat, ft: nat, first: bool, row: seq<Byte>, prior: seq<Byte>, line: seq<Byte>, imgN: nat, outN: nat)
    requires ft <= 4 && 0 < imgN <= |row| && |row| + imgN <= |line| == |prior| && cur + imgN <= |out| && outN <= cur && (first || stride + outN <= cur)
    requires first ==> forall q :: 0 <= q < |prior| ==> prior[q] == 0
    requires forall k :: 0 <= k < imgN ==> Around(out, cur, stride, first, row, prior, imgN, outN, k)
    requires SamplesAt(out, cur, stride, line[|row|..|row| + imgN], FilterFor(ft, first), first, outN)
    requires Undone(ft, row, prior, line, imgN)
    ensures Undone(ft, row + out[cur..cur + imgN], prior, line, imgN)
  {
    var px := out[cur..cur + imgN];
    var all := row + px;
    assert all[..|row|] == row;
    forall q | |row| <= q < |all| ensures Decoded(FilterFor(ft, first), all, prior, line, imgN, q) {
      ShiftedSample(out, cur, stride, line, |row|, imgN, FilterFor(ft, first), first, outN, q - |row|);
      SampleDecoded(out, cur, stride, FilterFor(ft, first), first, row, px, prior, line, imgN, outN, q - |row|);
    }
    UndoneOthers(ft, first, all, |row|, prior, line, imgN);
  }

  /** The surroundings of a pixel behind i pixels. */
  lemma AllAround(out: seq<Byte>, base: nat, cur: nat, stride: nat, first: bool, row: seq<Byte>, prior: seq<Byte>, imgN: nat, outN: nat, x: nat, i: nat)
    requires 0 < imgN <= outN && 1 <= i < x && |prior| == Times(x, imgN) && Above(out, base, stride, first, prior, imgN, outN, x)
    requires |row| == Times(i, imgN) && Laid(out, base, row, imgN, outN, i) && cur == base + Times(i, outN)
    requires cur + imgN <= |out| && (first || stride <= base)
    ensures imgN <= |row| && outN <= cur && (first || stride + outN <= cur)
    ensures first ==> forall q :: 0 <= q < |prior| ==> prior[q] == 0
    ensures forall k :: 0 <= k < imgN ==> Around(out, cur, stride, first, row, prior, imgN, outN, k)
  {
    forall k | 0 <= k < imgN ensures Around(out, cur, stride, first, row, prior, imgN, outN, k) {
      AroundPixel(out, base, stride, first, row, prior, imgN, outN, x, i, k);
    }
    TimesStep(i, imgN);
    TimesStep(i, outN);
  }

  /** The row with one more pixel lies in the output. */
  lemma LaidMore(out: seq<Byte>, base: nat, row: seq<Byte>, imgN: nat, outN: nat, i: nat)
    requires |row| == Times(i, imgN) && Laid(out, base, row, imgN, outN, i) && base + Times(i, outN) + imgN <= |out|
    ensures Laid(out, base, row + out[base + Times(i, outN)..base + Times(i, outN) + imgN], imgN, outN, i + 1)
  {
    var all := row + out[base + Times(i, outN)..base + Times(i, outN) + imgN];
    forall j, k | 0 <= j < i + 1 && 0 <= k < imgN ensures Same(out, base, all, imgN, outN, j, k) {
      if j < i { assert Same(out, base, row, imgN, outN, j, k); }
    }
  }

  /** What was laid below cur stays. */
  lemma LaidKept(out: seq<Byte>, out': seq<Byte>, base: nat, row: seq<Byte>, imgN: nat, outN: nat, x: nat)
    requires imgN <= outN && Laid(out, base, row, imgN, outN, x) && base + Times(x, outN) <= |out| && base + Times(x, outN) <= |out'|
    requires out'[..base + Times(x, outN)] == out[..base + Times(x, outN)]
    ensures Laid(out', base, row, imgN, outN, x)
  {
    forall i, k | 0 <= i < x && 0 <= k < imgN ensures Same(out', base, row, imgN, outN, i, k) {
      assert Same(out, base, row, imgN, outN, i, k);
      TimesAt(i, k, outN, x);
      assert out'[base + Times(i, outN) + k] == out'[..base + Times(x, outN)][base + Times(i, outN) + k];
    }
  }

  lemma OpaqueKept(out: seq<Byte>, out': seq<Byte>, base: nat, imgN: nat, outN: nat, x: nat)
    requires imgN <= outN <= imgN + 1 && AllOpaque(out, base, imgN, outN, x) && base + Times(x, outN) <= |out| && base + Times(x, outN) <= |out'|
    requires out'[..base + Times(x, outN)] == out[..base + Times(x, outN)]
    ensures AllOpaque(out', base, imgN, outN, x)
  {
    forall i | 0 <= i < x ensures Opaque(out', base, imgN, outN, i) {
      assert Opaque(out, base, imgN, outN, i);
      if imgN < outN {
        TimesAt(i, imgN, outN, x);
        assert out'[base + Times(i, outN) + imgN] == out'[..base + Times(x, outN)][base + Times(i, outN) + imgN];
      }
    }
  }

  lemma AboveKept(out: seq<Byte>, out': seq<Byte>, base: nat, stride: nat, first: bool, prior: seq<Byte>, imgN: nat, outN: nat, x: nat)
    requires imgN <= outN && stride == Times(x, outN) && Above(out, base, stride, first, prior, imgN, outN, x)
    requires base <= |out| && base <= |out'| && out'[..base] == out[..base]
    ensures Above(out', base, stride, first, prior, imgN, outN, x)
  {
    if !first { LaidKept(out, out', base - stride, prior, imgN, outN, x); }
  }

  lemma RestDecoded(out: seq<Byte>, base: nat, stride: nat, filter: nat, first: bool, row: seq<Byte>, prior: seq<Byte>, line: seq<Byte>, n: nat, x: nat, q: nat)
    requires 0 < n <= q < stride == Times(x, n) && |line| == |prior| == stride && base + stride <= |out| && row == out[base..base + stride]
    requires Above(out, base, stride, first, prior, n, n, x) && (first || stride <= base)
    requires SampleAt(out, base + n, q - n, stride, line[q], filter, first, n)
    ensures Decoded(filter, row, prior, line, n, q)
  {
    if !first {
      LaidFlat(out, base - stride, prior, n, x, q);
      LaidFlat(out, base - stride, prior, n, x, q - n);
    }
    DecodedFrom(out, base + n, stride, filter, first, row, prior, line, n, n, q, q - n);
  }

  /** All other samples at once, when no alpha is inserted. */
  lemma RestUndone(out: seq<Byte>, base: nat, stride: nat, ft: nat, first: bool, prior: seq<Byte>, line: seq<Byte>, n: nat, x: nat)
    requires ft <= 4 && 0 < n <= stride == Times(x, n) && |line| == |prior| == stride && base + stride <= |out|
    requires Above(out, base, stride, first, prior, n, n, x) && (first || stride <= base)
    requires Undone(ft, out[base..base + n], prior, line, n)
    requires SamplesAt(out, base + n, stride, line[n..], FilterFor(ft, first), first, n)
    ensures Undone(ft, out[base..base + stride], prior, line, n)
  {
    var row := out[base..base + stride];
    assert row[..n] == out[base..base + n];
    forall q | n <= q < |row| ensures Decoded(FilterFor(ft, first), row, prior, line, n, q) {
      assert SampleAt(out, base + n, q - n, stride, line[n..][q - n], FilterFor(ft, first), first, n);
      RestDecoded(out, base, stride, FilterFor(ft, first), first, row, prior, line, n, x, q);
    }
    UndoneOthers(ft, first, row, n, prior, line, n);
  }

  // ---- a row

  /** The first i pixels of a row are decoded: in the output, opaque, and undone. */
  ghost predicate Ready(out: seq<Byte>, base: nat, ft: nat, row: seq<Byte>, prior: seq<Byte>, line: seq<Byte>, imgN: nat, outN: nat, i: nat)
    requires ft <= 4 && 0 < imgN
  {
    && |row| == Times(i, imgN) && base + Times(i, outN) <= |out|
    && Laid(out, base, row, imgN, outN, i) && AllOpaque(out, base, imgN, outN, i) && Undone(ft, row, prior, line, imgN)
  }

  /** A row and its surroundings. */
  ghost predicate RowAt(out: seq<Byte>, base: nat, stride: nat, ft: nat, first: bool, prior: seq<Byte>, line: seq<Byte>, imgN: nat, outN: nat, x: nat) {
    && ft <= 4 && 0 < imgN <= outN <= imgN + 1 && 0 < x && stride == Times(x, outN) && base + stride <= |out|
    && |line| == |prior| == Times(x, imgN) && (first || stride <= base)
    && Above(out, base, stride, first, prior, imgN, outN, x)
  }

  /** The alpha byte completes a pixel. */
  lemma PixelReady(out: seq<Byte>, out': seq<Byte>, base: nat, ft: nat, row: seq<Byte>, prior: seq<Byte>, line: seq<Byte>, imgN: nat, outN: nat, i: nat)
    requires ft <= 4 && 0 < imgN <= outN <= imgN + 1 && |row| == Times(i, imgN) && |out'| == |out|
    requires base + Times(i, outN) + outN <= |out| && Laid(out, base, row, imgN, outN, i) && AllOpaque(out, base, imgN, outN, i)
    requires var cur := base + Times(i, outN);
      && Undone(ft, row + out[cur..cur + imgN], prior, line, imgN)
      && out'[..cur + imgN] == out[..cur + imgN] && (imgN < outN ==> out'[cur + imgN] == 255)
    ensures var cur := base + Times(i, outN); Ready(out', base, ft, row + out[cur..cur + imgN], prior, line, imgN, outN, i + 1)
  {
    var cur := base + Times(i, outN);
    LaidKept(out, out', base, row, imgN, outN, i);
    assert out'[cur..cur + imgN] == out'[..cur + imgN][cur..] && out[cur..cur + imgN] == out[..cur + imgN][cur..];
    LaidMore(out', base, row, imgN, outN, i);
    OpaqueKept(out, out', base, imgN, outN, i);
    forall j | 0 <= j < i + 1 ensures Opaque(out', base, imgN, outN, j) {
      if j < i { assert Opaque(out', base, imgN, outN, j); }
    }
  }

  lemma RowAtKept(out: seq<Byte>, out': seq<Byte>, base: nat, stride: nat, ft: nat, first: bool, prior: seq<Byte>, line: seq<Byte>, imgN: nat, outN: nat, x: nat)
    requires RowAt(out, base, stride, ft, first, prior, line, imgN, outN, x) && |out'| == |out| && out'[..base] == out[..base]
    ensures RowAt(out', base, stride, ft, first, prior, line, imgN, outN, x)
  {
    AboveKept(out, out', base, stride, first, prior, imgN, outN, x);
  }

  lemma FirstReady(out: seq<Byte>, out': seq<Byte>, base: nat, stride: nat, ft: nat, first: bool, prior: seq<Byte>, line: seq<Byte>, imgN: nat, outN: nat, x: nat)
    requires RowAt(out, base, stride, ft, first, prior, line, imgN, outN, x) && |out'| == |out| && imgN <= |line| && base + outN <= |out|
    requires forall k :: 0 <= k < imgN ==> out[base + k] == FirstSample(FilterFor(ft, first), line[..imgN][k], UpOf(out, base + k, stride, first))
    requires out'[..base + imgN] == out[..base + imgN] && (imgN < outN ==> out'[base + imgN] == 255)
    ensures Ready(out', base, ft, out[base..base + imgN], prior, line, imgN, outN, 1)
  {
    FirstPixelUndone(out, base, stride, ft, first, prior, line, imgN, outN, x);
    var px := out[base..base + imgN];
    assert [] + px == px && base + Times(0, outN) == base;
    PixelReady(out, out', base, ft, [], prior, line, imgN, outN, 0);
  }

  /** The first pixel of a row. */
  method DecodeFirst(out: array<Byte>, base: nat, stride: nat, line: seq<Byte>, ft: nat, first: bool, imgN: nat, outN: nat, ghost x: nat, ghost prior: seq<Byte>)
    returns (ghost row: seq<Byte>)
    requires RowAt(out[..], base, stride, ft, first, prior, line, imgN, outN, x) && imgN <= |line| && outN <= stride
    modifies out
    ensures out[..base] == old(out[..base]) && Ready(out[..], base, ft, row, prior, line, imgN, outN, 1)
  {
    FirstPixel(out, base, stride, line[..imgN], FilterFor(ft, first), first);
    RowAtKept(old(out[..]), out[..], base, stride, ft, first, prior, line, imgN, outN, x);
    ghost var before := out[..];
    row := before[base..base + imgN];
    if imgN != outN { out[base + imgN] := 255; }
    FirstReady(before, out[..], base, stride, ft, first, prior, line, imgN, outN, x);
  }

  lemma NextReady(out: seq<Byte>, out': seq<Byte>, base: nat, stride: nat, ft: nat, first: bool, row: seq<Byte>, prior: seq<Byte>, line: seq<Byte>, imgN: nat, outN: nat, x: nat, i: nat)
    requires RowAt(out, base, stride, ft, first, prior, line, imgN, outN, x) && |out'| == |out| && 1 <= i < x
    requires Ready(out, base, ft, row, prior, line, imgN, outN, i)
    requires |row| + imgN <= |line| && base + Times(i, outN) + outN <= |out| && outN <= Times(i, outN)
    requires SamplesAt(out, base + Times(i, outN), stride, line[|row|..|row| + imgN], FilterFor(ft, first), first, outN)
    requires var cur := base + Times(i, outN); out'[..cur + imgN] == out[..cur + imgN] && (imgN < outN ==> out'[cur + imgN] == 255)
    ensures var cur := base + Times(i, outN); Ready(out', base, ft, row + out[cur..cur + imgN], prior, line, imgN, outN, i + 1)
  {
    var cur := base + Times(i, outN);
    AllAround(out, base, cur, stride, first, row, prior, imgN, outN, x, i);
    SurroundedUndone(out, cur, stride, ft, first, row, prior, line, imgN, outN);
    PixelReady(out, out', base, ft, row, prior, line, imgN, outN, i);
  }

  /** The pixels below cur, unchanged, are still ready. */
  lemma ReadyKept(out: seq<Byte>, out': seq<Byte>, base: nat, ft: nat, row: seq<Byte>, prior: seq<Byte>, line: seq<Byte>, imgN: nat, outN: nat, i: nat)
    requires ft <= 4 && 0 < imgN <= outN <= imgN + 1 && Ready(out, base, ft, row, prior, line, imgN, outN, i)
    requires |out'| == |out| && out'[..base + Times(i, outN)] == out[..base + Times(i, outN)]
    ensures Ready(out', base, ft, row, prior, line, imgN, outN, i)
  {
    LaidKept(out, out', base, row, imgN, outN, i);
    OpaqueKept(out, out', base, imgN, outN, i);
  }

  /** Three moments: before a pixel, with its samples, and with its alpha. */
  lemma PixelDone(pre: seq<Byte>, mid: seq<Byte>, post: seq<Byte>, base: nat, cur: nat, stride: nat, pix: seq<Byte>, line: seq<Byte>, ft: nat, first: bool, imgN: nat, outN: nat, x: nat, prior: seq<Byte>, row: seq<Byte>, i: nat)
    requires RowAt(pre, base, stride, ft, first, prior, line, imgN, outN, x) && 1 <= i < x
    requires Ready(pre, base, ft, row, prior, line, imgN, outN, i) && cur == base + Times(i, outN)
    requires |row| + imgN <= |line| && cur + outN <= |pre| && outN <= Times(i, outN) && pix == line[|row|..|row| + imgN]
    requires |mid| == |pre| == |post| && mid[..cur] == pre[..cur]
    requires SamplesAt(mid, cur, stride, pix, FilterFor(ft, first), first, outN)
    requires post[..cur + imgN] == mid[..cur + imgN] && (imgN < outN ==> post[cur + imgN] == 255)
    ensures Ready(post, base, ft, row + mid[cur..cur + imgN], prior, line, imgN, outN, i + 1)
  {
    assert mid[..base] == mid[..cur][..base] && pre[..base] == pre[..cur][..base];
    RowAtKept(pre, mid, base, stride, ft, first, prior, line, imgN, outN, x);
    ReadyKept(pre, mid, base, ft, row, prior, line, imgN, outN, i);
    NextReady(mid, post, base, stride, ft, first, row, prior, line, imgN, outN, x, i);
  }

  /** Pixel i of a row with alpha inserted. */
  method DecodePixel(out: array<Byte>, base: nat, cur: nat, stride: nat, pix: seq<Byte>, ghost line: seq<Byte>, ft: nat, first: bool, imgN: nat, outN: nat, ghost x: nat, ghost prior: seq<Byte>, ghost row: seq<Byte>, ghost i: nat)
    returns (ghost row': seq<Byte>)
    requires RowAt(out[..], base, stride, ft, first, prior, line, imgN, outN, x) && 1 <= i < x
    requires Ready(out[..], base, ft, row, prior, line, imgN, outN, i) && cur == base + Times(i, outN)
    requires |row| + imgN <= |line| && cur + outN <= base + stride && outN <= Times(i, outN) && pix == line[|row|..|row| + imgN]
    modifies out
    ensures out[..cur] == old(out[..cur]) && Ready(out[..], base, ft, row', prior, line, imgN, outN, i + 1)
    ensures |row'| == |row| + imgN
  {
    OtherSamples(out, cur, stride, pix, FilterFor(ft, first), first, outN);
    ghost var mid := out[..];
    row' := row + mid[cur..cur + imgN];
    if imgN != outN { out[cur + imgN] := 255; }
    PixelDone(old(out[..]), mid, out[..], base, cur, stride, pix, line, ft, first, imgN, outN, x, prior, row, i);
  }

  /** The other pixels of a row, with alpha inserted. */
  method DecodeAlpha(out: array<Byte>, base: nat, stride: nat, x: nat, line: seq<Byte>, ft: nat, first: bool, imgN: nat, outN: nat, ghost prior: seq<Byte>, ghost row0: seq<Byte>)
    returns (ghost row: seq<Byte>)
    requires RowAt(out[..], base, stride, ft, first, prior, line, imgN, outN, x) && Ready(out[..], base, ft, row0, prior, line, imgN, outN, 1)
    modifies out
    ensures out[..base] == old(out[..base]) && Ready(out[..], base, ft, row, prior, line, imgN, outN, x)
  {
    row := row0;
    var cur, p := base + outN, imgN;
    assert Times(1, outN) == outN && Times(1, imgN) == imgN;
    for i := 1 to x
      invariant out[..base] == old(out[..base]) && cur == base + Times(i, outN) && p == |row| == Times(i, imgN)
      invariant RowAt(out[..], base, stride, ft, first, prior, line, imgN, outN, x) && Ready(out[..], base, ft, row, prior, line, imgN, outN, i)
    {
      TimesMonotone(i, x, imgN);
      TimesMonotone(i, x, outN);
      TimesMonotone(1, i, outN);
      ghost var before := out[..];
      row := DecodePixel(out, base, cur, stride, line[p..p + imgN], line, ft, first, imgN, outN, x, prior, row, i);
      assert out[..base] == out[..cur][..base] && before[..base] == before[..cur][..base];
      RowAtKept(before, out[..], base, stride, ft, first, prior, line, imgN, outN, x);
      cur, p := cur + outN, p + imgN;
    }
  }

  lemma PlainReady(out: seq<Byte>, base: nat, stride: nat, ft: nat, first: bool, prior: seq<Byte>, line: seq<Byte>, n: nat, x: nat)
    requires RowAt(out, base, stride, ft, first, prior, line, n, n, x) && n <= stride
    requires Undone(ft, out[base..base + n], prior, line, n) && SamplesAt(out, base + n, stride, line[n..], FilterFor(ft, first), first, n)
    ensures Ready(out, base, ft, out[base..base + stride], prior, line, n, n, x)
  {
    RestUndone(out, base, stride, ft, first, prior, line, n, x);
    FlatLaid(out, base, out[base..base + stride], n, x);
  }

  /** The other pixels of a row, as they are. */
  method DecodePlain(out: array<Byte>, base: nat, stride: nat, line: seq<Byte>, ft: nat, first: bool, n: nat, ghost x: nat, ghost prior: seq<Byte>, ghost row0: seq<Byte>)
    returns (ghost row: seq<Byte>)
    requires RowAt(out[..], base, stride, ft, first, prior, line, n, n, x) && Ready(out[..], base, ft, row0, prior, line, n, n, 1)
    requires n <= stride
    modifies out
    ensures out[..base] == old(out[..base]) && Ready(out[..], base, ft, row, prior, line, n, n, x)
  {
    FirstAgain(out[..], base, row0, n);
    OtherSamples(out, base + n, stride, line[n..], FilterFor(ft, first), first, n);
    ghost var after := out[..];
    assert after[..base] == after[..base + n][..base] && old(out[..])[..base] == old(out[..base + n])[..base];
    assert after[base..base + n] == after[..base + n][base..] && old(out[base..base + n]) == old(out[..base + n])[base..];
    RowAtKept(old(out[..]), after, base, stride, ft, first, prior, line, n, n, x);
    PlainReady(after, base, stride, ft, first, prior, line, n, x);
    row := after[base..base + stride];
  }

  lemma FirstAgain(out: seq<Byte>, base: nat, row: seq<Byte>, n: nat)
    requires |row| == Times(1, n) && base + n <= |out| && Laid(out, base, row, n, n, 1)
    ensures row == out[base..base + n]
  {
    assert Times(1, n) == n;
    forall q | 0 <= q < n ensures row[q] == out[base..base + n][q] {
      assert Same(out, base, row, n, n, 0, q);
    }
  }

  /** One row of stbi__create_png_image_raw. */
  method DecodeRow(out: array<Byte>, base: nat, stride: nat, x: nat, line: seq<Byte>, ft: nat, first: bool, imgN: nat, outN: nat, ghost prior: seq<Byte>)
    returns (ghost row: seq<Byte>)
    requires RowAt(out[..], base, stride, ft, first, prior, line, imgN, outN, x)
    modifies out
    ensures out[..base] == old(out[..base]) && Ready(out[..], base, ft, row, prior, line, imgN, outN, x)
  {
    TimesMonotone(1, x, imgN);
    TimesMonotone(1, x, outN);
    ghost var before := out[..];
    row := DecodeFirst(out, base, stride, line, ft, first, imgN, outN, x, prior);
    RowAtKept(before, out[..], base, stride, ft, first, prior, line, imgN, outN, x);
    if imgN == outN {
      row := DecodePlain(out, base, stride, line, ft, first, imgN, x, prior, row);
    } else {
      row := DecodeAlpha(out, base, stride, x, line, ft, first, imgN, outN, prior, row);
    }
  }

  // ---- the image

  /** The raw data are the filtered image, followed by anything unless `exact`. */
  ghost predicate Encodes(raw: seq<Byte>, exact: bool, fts: seq<nat>, rows: seq<seq<Byte>>, y: nat, width: nat, bpp: nat) {
    && 0 < bpp && Image(fts, rows, width) && |rows| == y
    && var e := Encode(fts, rows, width, bpp);
      |e| <= |raw| && raw[..|e|] == e && (exact ==> |raw| == |e|)
  }

  /** Row j of the image lies in the output. */
  ghost predicate RowPainted(out: seq<Byte>, row: seq<Byte>, base: nat, imgN: nat, outN: nat, x: nat) {
    |row| == Times(x, imgN) && Laid(out, base, row, imgN, outN, x) && AllOpaque(out, base, imgN, outN, x)
  }

  /** Every sample of the image is in its place in the output, and every alpha is 255. */
  ghost predicate Painted(out: seq<Byte>, rows: seq<seq<Byte>>, imgN: nat, outN: nat, x: nat) {
    forall j :: 0 <= j < |rows| ==> RowPainted(out, rows[j], Times(j, Times(x, outN)), imgN, outN, x)
  }

  lemma {:induction false} LineBytesIsProduct(n: nat, width: nat)
    ensures LineBytes(n, width) == (width + 1) * n
    decreases n
  {
    if n > 0 {
      LineBytesIsProduct(n - 1, width);
      assert (width + 1) * n == (width + 1) * (n - 1) + (width + 1);
    }
  }

  /** Line j of a filtered image begins with a filter type. */
  lemma LineBegins(raw: seq<Byte>, exact: bool, fts: seq<nat>, rows: seq<seq<Byte>>, y: nat, width: nat, bpp: nat, j: nat)
    requires Encodes(raw, exact, fts, rows, y, width, bpp) && j < y
    ensures LineBytes(j, width) < |raw| && raw[LineBytes(j, width)] == fts[j] <= 4
  {
    EncodePrefix(fts, rows, width, bpp, j);
    EncodeLength(fts[..j], rows[..j], width, bpp);
  }

  lemma SizeRight(raw: seq<Byte>, exact: bool, fts: seq<nat>, rows: seq<seq<Byte>>, y: nat, width: nat, bpp: nat)
    requires Encodes(raw, exact, fts, rows, y, width, bpp)
    ensures LineBytes(y, width) <= |raw| && (exact ==> |raw| == LineBytes(y, width))
  {
    EncodeLength(fts, rows, width, bpp);
  }

  /** The image is unique. */
  lemma SameImage(raw: seq<Byte>, exact: bool, fts: seq<nat>, rows: seq<seq<Byte>>, fts': seq<nat>, rows': seq<seq<Byte>>, y: nat, width: nat, bpp: nat)
    requires Encodes(raw, exact, fts, rows, y, width, bpp) && Encodes(raw, exact, fts', rows', y, width, bpp)
    ensures rows == rows'
  {
    EncodeLength(fts, rows, width, bpp);
    EncodeLength(fts', rows', width, bpp);
    EncodeInjective(fts, rows, fts', rows', width, bpp);
  }

  /** One more line. */
  lemma EncodeMore(raw: seq<Byte>, p: nat, fts: seq<nat>, rows: seq<seq<Byte>>, width: nat, bpp: nat, row: seq<Byte>)
    requires 0 < bpp && Image(fts, rows, width) && |row| == width && p + 1 + width <= |raw|
    requires raw[..p] == Encode(fts, rows, width, bpp) && raw[p] <= 4
    requires Undone(raw[p], row, Prior(rows, width), raw[p + 1..p + 1 + width], bpp)
    ensures Image(fts + [raw[p]], rows + [row], width)
    ensures raw[..p + 1 + width] == Encode(fts + [raw[p]], rows + [row], width, bpp)
  {
    var fs, rs := fts + [raw[p]], rows + [row];
    assert fs[..|rows|] == fts && rs[..|rows|] == rows;
    assert FilterRow(raw[p], row, Prior(rows, width), bpp) == raw[p + 1..p + 1 + width];
    assert raw[..p + 1 + width] == raw[..p] + [raw[p]] + raw[p + 1..p + 1 + width];
  }

  lemma PaintedKept(out: seq<Byte>, out': seq<Byte>, rows: seq<seq<Byte>>, imgN: nat, outN: nat, x: nat)
    requires imgN <= outN <= imgN + 1 && Painted(out, rows, imgN, outN, x) && |out'| == |out| >= Times(|rows|, Times(x, outN))
    requires out'[..Times(|rows|, Times(x, outN))] == out[..Times(|rows|, Times(x, outN))]
    ensures Painted(out', rows, imgN, outN, x)
  {
    var stride := Times(x, outN);
    var end := Times(|rows|, stride);
    forall j | 0 <= j < |rows| ensures RowPainted(out', rows[j], Times(j, stride), imgN, outN, x) {
      assert RowPainted(out, rows[j], Times(j, stride), imgN, outN, x);
      TimesMonotone(j, |rows|, stride);
      var e := Times(j, stride) + stride;
      assert out'[..e] == out'[..end][..e] && out[..e] == out[..end][..e];
      LaidKept(out, out', Times(j, stride), rows[j], imgN, outN, x);
      OpaqueKept(out, out', Times(j, stride), imgN, outN, x);
    }
  }

  /** The rows decoded so far. */
  ghost predicate Progress(raw: seq<Byte>, out: seq<Byte>, p: nat, fts: seq<nat>, rows: seq<seq<Byte>>, width: nat, imgN: nat, outN: nat, x: nat) {
    && 0 < imgN && Image(fts, rows, width) && p == LineBytes(|rows|, width) && p <= |raw| && raw[..p] == Encode(fts, rows, width, imgN)
    && Painted(out, rows, imgN, outN, x)
  }

  lemma AboveRow(out: seq<Byte>, rows: seq<seq<Byte>>, width: nat, imgN: nat, outN: nat, x: nat)
    requires width == Times(x, imgN) && Painted(out, rows, imgN, outN, x) && forall j :: 0 <= j < |rows| ==> |rows[j]| == width
    ensures |Prior(rows, width)| == width
    ensures Above(out, Times(|rows|, Times(x, outN)), Times(x, outN), rows == [], Prior(rows, width), imgN, outN, x)
    ensures rows == [] || Times(x, outN) <= Times(|rows|, Times(x, outN))
  {
    if rows != [] {
      assert RowPainted(out, rows[|rows| - 1], Times(|rows| - 1, Times(x, outN)), imgN, outN, x);
    }
  }

  lemma RowDone(raw: seq<Byte>, out: seq<Byte>, out': seq<Byte>, p: nat, fts: seq<nat>, rows: seq<seq<Byte>>, row: seq<Byte>, width: nat, imgN: nat, outN: nat, x: nat)
    requires imgN <= outN <= imgN + 1 && width == Times(x, imgN) && Progress(raw, out, p, fts, rows, width, imgN, outN, x)
    requires p + 1 + width <= |raw| && raw[p] <= 4 && |out'| == |out|
    requires Ready(out', Times(|rows|, Times(x, outN)), raw[p], row, Prior(rows, width), raw[p + 1..p + 1 + width], imgN, outN, x)
    requires Times(|rows|, Times(x, outN)) <= |out| && out'[..Times(|rows|, Times(x, outN))] == out[..Times(|rows|, Times(x, outN))]
    ensures Progress(raw, out', p + 1 + width, fts + [raw[p]], rows + [row], width, imgN, outN, x)
  {
    EncodeMore(raw, p, fts, rows, width, imgN, row);
    PaintedKept(out, out', rows, imgN, outN, x);
    var rs := rows + [row];
    forall j | 0 <= j < |rs| ensures RowPainted(out', rs[j], Times(j, Times(x, outN)), imgN, outN, x) {
      if j < |rows| { assert RowPainted(out', rows[j], Times(j, Times(x, outN)), imgN, outN, x); }
    }
  }

  lemma WrongSize(raw: seq<Byte>, exact: bool, y: nat, width: nat, bpp: nat)
    requires |raw| < LineBytes(y, width) || (exact && |raw| != LineBytes(y, width))
    ensures forall fts, rows :: !Encodes(raw, exact, fts, rows, y, width, bpp)
  {
    forall fts, rows ensures !Encodes(raw, exact, fts, rows, y, width, bpp) {
      if Encodes(raw, exact, fts, rows, y, width, bpp) { SizeRight(raw, exact, fts, rows, y, width, bpp); }
    }
  }

  lemma WrongFilter(raw: seq<Byte>, exact: bool, y: nat, width: nat, bpp: nat, j: nat)
    requires j < y && LineBytes(j, width) < |raw| && raw[LineBytes(j, width)] > 4
    ensures forall fts, rows :: !Encodes(raw, exact, fts, rows, y, width, bpp)
  {
    forall fts, rows ensures !Encodes(raw, exact, fts, rows, y, width, bpp) {
      if Encodes(raw, exact, fts, rows, y, width, bpp) { LineBegins(raw, exact, fts, rows, y, width, bpp, j); }
    }
  }

  lemma OnlyImage(raw: seq<Byte>, exact: bool, fts: seq<nat>, rows: seq<seq<Byte>>, y: nat, width: nat, bpp: nat)
    requires Encodes(raw, exact, fts, rows, y, width, bpp)
    ensures forall fs, rs :: Encodes(raw, exact, fs, rs, y, width, bpp) ==> rs == rows
  {
    forall fs, rs | Encodes(raw, exact, fs, rs, y, width, bpp) ensures rs == rows {
      SameImage(raw, exact, fs, rs, fts, rows, y, width, bpp);
    }
  }

  /** The body of the loop over the rows. */
  method NextRow(out: array<Byte>, raw: seq<Byte>, p: nat, cur: nat, first: bool, imgN: nat, outN: nat, x: nat, stride: nat, width: nat, ghost fts: seq<nat>, ghost rows: seq<seq<Byte>>)
    returns (ghost row: seq<Byte>)
    requires 0 < imgN <= outN <= imgN + 1 && 0 < x && stride == Times(x, outN) && width == Times(x, imgN)
    requires Progress(raw, out[..], p, fts, rows, width, imgN, outN, x) && p + 1 + width <= |raw| && raw[p] <= 4
    requires cur == Times(|rows|, stride) && cur + stride <= out.Length && (first <==> rows == [])
    modifies out
    ensures Progress(raw, out[..], p + 1 + width, fts + [raw[p]], rows + [row], width, imgN, outN, x)
  {
    AboveRow(out[..], rows, width, imgN, outN, x);
    ghost var before := out[..];
    row := DecodeRow(out, cur, stride, x, raw[p + 1..p + 1 + width], raw[p], first, imgN, outN, Prior(rows, width));
    RowDone(raw, before, out[..], p, fts, rows, row, width, imgN, outN, x);
  }

  /** The loop over the rows, for data of the right size. */
  method DecodeRows(out: array<Byte>, raw: seq<Byte>, imgN: nat, outN: nat, x: nat, y: nat, stride: nat, width: nat)
    returns (ok: bool, ghost bad: nat, ghost fts: seq<nat>, ghost rows: seq<seq<Byte>>)
    requires 0 < imgN <= outN <= imgN + 1 && 0 < x && stride == Times(x, outN) && width == Times(x, imgN)
    requires out.Length == Times(y, stride) && LineBytes(y, width) <= |raw|
    modifies out
    ensures !ok ==> bad < y && LineBytes(bad, width) < |raw| && raw[LineBytes(bad, width)] > 4
    ensures ok ==> |rows| == y && Progress(raw, out[..], LineBytes(y, width), fts, rows, width, imgN, outN, x)
  {
    fts, rows, bad := [], [], 0;
    var p: nat, cur: nat := 0, 0;
    for j := 0 to y
      invariant |rows| == j && cur == Times(j, stride) && Progress(raw, out[..], p, fts, rows, width, imgN, outN, x)
    {
      LinesLeft(j, y, width);
      TimesMonotone(j, y, stride);
      var ft := raw[p];
      if ft > 4 { return false, j, fts, rows; }
      ghost var row := NextRow(out, raw, p, cur, j == 0, imgN, outN, x, stride, width, fts, rows);
      fts, rows := fts + [ft], rows + [row];
      p, cur := p + 1 + width, cur + stride;
    }
    ok := true;
  }

  /** stbi__create_png_image_raw for 8-bit samples: it succeeds exactly on the filtered
      images, and then its output is the image itself. */
  method CreateRaw(raw: seq<Byte>, imgN: nat, outN: nat, x: nat, y: nat, exact: bool) returns (ok: bool, out: array<Byte>)
    requires 0 < imgN <= outN <= imgN + 1 && 0 < x
    ensures fresh(out) && out.Length == y * (x * outN)
    ensures ok <==> exists fts, rows :: Encodes(raw, exact, fts, rows, y, imgN * x, imgN)
    ensures forall fts, rows :: Encodes(raw, exact, fts, rows, y, imgN * x, imgN) ==> Painted(out[..], rows, imgN, outN, x)
  {
    var stride, width := x * outN, imgN * x;
    TimesIsProduct(x, outN);
    TimesIsProduct(x, imgN);
    TimesIsProduct(y, stride);
    LineBytesIsProduct(y, width);
    out := new Byte[y * stride](_ => 0);
    var len := (width + 1) * y;
    if (exact && |raw| != len) || |raw| < len {
      WrongSize(raw, exact, y, width, imgN);
      return false, out;
    }
    ghost var bad, fts, rows;
    ok, bad, fts, rows := DecodeRows(out, raw, imgN, outN, x, y, stride, width);
    if ok {
      assert Encodes(raw, exact, fts, rows, y, width, imgN);
      OnlyImage(raw, exact, fts, rows, y, width, imgN);
    } else {
      WrongFilter(raw, exact, y, width, imgN, bad);
    }
  }

  lemma {:induction false} LinesLeft(j: nat, y: nat, width: nat)
    requires j < y
    ensures LineBytes(j, width) + 1 + width <= LineBytes(y, width)
    decreases y
  {
    if j < y - 1 { LinesLeft(j, y - 1, width); }
  }
}
