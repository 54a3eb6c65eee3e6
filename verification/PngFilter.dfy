/**
 PNG row filters (section 6 of RFC 2083) and the way `stbi__create_png_image_raw` undoes them
 for 8 and 16 bits per sample: in place, with synthetic filters for the first row, and with an
 opaque alpha inserted after every pixel when the caller asks for one more channel.
 */
module PngFilter {
  import opened Bytes

  type Pixel = seq<byte>

  // ---------------------------------------------------------------- the standard

  /** `stbi__paeth` */
  function Paeth(a: int, b: int, c: int): (r: int) {
    var p := a + b - c;
    var pa, pb, pc := Abs(p - a), Abs(p - b), Abs(p - c);
    if pa <= pb && pa <= pc then a else if pb <= pc then b else c
  }

  function Abs(x: int): nat {
    if x < 0 then -x else x
  }

  /** The neighbour nearest to a + b - c, ties going to a before b before c. */
  lemma {:induction false} PaethNearest(a: int, b: int, c: int)
    ensures var p, r := a + b - c, Paeth(a, b, c);
            && (r == a || r == b || r == c)
            && Abs(p - r) <= Abs(p - a) && Abs(p - r) <= Abs(p - b) && Abs(p - r) <= Abs(p - c)
            && (Abs(p - a) == Abs(p - r) ==> r == a)
            && (Abs(p - b) == Abs(p - r) && r != a ==> r == b)
  {
  }

  /** The prediction of filter type ft from the left, upper and upper-left bytes. */
  function Predict(ft: nat, a: byte, b: byte, c: byte): (r: int)
    requires ft <= 4
    ensures 0 <= r < 256
  {
    match ft
    case 0 => 0
    case 1 => a
    case 2 => b
    case 3 => (a as int + b as int) / 2
    case _ => Paeth(a, b, c)
  }

  function Recon(ft: nat, r: byte, a: byte, b: byte, c: byte): (v: byte)
    requires ft <= 4
  {
    (r as int + Predict(ft, a, b, c)) % 256
  }

  function Filter(ft: nat, v: byte, a: byte, b: byte, c: byte): (r: byte)
    requires ft <= 4
  {
    (v as int - Predict(ft, a, b, c)) % 256
  }

  lemma {:induction false} ReconFilter(ft: nat, v: byte, a: byte, b: byte, c: byte)
    requires ft <= 4
    ensures Recon(ft, Filter(ft, v, a, b, c), a, b, c) == v
  {
    AddBack(v, Predict(ft, a, b, c));
  }

  lemma {:induction false} AddBack(v: byte, p: int)
    requires 0 <= p < 256
    ensures ((v as int - p) % 256 + p) % 256 == v
  {
    if v as int >= p {
      assert (v as int - p) % 256 == v as int - p;
    } else {
      assert (v as int - p) % 256 == v as int - p + 256;
    }
  }

  /** Byte i of a row, or 0 left of it. */
  function At(row: seq<byte>, i: int): byte
    requires i < |row|
  {
    if i < 0 then 0 else row[i]
  }

  /** A row rebuilt byte by byte, bpp bytes to the pixel. */
  function ReconBytes(ft: nat, raw: seq<byte>, prior: seq<byte>, bpp: nat): (r: seq<byte>)
    requires ft <= 4 && bpp > 0 && |raw| == |prior|
    ensures |r| == |raw|
    decreases |raw|
  {
    if raw == [] then []
    else
      var n := |raw| - 1;
      var r := ReconBytes(ft, raw[..n], prior[..n], bpp);
      r + [Recon(ft, raw[n], At(r, n - bpp), prior[n], At(prior, n - bpp))]
  }

  function FilterBytes(ft: nat, row: seq<byte>, prior: seq<byte>, bpp: nat): (r: seq<byte>)
    requires ft <= 4 && bpp > 0 && |row| == |prior|
    ensures |r| == |row|
  {
    seq(|row|, i requires 0 <= i < |row| => Filter(ft, row[i], At(row, i - bpp), prior[i], At(prior, i - bpp)))
  }

  /** Rebuilding undoes filtering, for every filter, row and prior row. */
  lemma {:induction false} FilterRoundTrip(ft: nat, row: seq<byte>, prior: seq<byte>, bpp: nat)
    requires ft <= 4 && bpp > 0 && |row| == |prior|
    ensures ReconBytes(ft, FilterBytes(ft, row, prior, bpp), prior, bpp) == row
    decreases |row|
  {
    if row != [] {
      var n := |row| - 1;
      var f := FilterBytes(ft, row, prior, bpp);
      assert f[..n] == FilterBytes(ft, row[..n], prior[..n], bpp);
      FilterRoundTrip(ft, row[..n], prior[..n], bpp);
      ReconFilter(ft, row[n], At(row, n - bpp), prior[n], At(prior, n - bpp));
      assert row[..n] + [row[n]] == row;
    }
  }

  lemma {:induction false} ReconAt(ft: nat, raw: seq<byte>, prior: seq<byte>, bpp: nat, i: nat)
    requires ft <= 4 && bpp > 0 && |raw| == |prior| && i < |raw|
    ensures var r := ReconBytes(ft, raw, prior, bpp);
            r[i] == Recon(ft, raw[i], At(r, i - bpp), prior[i], At(prior, i - bpp))
    decreases |raw|
  {
    var n := |raw| - 1;
    if i < n {
      ReconAt(ft, raw[..n], prior[..n], bpp, i);
    }
  }

  // ---------------------------------------------------------------- synthetic filters

  const AVG_FIRST: nat := 5
  const PAETH_FIRST: nat := 6

  /** `first_row_filter` */
  const FIRST_ROW: seq<nat> := [0, 1, 0, AVG_FIRST, PAETH_FIRST]

  predicate UsesPrior(f: nat) {
    2 <= f <= 4
  }

  /** A byte of the first pixel. */
  function FirstByte(f: nat, r: byte, up: byte): (v: byte)
    requires f <= 6
  {
    match f
    case 2 => (r as int + up as int) % 256
    case 3 => (r as int + up as int / 2) % 256
    case 4 => (r as int + Paeth(0, up, 0)) % 256
    case _ => r
  }

  /** A byte of a later pixel. */
  function NextByte(f: nat, r: byte, left: byte, up: byte, upleft: byte): (v: byte)
    requires f <= 6
  {
    match f
    case 0 => r
    case 1 => (r as int + left as int) % 256
    case 2 => (r as int + up as int) % 256
    case 3 => (r as int + (up as int + left as int) / 2) % 256
    case 4 => (r as int + Paeth(left, up, upleft)) % 256
    case 5 => (r as int + left as int / 2) % 256
    case _ => (r as int + Paeth(left, 0, 0)) % 256
  }

  /** The filter the code runs for filter type ft in the given row. */
  function CodeFilter(ft: nat, first: bool): (f: nat)
    requires ft <= 4
    ensures f <= 6
    ensures first ==> !UsesPrior(f)
  {
    if first then FIRST_ROW[ft] else ft
  }

  /** With zeros on the other sides the predictor is the one value given. */
  lemma {:induction false} PaethAlone(a: byte)
    ensures Paeth(0, a, 0) == a && Paeth(a, 0, 0) == a
  {
  }

  lemma {:induction false} FirstRowFilters()
    ensures FIRST_ROW[0] == 0 && FIRST_ROW[1] == 1 && FIRST_ROW[2] == 0 && FIRST_ROW[3] == 5 && FIRST_ROW[4] == 6
  {
  }

  /** On the first row the synthetic filters are the ordinary ones over a row of zeros. */
  lemma {:induction false} SyntheticFilters(ft: nat, first: bool, r: byte, left: byte, up: byte, upleft: byte)
    requires ft <= 4
    requires first ==> up == 0 && upleft == 0
    ensures FirstByte(CodeFilter(ft, first), r, up) == Recon(ft, r, 0, up, 0)
    ensures NextByte(CodeFilter(ft, first), r, left, up, upleft) == Recon(ft, r, left, up, upleft)
  {
    hide *;
    FirstSynthetic(ft, first, r, up);
    NextSynthetic(ft, first, r, left, up, upleft);
  }

  lemma {:induction false} FirstSynthetic(ft: nat, first: bool, r: byte, up: byte)
    requires ft <= 4 && (first ==> up == 0)
    ensures FirstByte(CodeFilter(ft, first), r, up) == Recon(ft, r, 0, up, 0)
  {
    hide Paeth;
    PaethAlone(up);
    FirstRowFilters();
  }

  lemma {:induction false} NextSynthetic(ft: nat, first: bool, r: byte, left: byte, up: byte, upleft: byte)
    requires ft <= 4 && (first ==> up == 0 && upleft == 0)
    ensures NextByte(CodeFilter(ft, first), r, left, up, upleft) == Recon(ft, r, left, up, upleft)
  {
    hide Paeth;
    PaethAlone(left);
    FirstRowFilters();
  }

  // ---------------------------------------------------------------- rows of pixels

  /** n steps of the given size. */
  function Off(n: nat, size: nat): (r: nat) {
    if n == 0 then 0 else Off(n - 1, size) + size
  }

  lemma {:induction false} OffStep(n: nat, size: nat)
    ensures Off(0, size) == 0 && Off(n + 1, size) == Off(n, size) + size
  {
  }

  lemma {:induction false} OffMono(m: nat, n: nat, size: nat)
    requires m <= n
    ensures Off(m, size) <= Off(n, size)
    ensures m < n ==> Off(m, size) + size <= Off(n, size)
  {
    if m < n {
      OffMono(m, n - 1, size);
    }
  }

  predicate PixelsOk(ps: seq<Pixel>, size: nat) {
    forall i :: 0 <= i < |ps| ==> |ps[i]| == size
  }

  /** The pixels one after the other, each followed by the alpha bytes. */
  function Flat(ps: seq<Pixel>, alpha: seq<byte>): (r: seq<byte>) {
    if ps == [] then [] else Flat(ps[..|ps| - 1], alpha) + ps[|ps| - 1] + alpha
  }

  lemma {:induction false} FlatLength(ps: seq<Pixel>, alpha: seq<byte>, size: nat)
    requires PixelsOk(ps, size)
    ensures |Flat(ps, alpha)| == Off(|ps|, size + |alpha|)
  {
    if ps != [] {
      FlatLength(ps[..|ps| - 1], alpha, size);
    }
  }

  lemma {:induction false} FlatAt(ps: seq<Pixel>, alpha: seq<byte>, size: nat, i: nat, k: nat)
    requires PixelsOk(ps, size) && i < |ps| && k < size + |alpha|
    ensures Off(i, size + |alpha|) + k < |Flat(ps, alpha)|
    ensures Flat(ps, alpha)[Off(i, size + |alpha|) + k] == if k < size then ps[i][k] else alpha[k - size]
  {
    var n := |ps| - 1;
    FlatLength(ps, alpha, size);
    FlatLength(ps[..n], alpha, size);
    OffMono(i, n, size + |alpha|);
    OffMono(i, |ps|, size + |alpha|);
    if i < n {
      FlatAt(ps[..n], alpha, size, i, k);
    }
  }

  function ZeroPixel(size: nat): (p: Pixel)
    ensures |p| == size
  {
    seq(size, _ => 0)
  }

  function PixelAt(ps: seq<Pixel>, i: int, size: nat): (p: Pixel)
    requires PixelsOk(ps, size) && i < |ps|
    ensures |p| == size
  {
    if i < 0 then ZeroPixel(size) else ps[i]
  }

  function ReconPixel(ft: nat, raw: Pixel, left: Pixel, up: Pixel, upleft: Pixel): (p: Pixel)
    requires ft <= 4 && |raw| == |left| == |up| == |upleft|
    ensures |p| == |raw|
  {
    seq(|raw|, k requires 0 <= k < |raw| => Recon(ft, raw[k], left[k], up[k], upleft[k]))
  }

  /** A row rebuilt pixel by pixel. */
  function ReconRow(ft: nat, raw: seq<Pixel>, prior: seq<Pixel>, size: nat): (r: seq<Pixel>)
    requires ft <= 4 && |raw| == |prior| && PixelsOk(raw, size) && PixelsOk(prior, size)
    ensures |r| == |raw| && PixelsOk(r, size)
    decreases |raw|
  {
    if raw == [] then []
    else
      var n := |raw| - 1;
      var r := ReconRow(ft, raw[..n], prior[..n], size);
      r + [ReconPixel(ft, raw[n], PixelAt(r, n - 1, size), prior[n], PixelAt(prior, n - 1, size))]
  }

  lemma {:induction false} ReconRowAt(ft: nat, raw: seq<Pixel>, prior: seq<Pixel>, size: nat, i: nat)
    requires ft <= 4 && |raw| == |prior| && PixelsOk(raw, size) && PixelsOk(prior, size) && i < |raw|
    ensures var r := ReconRow(ft, raw, prior, size);
            r[i] == ReconPixel(ft, raw[i], PixelAt(r, i - 1, size), prior[i], PixelAt(prior, i - 1, size))
    decreases |raw|
  {
    var n := |raw| - 1;
    if i < n {
      ReconRowAt(ft, raw[..n], prior[..n], size, i);
    }
  }

  /** The last pixel of a row of bytes, or zeros before the first. */
  function Tail(row: seq<byte>, size: nat): (p: Pixel)
    ensures |p| == size
    ensures forall j :: 0 <= j < size ==> p[j] == At(row, |row| - size + j)
    decreases size
  {
    if size == 0 then [] else [At(row, |row| - size)] + Tail(row, size - 1)
  }

  lemma {:induction false} AppendByte(ft: nat, h: seq<byte>, u: seq<byte>, bpp: nat, x: byte, p: byte)
    requires ft <= 4 && bpp > 0 && |h| == |u|
    ensures var r := ReconBytes(ft, h, u, bpp);
            ReconBytes(ft, h + [x], u + [p], bpp) ==
            r + [Recon(ft, x, At(r, |h| - bpp), p, At(u, |h| - bpp))]
  {
    var n := |h|;
    assert (h + [x])[..n] == h && (u + [p])[..n] == u;
    assert At(u + [p], n - bpp) == At(u, n - bpp);
  }

  /** Within one pixel after a row, the byte a pixel back is in the row's last pixel. */
  lemma {:induction false} TailOfMore(row: seq<byte>, more: seq<byte>, size: nat)
    requires |more| < size && (|row| == 0 || |row| >= size)
    ensures At(row + more, |row| + |more| - size) == Tail(row, size)[|more|]
  {
  }

  lemma {:induction false} ReconPixelAt(ft: nat, x: Pixel, left: Pixel, up: Pixel, upleft: Pixel, k: nat)
    requires ft <= 4 && |x| == |left| == |up| == |upleft| && k < |x|
    ensures ReconPixel(ft, x, left, up, upleft)[k] == Recon(ft, x[k], left[k], up[k], upleft[k])
  {
  }

  /** Rebuilding the first k bytes of one more pixel. */
  lemma {:induction false} AppendPixel(ft: nat, h: seq<byte>, u: seq<byte>, size: nat, k: nat,
                                       x: Pixel, left: Pixel, up: Pixel, upleft: Pixel)
    requires ft <= 4 && size > 0 && k <= size && |h| == |u| && (|h| == 0 || |h| >= size)
    requires |x| == |left| == |up| == |upleft| == size
    requires left == Tail(ReconBytes(ft, h, u, size), size) && upleft == Tail(u, size)
    ensures ReconBytes(ft, h + x[..k], u + up[..k], size) ==
            ReconBytes(ft, h, u, size) + ReconPixel(ft, x, left, up, upleft)[..k]
    decreases k
  {
    hide ReconBytes, Recon, ReconPixel, Tail, At;
    var r := ReconBytes(ft, h, u, size);
    var v := ReconPixel(ft, x, left, up, upleft);
    if k == 0 {
      assert h + x[..0] == h && u + up[..0] == u && r + v[..0] == r;
    } else {
      AppendPixel(ft, h, u, size, k - 1, x, left, up, upleft);
      AppendByte(ft, h + x[..k - 1], u + up[..k - 1], size, x[k - 1], up[k - 1]);
      TailOfMore(r, v[..k - 1], size);
      TailOfMore(u, up[..k - 1], size);
      ReconPixelAt(ft, x, left, up, upleft, k - 1);
      OneByteMore(h, x, k);
      OneByteMore(u, up, k);
      OneByteMore(r, v, k);
    }
  }

  lemma {:induction false} OneByteMore(s: seq<byte>, t: seq<byte>, k: nat)
    requires 0 < k <= |t|
    ensures s + t[..k] == s + t[..k - 1] + [t[k - 1]]
  {
  }

  lemma {:induction false} LastPixel(ps: seq<Pixel>, size: nat)
    requires size > 0 && PixelsOk(ps, size)
    ensures |ps| == 0 || |Flat(ps, [])| >= size
    ensures PixelAt(ps, |ps| - 1, size) == Tail(Flat(ps, []), size)
  {
    FlatLength(ps, [], size);
    forall j | 0 <= j < size ensures PixelAt(ps, |ps| - 1, size)[j] == Tail(Flat(ps, []), size)[j] {
      if ps != [] {
        FlatAt(ps, [], size, |ps| - 1, j);
      }
    }
  }

  /** Byte by byte and pixel by pixel are the same: a pixel's left neighbour is bpp bytes back. */
  lemma {:induction false} FlatRecon(ft: nat, raw: seq<Pixel>, prior: seq<Pixel>, size: nat)
    requires ft <= 4 && size > 0 && |raw| == |prior| && PixelsOk(raw, size) && PixelsOk(prior, size)
    ensures |Flat(raw, [])| == |Flat(prior, [])|
    ensures ReconBytes(ft, Flat(raw, []), Flat(prior, []), size) == Flat(ReconRow(ft, raw, prior, size), [])
    decreases |raw|
  {
    hide ReconBytes, ReconPixel;
    FlatLength(raw, [], size);
    FlatLength(prior, [], size);
    if raw == [] {
      NoBytes(ft, size);
    } else {
      var n := |raw| - 1;
      var done := ReconRow(ft, raw[..n], prior[..n], size);
      FlatRecon(ft, raw[..n], prior[..n], size);
      LastPixel(done, size);
      LastPixel(prior[..n], size);
      var left, upleft := PixelAt(done, n - 1, size), PixelAt(prior, n - 1, size);
      AppendPixel(ft, Flat(raw[..n], []), Flat(prior[..n], []), size, size, raw[n], left, prior[n], upleft);
      FlatStep(raw, raw[..n]);
      FlatStep(prior, prior[..n]);
      var v := ReconPixel(ft, raw[n], left, prior[n], upleft);
      assert ReconRow(ft, raw, prior, size) == done + [v];
      FlatStep(done + [v], done);
      assert raw[n][..size] == raw[n] && prior[n][..size] == prior[n] && v[..size] == v;
    }
  }

  lemma {:induction false} NoBytes(ft: nat, size: nat)
    requires ft <= 4 && size > 0
    ensures ReconBytes(ft, [], [], size) == []
  {
  }

  lemma {:induction false} FlatStep(ps: seq<Pixel>, done: seq<Pixel>)
    requires |ps| == |done| + 1 && ps[..|done|] == done
    ensures Flat(ps, []) == Flat(done, []) + ps[|done|]
  {
  }
}
