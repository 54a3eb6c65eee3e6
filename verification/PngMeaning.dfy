/**
 Decoded images byte by byte, in the numbers of RFC 2083: where a byte lies in the data and in the output, and what the
 filter types of section 6 predict it to be.
 */
module PngMeaning {
  import opened Bytes
  import opened PngFilter
  import opened PngImage
  import Interlaced

  // ---------------------------------------------------------------- predictions

  function Distance(a: int, b: int): (d: nat) {
    if a < b then b - a else a - b
  }

  /**
   p is what filter type ft predicts from the bytes to the left, above, and above to the left: nothing, the first, the
   second, their average rounded down, or the one nearest to left + above - corner, the first of them that is.
   */
  predicate Predicts(ft: nat, left: int, above: int, corner: int, p: int) {
    if ft == 0 then p == 0
    else if ft == 1 then p == left
    else if ft == 2 then p == above
    else if ft == 3 then 2 * p <= left + above < 2 * p + 2
    else
      var t := left + above - corner;
      && (p == left || p == above || p == corner)
      && Distance(t, p) <= Distance(t, left) && Distance(t, p) <= Distance(t, above)
      && Distance(t, p) <= Distance(t, corner)
      && (Distance(t, left) == Distance(t, p) ==> p == left)
      && (Distance(t, above) == Distance(t, p) && p != left ==> p == above)
  }

  lemma {:induction false} PredictIs(ft: nat, left: byte, above: byte, corner: byte)
    requires ft <= 4
    ensures Predicts(ft, left, above, corner, Predict(ft, left, above, corner))
  {
    if ft == 4 {
      PaethNearest(left, above, corner);
    }
  }

  /** There is one prediction. */
  lemma {:induction false} OnePrediction(ft: nat, left: int, above: int, corner: int, p: int, q: int)
    requires Predicts(ft, left, above, corner, p) && Predicts(ft, left, above, corner, q)
    ensures p == q
  {
  }

  // ---------------------------------------------------------------- bytes of the image

  /** Byte k of pixel i of row j, or 0 to the left of the image and above it. */
  function ByteAt(rows: seq<seq<Pixel>>, x: nat, size: nat, j: int, i: int, k: nat): (b: byte)
    requires RowsOk(rows, x, size) && j < |rows| && i < x && k < size
  {
    if j < 0 || i < 0 then 0 else rows[j][i][k]
  }

  /** Offsets are products. */
  lemma {:induction false} OffIsProduct(n: nat, size: nat)
    ensures Off(n, size) == n * size
  {
    if n > 0 {
      OffIsProduct(n - 1, size);
      assert n * size == (n - 1) * size + size;
    }
  }

  /** Where row j begins in the data: each row is one byte longer than its pixels. */
  function RowStart(x: nat, size: nat, j: nat): (at: nat) {
    Off(j, Off(x, size) + 1)
  }

  /** The rows above stay as they are when one more is decoded. */
  lemma {:induction false} RowDecoded(raw: seq<byte>, x: nat, y: nat, size: nat, j: nat)
    requires Off(y, RowSize(x, size)) <= |raw| && DecodeRows(raw, x, y, size).Rows? && j < y
    ensures Off(j, RowSize(x, size)) < Off(j + 1, RowSize(x, size)) <= |raw|
    ensures var rows := DecodeRows(raw, x, y, size).rows;
            var at := Off(j, RowSize(x, size));
            && raw[at] <= 4 && at + 1 + Off(x, size) <= |raw| && RowsOk(rows[..j], x, size)
            && rows[j] == ReconRow(raw[at], Chunks(raw, at + 1, x, size), RowAbove(rows[..j], x, size), size)
    decreases y
  {
    hide ReconRow, Chunks, RowAbove;
    OffMono(j + 1, y, RowSize(x, size));
    var front := DecodeRows(raw, x, y - 1, size);
    var rows := DecodeRows(raw, x, y, size).rows;
    if j < y - 1 {
      RowDecoded(raw, x, y - 1, size, j);
      assert rows[..j] == front.rows[..j];
    } else {
      assert rows[..j] == front.rows;
    }
  }

  lemma {:induction false} AboveAt(rows: seq<seq<Pixel>>, x: nat, size: nat, j: nat, i: int, k: nat)
    requires RowsOk(rows, x, size) && j < |rows| && i < x && k < size
    ensures RowsOk(rows[..j], x, size)
    ensures PixelAt(RowAbove(rows[..j], x, size), i, size)[k] == ByteAt(rows, x, size, j - 1, i, k)
  {
    if j > 0 {
      assert rows[..j][j - 1] == rows[j - 1];
    }
  }

  /**
   A decoded byte is the byte of the data at its place plus, modulo 256, what its row's filter type predicts from the
   decoded bytes to its left, above it, and above to its left.
   */
  lemma {:induction false} DecodedByte(raw: seq<byte>, x: nat, y: nat, size: nat, rows: seq<seq<Pixel>>,
                                       j: nat, i: nat, k: nat)
    returns (p: int)
    requires RowStart(x, size, y) <= |raw| && DecodeRows(raw, x, y, size) == Rows(rows)
    requires j < y && i < x && k < size
    ensures |rows| == y && RowsOk(rows, x, size)
    ensures var at := RowStart(x, size, j);
            && at + 1 + Off(i, size) + k < |raw| && raw[at] <= 4
            && Predicts(raw[at], ByteAt(rows, x, size, j, i - 1, k), ByteAt(rows, x, size, j - 1, i, k),
                        ByteAt(rows, x, size, j - 1, i - 1, k), p)
            && (ByteAt(rows, x, size, j, i, k) as int - raw[at + 1 + Off(i, size) + k] as int - p) % 256 == 0
  {
    hide Predicts, Predict, Recon, ReconRow, ReconPixel, Chunks, RowAbove, DecodeRows, Off, PixelAt, ByteAt;
    var at := RowStart(x, size, j);
    RowDecoded(raw, x, y, size, j);
    var ps, above := Chunks(raw, at + 1, x, size), RowAbove(rows[..j], x, size);
    ReconRowAt(raw[at], ps, above, size, i);
    ChunkAt(raw, at + 1, x, size, i);
    var left, corner := PixelAt(rows[j], i - 1, size), PixelAt(above, i - 1, size);
    ReconPixelAt(raw[at], ps[i], left, above[i], corner, k);
    LeftAt(rows, x, size, j, i, k);
    HereAt(rows, x, size, j, i, k);
    AboveAt(rows, x, size, j, i, k);
    AboveAt(rows, x, size, j, i - 1, k);
    PixelIs(above, i, size);
    PredictIs(raw[at], left[k], above[i][k], corner[k]);
    p := Predict(raw[at], left[k], above[i][k], corner[k]);
    ReconDiffers(raw[at], ps[i][k], left[k], above[i][k], corner[k]);
  }

  lemma {:induction false} HereAt(rows: seq<seq<Pixel>>, x: nat, size: nat, j: nat, i: nat, k: nat)
    requires RowsOk(rows, x, size) && j < |rows| && i < x && k < size
    ensures ByteAt(rows, x, size, j, i, k) == rows[j][i][k]
  {
  }

  lemma {:induction false} LeftAt(rows: seq<seq<Pixel>>, x: nat, size: nat, j: nat, i: nat, k: nat)
    requires RowsOk(rows, x, size) && j < |rows| && i < x && k < size
    ensures PixelAt(rows[j], i - 1, size)[k] == ByteAt(rows, x, size, j, i - 1, k)
  {
  }

  lemma {:induction false} PixelIs(ps: seq<Pixel>, i: nat, size: nat)
    requires PixelsOk(ps, size) && i < |ps|
    ensures PixelAt(ps, i, size) == ps[i]
  {
  }

  lemma {:induction false} ReconDiffers(ft: nat, r: byte, a: byte, b: byte, c: byte)
    requires ft <= 4
    ensures (Recon(ft, r, a, b, c) as int - r as int - Predict(ft, a, b, c)) % 256 == 0
  {
    hide Predict;
    var s := r as int + Predict(ft, a, b, c);
    assert s % 256 - s == -256 * (s / 256);
  }

  /** Decoding fails exactly if some row's filter type is above 4. */
  lemma {:induction false} BadFilterIff(raw: seq<byte>, x: nat, y: nat, size: nat)
    requires RowStart(x, size, y) <= |raw|
    ensures DecodeRows(raw, x, y, size).BadFilter? <==>
              exists j: nat :: j < y && RowStart(x, size, j) < |raw| && raw[RowStart(x, size, j)] > 4
    decreases y
  {
    hide ReconRow, Chunks, RowAbove;
    if y > 0 {
      BadFilterIff(raw, x, y - 1, size);
    }
  }

  // ---------------------------------------------------------------- bytes of the output

  /** Row after row and pixel after pixel, each pixel's own bytes and then its alpha. */
  lemma {:induction false} OutputByte(rows: seq<seq<Pixel>>, alpha: seq<byte>, x: nat, size: nat,
                                      j: nat, i: nat, k: nat)
    requires RowsOk(rows, x, size) && j < |rows| && i < x && k < size + |alpha|
    ensures var at := Off(j, Off(x, size + |alpha|)) + Off(i, size + |alpha|) + k;
            at < |FlatRows(rows, alpha)|
            && FlatRows(rows, alpha)[at] == if k < size then rows[j][i][k] else alpha[k - size]
    decreases |rows|
  {
    hide Flat, Off;
    var n := |rows| - 1;
    Interlaced.FlatRowsLength(rows[..n], alpha, x, size);
    Interlaced.FlatRowsLength(rows, alpha, x, size);
    FlatAt(rows[j], alpha, size, i, k);
    FlatLength(rows[j], alpha, size);
    if j < n {
      OutputByte(rows[..n], alpha, x, size, j, i, k);
    }
  }

  /** Added alpha is opaque in every byte. */
  lemma {:induction false} AlphaOpaque(bytes: nat, k: nat)
    requires bytes <= 2 && k < bytes
    ensures |Opaque(bytes)| == bytes && Opaque(bytes)[k] == 255
  {
  }
}
