/**
 Rebuilding a whole image from its filtered rows, in one output buffer: the first row with
 synthetic filters, later rows from the row above, and alpha bytes inserted on the way.
 */
module PngImage {
  import opened Bytes
  import opened PngFilter

  // ---------------------------------------------------------------- the image in the data

  /** n consecutive pixels of the data. */
  function Chunks(s: seq<byte>, at: nat, n: nat, size: nat): (r: seq<Pixel>)
    requires at + Off(n, size) <= |s|
    ensures |r| == n && PixelsOk(r, size)
  {
    if n == 0 then []
    else Chunks(s, at, n - 1, size) + [s[at + Off(n - 1, size)..at + Off(n, size)]]
  }

  lemma {:induction false} FlatChunks(s: seq<byte>, at: nat, n: nat, size: nat)
    requires at + Off(n, size) <= |s|
    ensures Flat(Chunks(s, at, n, size), []) == s[at..at + Off(n, size)]
  {
    if n > 0 {
      FlatChunks(s, at, n - 1, size);
      assert Chunks(s, at, n, size)[..n - 1] == Chunks(s, at, n - 1, size);
    }
  }

  lemma {:induction false} ChunkAt(s: seq<byte>, at: nat, n: nat, size: nat, i: nat)
    requires at + Off(n, size) <= |s| && i < n
    ensures at + Off(i, size) + size <= |s|
    ensures Chunks(s, at, n, size)[i] == s[at + Off(i, size)..at + Off(i, size) + size]
  {
    if i < n - 1 {
      ChunkAt(s, at, n - 1, size, i);
    }
  }

  lemma {:induction false} ChunksFlat(ps: seq<Pixel>, head: seq<byte>, tail: seq<byte>, size: nat)
    requires PixelsOk(ps, size)
    ensures |Flat(ps, [])| == Off(|ps|, size)
    ensures Chunks(head + Flat(ps, []) + tail, |head|, |ps|, size) == ps
  {
    FlatLength(ps, [], size);
    var s := head + Flat(ps, []) + tail;
    forall i | 0 <= i < |ps| ensures Chunks(s, |head|, |ps|, size)[i] == ps[i] {
      ChunkAt(s, |head|, |ps|, size, i);
      PixelAfter(ps, head, tail, size, i);
    }
  }

  /** Pixel i behind a head. */
  lemma {:induction false} PixelAfter(ps: seq<Pixel>, head: seq<byte>, tail: seq<byte>, size: nat, i: nat)
    requires PixelsOk(ps, size) && i < |ps|
    ensures var s, o := head + Flat(ps, []) + tail, |head| + Off(i, size);
            o + size <= |s| && s[o..o + size] == ps[i]
  {
    hide Flat;
    FlatLength(ps, [], size);
    OffMono(i, |ps|, size);
    var s, o := head + Flat(ps, []) + tail, |head| + Off(i, size);
    forall k | 0 <= k < size ensures s[o + k] == ps[i][k] {
      FlatAt(ps, [], size, i, k);
    }
  }

  datatype Rows = Rows(rows: seq<seq<Pixel>>) | BadFilter

  function ZeroRow(x: nat, size: nat): (r: seq<Pixel>)
    ensures |r| == x && PixelsOk(r, size)
  {
    seq(x, _ => ZeroPixel(size))
  }

  predicate RowsOk(rows: seq<seq<Pixel>>, x: nat, size: nat) {
    forall j :: 0 <= j < |rows| ==> |rows[j]| == x && PixelsOk(rows[j], size)
  }

  function RowAbove(rows: seq<seq<Pixel>>, x: nat, size: nat): (r: seq<Pixel>)
    requires RowsOk(rows, x, size)
    ensures |r| == x && PixelsOk(r, size)
  {
    if rows == [] then ZeroRow(x, size) else rows[|rows| - 1]
  }

  /** Bytes of a filtered row: one for the filter type, then the pixels. */
  function RowSize(x: nat, size: nat): nat {
    Off(x, size) + 1
  }

  /** The first y rows of the image that the data stands for. */
  function DecodeRows(raw: seq<byte>, x: nat, y: nat, size: nat): (r: Rows)
    requires Off(y, RowSize(x, size)) <= |raw|
    ensures r.Rows? ==> |r.rows| == y && RowsOk(r.rows, x, size)
  {
    if y == 0 then Rows([])
    else
      match DecodeRows(raw, x, y - 1, size)
      case BadFilter => BadFilter
      case Rows(rows) =>
        var at := Off(y - 1, RowSize(x, size));
        if raw[at] > 4 then BadFilter
        else Rows(rows + [ReconRow(raw[at], Chunks(raw, at + 1, x, size), RowAbove(rows, x, size), size)])
  }

  /** An encoder: row j filtered with type fts[j]. */
  function EncodeRows(rows: seq<seq<Pixel>>, fts: seq<byte>, x: nat, size: nat): (r: seq<byte>)
    requires size > 0 && RowsOk(rows, x, size) && |fts| == |rows|
    requires forall j :: 0 <= j < |fts| ==> fts[j] <= 4
    decreases |rows|
  {
    if rows == [] then []
    else
      var n := |rows| - 1;
      EncodeRows(rows[..n], fts[..n], x, size) + [fts[n]]
      + EncodeRow(rows[n], RowAbove(rows[..n], x, size), fts[n], x, size)
  }

  function EncodeRow(row: seq<Pixel>, above: seq<Pixel>, ft: byte, x: nat, size: nat): (r: seq<byte>)
    requires size > 0 && |row| == |above| == x && PixelsOk(row, size) && PixelsOk(above, size) && ft <= 4
    ensures |r| == Off(x, size)
  {
    FlatLength(row, [], size);
    FlatLength(above, [], size);
    FilterBytes(ft, Flat(row, []), Flat(above, []), size)
  }

  lemma {:induction false} FlatInjective(ps: seq<Pixel>, qs: seq<Pixel>, size: nat)
    requires |ps| == |qs| && PixelsOk(ps, size) && PixelsOk(qs, size)
    requires Flat(ps, []) == Flat(qs, [])
    ensures ps == qs
  {
    ChunksFlat(ps, [], [], size);
    ChunksFlat(qs, [], [], size);
  }

  lemma {:induction false} RowRoundTrip(raw: seq<byte>, at: nat, row: seq<Pixel>, above: seq<Pixel>, ft: byte, x: nat,
                                        size: nat)
    requires size > 0 && |row| == |above| == x && PixelsOk(row, size) && PixelsOk(above, size) && ft <= 4
    requires at + Off(x, size) <= |raw|
    requires raw[at..at + Off(x, size)] == EncodeRow(row, above, ft, x, size)
    ensures ReconRow(ft, Chunks(raw, at, x, size), above, size) == row
  {
    var ps := Chunks(raw, at, x, size);
    FlatChunks(raw, at, x, size);
    FlatLength(row, [], size);
    FlatLength(above, [], size);
    FilterRoundTrip(ft, Flat(row, []), Flat(above, []), size);
    FlatRecon(ft, ps, above, size);
    FlatInjective(ReconRow(ft, ps, above, size), row, size);
  }

  /** The rows below y do not depend on the data after them. */
  lemma {:induction false} DecodePrefix(raw: seq<byte>, more: seq<byte>, x: nat, y: nat, size: nat)
    requires Off(y, RowSize(x, size)) <= |raw|
    ensures DecodeRows(raw + more, x, y, size) == DecodeRows(raw, x, y, size)
  {
    hide ReconRow, Chunks;
    if y > 0 {
      var at := Off(y - 1, RowSize(x, size));
      DecodePrefix(raw, more, x, y - 1, size);
      ChunksPrefix(raw, more, at + 1, x, size);
    }
  }

  lemma {:induction false} ChunksPrefix(s: seq<byte>, more: seq<byte>, at: nat, n: nat, size: nat)
    requires at + Off(n, size) <= |s|
    ensures Chunks(s + more, at, n, size) == Chunks(s, at, n, size)
  {
    if n > 0 {
      ChunksPrefix(s, more, at, n - 1, size);
      assert (s + more)[at + Off(n - 1, size)..at + Off(n, size)] == s[at + Off(n - 1, size)..at + Off(n, size)];
    }
  }

  /** One more encoded row is one more decoded row. */
  lemma {:induction false} LastRow(head: seq<byte>, ft: byte, body: seq<byte>, rows: seq<seq<Pixel>>, row: seq<Pixel>,
                                   x: nat, size: nat)
    requires size > 0 && RowsOk(rows, x, size) && |row| == x && PixelsOk(row, size) && ft <= 4
    requires |head| == Off(|rows|, RowSize(x, size)) && DecodeRows(head, x, |rows|, size) == Rows(rows)
    requires body == EncodeRow(row, RowAbove(rows, x, size), ft, x, size)
    ensures |head + [ft] + body| == Off(|rows| + 1, RowSize(x, size))
    ensures DecodeRows(head + [ft] + body, x, |rows| + 1, size) == Rows(rows + [row])
  {
    hide ReconRow, Chunks, EncodeRow, PixelsOk, RowAbove;
    var raw := head + [ft] + body;
    var above := RowAbove(rows, x, size);
    DecodePrefix(head, [ft] + body, x, |rows|, size);
    assert raw == head + ([ft] + body);
    BodySlice(head, ft, body);
    RowRoundTrip(raw, |head| + 1, row, above, ft, x, size);
  }

  lemma {:induction false} BodySlice(head: seq<byte>, ft: byte, body: seq<byte>)
    ensures (head + [ft] + body)[|head| + 1..|head| + 1 + |body|] == body
  {
  }

  /** Decoding inverts encoding, for every image and every choice of filters. */
  lemma {:induction false} ImageRoundTrip(rows: seq<seq<Pixel>>, fts: seq<byte>, x: nat, size: nat)
    requires size > 0 && RowsOk(rows, x, size) && |fts| == |rows|
    requires forall j :: 0 <= j < |fts| ==> fts[j] <= 4
    ensures |EncodeRows(rows, fts, x, size)| == Off(|rows|, RowSize(x, size))
    ensures DecodeRows(EncodeRows(rows, fts, x, size), x, |rows|, size) == Rows(rows)
    decreases |rows|
  {
    hide ReconRow, Chunks, EncodeRow, RowAbove;
    if rows != [] {
      var n := |rows| - 1;
      var head := EncodeRows(rows[..n], fts[..n], x, size);
      var above := RowAbove(rows[..n], x, size);
      var body := EncodeRow(rows[n], above, fts[n], x, size);
      var raw := EncodeRows(rows, fts, x, size);
      assert raw == head + [fts[n]] + body;
      ImageRoundTrip(rows[..n], fts[..n], x, size);
      LastRow(head, fts[n], body, rows[..n], rows[n], x, size);
      assert rows[..n] + [rows[n]] == rows;
    }
  }

  // ---------------------------------------------------------------- pixels in the buffer

  /** The bytes of memory from at hold the flattened row. */
  lemma {:induction false} FlatInMemory(mem: seq<byte>, at: nat, ps: seq<Pixel>, alpha: seq<byte>, size: nat, i: nat)
    requires PixelsOk(ps, size) && i < |ps|
    requires at + Off(|ps|, size + |alpha|) <= |mem|
    requires mem[at..at + Off(|ps|, size + |alpha|)] == Flat(ps, alpha)
    ensures at + Off(i, size + |alpha|) + size <= |mem|
    ensures mem[at + Off(i, size + |alpha|)..at + Off(i, size + |alpha|) + size] == ps[i]
  {
    var o := Off(i, size + |alpha|);
    OffMono(i, |ps|, size + |alpha|);
    forall k | 0 <= k < size ensures mem[at + o + k] == ps[i][k] {
      FlatAt(ps, alpha, size, i, k);
      assert mem[at..at + Off(|ps|, size + |alpha|)][o + k] == mem[at + o + k];
    }
  }

  /** Pixel j with its alpha stands at its place. */
  ghost predicate PixelIn(mem: seq<byte>, at: nat, p: Pixel, alpha: seq<byte>) {
    at + |p| + |alpha| <= |mem| && mem[at..at + |p|] == p && mem[at + |p|..at + |p| + |alpha|] == alpha
  }

  lemma {:induction false} MemoryIsFlat(mem: seq<byte>, at: nat, ps: seq<Pixel>, alpha: seq<byte>, size: nat)
    requires PixelsOk(ps, size) && at + Off(|ps|, size + |alpha|) <= |mem|
    requires forall j :: 0 <= j < |ps| ==> PixelIn(mem, at + Off(j, size + |alpha|), ps[j], alpha)
    ensures mem[at..at + Off(|ps|, size + |alpha|)] == Flat(ps, alpha)
    decreases |ps|
  {
    hide PixelIn, Flat;
    if ps == [] {
      NoPixels(mem, at, alpha);
    } else {
      var n := |ps| - 1;
      assert PixelIn(mem, at + Off(n, size + |alpha|), ps[n], alpha);
      MemoryIsFlat(mem, at, ps[..n], alpha, size);
      JoinPixel(mem, at, at + Off(n, size + |alpha|), ps, alpha);
    }
  }

  lemma {:induction false} NoPixels(mem: seq<byte>, at: nat, alpha: seq<byte>)
    requires at <= |mem|
    ensures mem[at..at] == Flat([], alpha)
  {
  }

  lemma {:induction false} JoinPixel(mem: seq<byte>, at: nat, o: nat, ps: seq<Pixel>, alpha: seq<byte>)
    requires ps != [] && at <= o <= |mem|
    requires mem[at..o] == Flat(ps[..|ps| - 1], alpha) && PixelIn(mem, o, ps[|ps| - 1], alpha)
    ensures mem[at..o + |ps[|ps| - 1]| + |alpha|] == Flat(ps, alpha)
  {
    var q, front := ps[|ps| - 1], ps[..|ps| - 1];
    var size := |q|;
    ThreeSlices(mem, at, o, o + size, o + size + |alpha|);
    assert Flat(ps, alpha) == Flat(front, alpha) + q + alpha;
    hide Flat;
    assert mem[o..o + size] == q && mem[o + size..o + size + |alpha|] == alpha;
  }

  lemma {:induction false} ThreeSlices(mem: seq<byte>, a: nat, b: nat, c: nat, d: nat)
    requires a <= b <= c <= d <= |mem|
    ensures mem[a..d] == mem[a..b] + mem[b..c] + mem[c..d]
  {
  }

  /** Memories that agree on a range agree on every part of it. */
  lemma {:induction false} SameSlice(m: seq<byte>, m': seq<byte>, a: nat, b: nat, c: nat, d: nat)
    requires a <= c <= d <= b <= |m| && |m| == |m'| && m[a..b] == m'[a..b]
    ensures m[c..d] == m'[c..d]
  {
    forall k | c <= k < d ensures m[k] == m'[k] {
      assert m[a..b][k - a] == m'[a..b][k - a];
    }
  }

  // ---------------------------------------------------------------- one row, no alpha

  /** The row loops when no channel is added: one pass over the bytes of the row. */
  method PlainRow(out: array<byte>, base: nat, raw: seq<byte>, rp: nat, ft: byte, first: bool, width: nat, fb: nat,
                  ghost prior: seq<byte>)
    requires ft <= 4 && 0 < fb <= width && base + width <= out.Length && rp + width <= |raw|
    requires |prior| == width
    requires if first then forall k :: 0 <= k < width ==> prior[k] == 0
             else base >= width && out[base - width..base] == prior
    modifies out
    ensures out[base..base + width] == ReconBytes(ft, raw[rp..rp + width], prior, fb)
    ensures forall i :: 0 <= i < out.Length && !(base <= i < base + width) ==> out[i] == old(out[i])
  {
    hide Recon, FirstByte, NextByte, ReconBytes;
    var f := CodeFilter(ft, first);
    ghost var mem := out[..];
    ghost var row := raw[rp..rp + width];
    ghost var all := ReconBytes(ft, row, prior, fb);
    var k := 0;
    while k < fb
      invariant k <= fb
      invariant forall j :: 0 <= j < k ==> out[base + j] == all[j]
      invariant forall i :: 0 <= i < out.Length && !(base <= i < base + k) ==> out[i] == mem[i]
    {
      PriorAt(mem, base, prior, first, k);
      var up: byte := if UsesPrior(f) then out[base - width + k] else 0;
      ReconAt(ft, row, prior, fb, k);
      UpMatters(f, raw[rp + k], 0, up, 0, prior[k], 0);
      SyntheticFilters(ft, first, raw[rp + k], 0, prior[k], 0);
      out[base + k] := FirstByte(f, raw[rp + k], up);
      k := k + 1;
    }
    while k < width
      invariant fb <= k <= width
      invariant forall j :: 0 <= j < k ==> out[base + j] == all[j]
      invariant forall i :: 0 <= i < out.Length && !(base <= i < base + k) ==> out[i] == mem[i]
    {
      PriorAt(mem, base, prior, first, k);
      PriorAt(mem, base, prior, first, k - fb);
      var up: byte := if UsesPrior(f) then out[base - width + k] else 0;
      var upleft: byte := if UsesPrior(f) then out[base - width + k - fb] else 0;
      ReconAt(ft, row, prior, fb, k);
      UpMatters(f, raw[rp + k], out[base + k - fb], up, upleft, prior[k], prior[k - fb]);
      SyntheticFilters(ft, first, raw[rp + k], out[base + k - fb], prior[k], prior[k - fb]);
      out[base + k] := NextByte(f, raw[rp + k], out[base + k - fb], up, upleft);
      k := k + 1;
    }
  }

  /** Where the row loop finds byte k of the prior row. */
  lemma {:induction false} PriorAt(mem: seq<byte>, base: nat, prior: seq<byte>, first: bool, k: nat)
    requires base <= |mem| && k < |prior|
    requires !first ==> base >= |prior| && mem[base - |prior|..base] == prior
    ensures !first ==> mem[base - |prior| + k] == prior[k]
  {
    if !first {
      assert mem[base - |prior|..base][k] == mem[base - |prior| + k];
    }
  }

  /** Filters that do not use the prior row give the same byte whatever stands there. */
  lemma {:induction false} UpMatters(f: nat, r: byte, left: byte, up: byte, upleft: byte, up': byte, upleft': byte)
    requires f <= 6
    requires UsesPrior(f) ==> up == up' && upleft == upleft'
    ensures FirstByte(f, r, up) == FirstByte(f, r, up')
    ensures NextByte(f, r, left, up, upleft) == NextByte(f, r, left, up', upleft')
  {
  }

  // ---------------------------------------------------------------- one row, alpha added

  /** The neighbour p of a pixel: zeros where there is none, otherwise the bytes at o. */
  ghost predicate Nearby(mem: seq<byte>, o: int, none: bool, fb: nat, p: Pixel) {
    if none then p == ZeroPixel(fb) else 0 <= o && o + fb <= |mem| && mem[o..o + fb] == p
  }

  lemma {:induction false} NearbyAt(mem: seq<byte>, o: int, none: bool, fb: nat, p: Pixel, k: nat)
    requires Nearby(mem, o, none, fb, p) && k < fb
    ensures |p| == fb
    ensures if none then p[k] == 0 else 0 <= o && o + k < |mem| && mem[o + k] == p[k]
  {
    if !none {
      assert mem[o..o + fb][k] == mem[o + k];
    }
  }

  /** The inner loop over the fb colour bytes of one pixel. */
  method WritePixel(out: array<byte>, cur: nat, raw: seq<byte>, rp: nat, ft: byte, first: bool, isFirst: bool,
                    fb: nat, ob: nat, stride: nat, ghost left: Pixel, ghost up: Pixel, ghost upleft: Pixel)
    requires ft <= 4 && fb <= ob <= stride && cur + fb <= out.Length && rp + fb <= |raw|
    requires |left| == |up| == |upleft| == fb
    requires Nearby(out[..], cur - ob, isFirst, fb, left) && Nearby(out[..], cur - stride, first, fb, up)
    requires Nearby(out[..], cur - stride - ob, first || isFirst, fb, upleft)
    modifies out
    ensures out[cur..cur + fb] == ReconPixel(ft, raw[rp..rp + fb], left, up, upleft)
    ensures forall i :: 0 <= i < out.Length && !(cur <= i < cur + fb) ==> out[i] == old(out[i])
  {
    hide Recon, FirstByte, NextByte, Nearby;
    var f := CodeFilter(ft, first);
    ghost var mem := out[..];
    ghost var v := ReconPixel(ft, raw[rp..rp + fb], left, up, upleft);
    var k := 0;
    while k < fb
      invariant k <= fb
      invariant forall j :: 0 <= j < k ==> out[cur + j] == v[j]
      invariant forall i :: 0 <= i < out.Length && !(cur <= i < cur + k) ==> out[i] == mem[i]
    {
      NearbyAt(mem, cur - ob, isFirst, fb, left, k);
      NearbyAt(mem, cur - stride, first, fb, up, k);
      NearbyAt(mem, cur - stride - ob, first || isFirst, fb, upleft, k);
      var u: byte := if UsesPrior(f) then out[cur - stride + k] else 0;
      SyntheticFilters(ft, first, raw[rp + k], left[k], up[k], upleft[k]);
      if isFirst {
        UpMatters(f, raw[rp + k], 0, u, 0, up[k], 0);
        out[cur + k] := FirstByte(f, raw[rp + k], u);
      } else {
        var ul: byte := if UsesPrior(f) then out[cur - stride - ob + k] else 0;
        UpMatters(f, raw[rp + k], left[k], u, ul, up[k], upleft[k]);
        out[cur + k] := NextByte(f, raw[rp + k], out[cur - ob + k], u, ul);
      }
      k := k + 1;
    }
  }

  /** What the pixel loop has done: i pixels written, each followed by one opaque byte. */
  ghost predicate Written(mem: seq<byte>, base: nat, ps: seq<Pixel>, i: nat, fb: nat, ob: nat)
    requires i <= |ps| && PixelsOk(ps, fb) && fb < ob
  {
    forall j :: 0 <= j < i ==>
      base + Off(j, ob) + ob <= |mem| && PixelIn(mem, base + Off(j, ob), ps[j], [255])
  }

  lemma {:induction false} WrittenNone(mem: seq<byte>, base: nat, ps: seq<Pixel>, fb: nat, ob: nat)
    requires PixelsOk(ps, fb) && fb < ob
    ensures Written(mem, base, ps, 0, fb, ob)
  {
  }

  /** Writing within pixel i leaves the pixels before it as they were. */
  lemma {:induction false} WrittenKeeps(mem: seq<byte>, mem': seq<byte>, base: nat, ps: seq<Pixel>, i: nat, fb: nat,
                                        ob: nat)
    requires i <= |ps| && PixelsOk(ps, fb) && fb < ob && |mem| == |mem'|
    requires Written(mem, base, ps, i, fb, ob) && base + Off(i, ob) <= |mem|
    requires mem'[base..base + Off(i, ob)] == mem[base..base + Off(i, ob)]
    ensures Written(mem', base, ps, i, fb, ob)
  {
    forall j | 0 <= j < i ensures PixelIn(mem', base + Off(j, ob), ps[j], [255]) {
      var o := base + Off(j, ob);
      OffMono(j, i, ob);
      assert PixelIn(mem, o, ps[j], [255]);
      SameSlice(mem, mem', base, base + Off(i, ob), o, o + fb);
      SameSlice(mem, mem', base, base + Off(i, ob), o + fb, o + fb + 1);
    }
  }

  /** One pixel of a row to which alpha is added. */
  method AlphaPixel(out: array<byte>, base: nat, cur: nat, raw: seq<byte>, ghost rp: nat, pr: nat, ft: byte,
                    first: bool, i: nat, ghost x: nat, fb: nat, ob: nat, stride: nat, ghost px: seq<Pixel>,
                    ghost res: seq<Pixel>, ghost prior: seq<Pixel>, ghost alpha: seq<byte>, ghost mem: seq<byte>)
    requires ft <= 4 && 0 < fb < ob == fb + |alpha| && i < x && rp + Off(x, fb) <= |raw|
    requires base + Off(x, ob) <= out.Length && |prior| == x && PixelsOk(prior, fb) && stride == Off(x, ob)
    requires cur == base + Off(i, ob) && cur + ob <= base + Off(x, ob) && ob <= stride
    requires pr == rp + Off(i, fb) && pr + fb <= |raw|
    requires px == Chunks(raw, rp, x, fb) && res == ReconRow(ft, px, prior, fb)
    requires if first then prior == ZeroRow(x, fb)
             else base >= stride && |mem| >= base && mem[base - stride..base] == Flat(prior, alpha)
    requires |mem| == out.Length && forall k :: 0 <= k < out.Length && !(base <= k < cur) ==> out[k] == mem[k]
    requires Written(out[..], base, res, i, fb, ob)
    modifies out
    ensures Written(out[..], base, res, i + 1, fb, ob)
    ensures forall k :: 0 <= k < out.Length && !(cur <= k < cur + ob) ==> out[k] == old(out[k])
  {
    hide ReconRow, ReconPixel, Flat, PixelIn, Written, Chunks, Off, PixelAt, ZeroRow, Nearby;
    ghost var left, upleft := PixelAt(res, i - 1, fb), PixelAt(prior, i - 1, fb);
    ReconRowAt(ft, px, prior, fb, i);
    ChunkAt(raw, rp, x, fb, i);
    ghost var before := out[..];
    Neighbours(mem, before, base, cur, res, prior, alpha, first, i, fb, ob);
    WritePixel(out, cur, raw, pr, ft, first, i == 0, fb, ob, stride, left, prior[i], upleft);
    out[cur + fb] := 255;
    WrittenStep(before, out[..], base, res, i, fb, ob);
  }

  /** The row loops when alpha is added: pixel by pixel, with an opaque byte after each. */
  method AlphaPixels(out: array<byte>, base: nat, raw: seq<byte>, rp: nat, ft: byte, first: bool, x: nat,
                     fb: nat, ob: nat, ghost prior: seq<Pixel>, ghost alpha: seq<byte>)
    requires ft <= 4 && 0 < fb < ob == fb + |alpha| && x > 0 && rp + Off(x, fb) <= |raw|
    requires base + Off(x, ob) <= out.Length && |prior| == x && PixelsOk(prior, fb)
    requires if first then prior == ZeroRow(x, fb)
             else base >= Off(x, ob) && out[base - Off(x, ob)..base] == Flat(prior, alpha)
    modifies out
    ensures Written(out[..], base, ReconRow(ft, Chunks(raw, rp, x, fb), prior, fb), x, fb, ob)
    ensures forall i :: 0 <= i < out.Length && !(base <= i < base + Off(x, ob)) ==> out[i] == old(out[i])
  {
    hide ReconRow, ReconPixel, Flat, PixelIn, Written, Chunks, Off, PixelAt, ZeroRow;
    ghost var mem := out[..];
    OffStep(0, ob);
    OffStep(0, fb);
    WrittenNone(mem, base, ReconRow(ft, Chunks(raw, rp, x, fb), prior, fb), fb, ob);
    ghost var px := Chunks(raw, rp, x, fb);
    ghost var res := ReconRow(ft, px, prior, fb);
    var stride := Off(x, ob);
    OffMono(1, x, ob);
    var i, cur, pr := 0, base, rp;
    while i < x
      invariant i <= x && cur == base + Off(i, ob) && pr == rp + Off(i, fb)
      invariant Written(out[..], base, res, i, fb, ob)
      invariant forall k :: 0 <= k < out.Length && !(base <= k < cur) ==> out[k] == mem[k]
    {
      OffMono(i, x, ob);
      OffMono(i, x, fb);
      OffStep(i, ob);
      OffStep(i, fb);
      AlphaPixel(out, base, cur, raw, rp, pr, ft, first, i, x, fb, ob, stride, px, res, prior, alpha, mem);
      i, cur, pr := i + 1, cur + ob, pr + fb;
    }
  }

  /** Where the pixel loop finds the left, upper and upper-left neighbours of pixel i. */
  lemma {:induction false} Neighbours(was: seq<byte>, mem: seq<byte>, base: nat, cur: nat, res: seq<Pixel>,
                                      prior: seq<Pixel>, alpha: seq<byte>, first: bool, i: nat, fb: nat, ob: nat)
    requires |res| == |prior| && i < |prior| && PixelsOk(res, fb) && PixelsOk(prior, fb) && fb < ob == fb + |alpha|
    requires |was| == |mem| && cur == base + Off(i, ob) <= |mem|
    requires Written(mem, base, res, i, fb, ob)
    requires forall k :: 0 <= k < |mem| && !(base <= k < cur) ==> mem[k] == was[k]
    requires if first then prior == ZeroRow(|prior|, fb)
             else base >= Off(|prior|, ob) && was[base - Off(|prior|, ob)..base] == Flat(prior, alpha)
    ensures Off(|prior|, ob) >= ob
    ensures Nearby(mem, cur - ob, i == 0, fb, PixelAt(res, i - 1, fb))
    ensures Nearby(mem, cur - Off(|prior|, ob), first, fb, prior[i])
    ensures Nearby(mem, cur - Off(|prior|, ob) - ob, first || i == 0, fb, PixelAt(prior, i - 1, fb))
  {
    hide Flat, Written, PixelIn, Nearby, Off, ZeroPixel;
    OffMono(1, |prior|, ob);
    OffStep(0, ob);
    LeftPixel(mem, base, res, i, fb, ob);
    UpPixel(was, mem, base, cur, prior, alpha, first, fb, i);
    CornerPixel(was, mem, base, cur, prior, alpha, first, fb, i);
  }

  lemma {:induction false} CornerPixel(was: seq<byte>, mem: seq<byte>, base: nat, cur: nat, prior: seq<Pixel>,
                                       alpha: seq<byte>, first: bool, fb: nat, i: nat)
    requires PixelsOk(prior, fb) && i < |prior| && |was| == |mem| && base <= cur <= |mem|
    requires if first then prior == ZeroRow(|prior|, fb)
             else
               && Off(|prior|, fb + |alpha|) <= base
               && was[base - Off(|prior|, fb + |alpha|)..base] == Flat(prior, alpha)
    requires forall k :: 0 <= k < |mem| && !(base <= k < cur) ==> mem[k] == was[k]
    ensures var ob := fb + |alpha|;
            Nearby(mem, base + Off(i, ob) - Off(|prior|, ob) - ob, first || i == 0, fb, PixelAt(prior, i - 1, fb))
  {
    hide Flat, Nearby, Off;
    var ob := fb + |alpha|;
    if i > 0 {
      OffStep(i - 1, ob);
      UpPixel(was, mem, base, cur, prior, alpha, first, fb, i - 1);
    } else {
      NoNeighbour(mem, base + Off(i, ob) - Off(|prior|, ob) - ob, fb);
    }
  }

  lemma {:induction false} NoNeighbour(mem: seq<byte>, o: int, fb: nat)
    ensures Nearby(mem, o, true, fb, ZeroPixel(fb))
  {
  }

  lemma {:induction false} LeftPixel(mem: seq<byte>, base: nat, ps: seq<Pixel>, i: nat, fb: nat, ob: nat)
    requires i <= |ps| && PixelsOk(ps, fb) && fb < ob && Written(mem, base, ps, i, fb, ob)
    ensures Nearby(mem, base + Off(i, ob) - ob, i == 0, fb, PixelAt(ps, i - 1, fb))
  {
    if i > 0 {
      OffStep(i - 1, ob);
      assert PixelIn(mem, base + Off(i - 1, ob), ps[i - 1], [255]);
    }
  }

  /** The prior row is still in place below the pixel being written. */
  lemma {:induction false} UpPixel(was: seq<byte>, mem: seq<byte>, base: nat, cur: nat, prior: seq<Pixel>,
                                   alpha: seq<byte>, first: bool, fb: nat, i: nat)
    requires PixelsOk(prior, fb) && i < |prior| && |was| == |mem| && base <= cur <= |mem|
    requires if first then prior == ZeroRow(|prior|, fb)
             else
               && Off(|prior|, fb + |alpha|) <= base
               && was[base - Off(|prior|, fb + |alpha|)..base] == Flat(prior, alpha)
    requires forall k :: 0 <= k < |mem| && !(base <= k < cur) ==> mem[k] == was[k]
    ensures Nearby(mem, base + Off(i, fb + |alpha|) - Off(|prior|, fb + |alpha|), first, fb, prior[i])
  {
    if !first {
      OffMono(i, |prior|, fb + |alpha|);
      FlatInMemory(was, base - Off(|prior|, fb + |alpha|), prior, alpha, fb, i);
    }
  }

  /** A pixel written and made opaque is one more pixel done. */
  lemma {:induction false} WrittenStep(mem: seq<byte>, mem': seq<byte>, base: nat, ps: seq<Pixel>, i: nat, fb: nat,
                                       ob: nat)
    requires i < |ps| && PixelsOk(ps, fb) && fb < ob && |mem| == |mem'|
    requires Written(mem, base, ps, i, fb, ob) && base + Off(i, ob) + ob <= |mem|
    requires mem'[base..base + Off(i, ob)] == mem[base..base + Off(i, ob)]
    requires mem'[base + Off(i, ob)..base + Off(i, ob) + fb] == ps[i]
    requires mem'[base + Off(i, ob) + fb] == 255
    ensures Written(mem', base, ps, i + 1, fb, ob)
  {
    WrittenKeeps(mem, mem', base, ps, i, fb, ob);
    assert PixelIn(mem', base + Off(i, ob), ps[i], [255]);
  }

  /** The low alpha bytes are set in the first i pixels. */
  ghost predicate LowBytesSet(mem: seq<byte>, base: nat, ps: seq<Pixel>, i: nat, ob: nat)
    requires i <= |ps|
  {
    && (forall j :: 0 <= j < i ==> PixelIn(mem, base + Off(j, ob), ps[j], [255, 255]))
    && (forall j :: i <= j < |ps| ==> PixelIn(mem, base + Off(j, ob), ps[j], [255]))
  }

  /** The pass that makes the low byte of every 16-bit alpha opaque as well. */
  method AlphaLowBytes(out: array<byte>, base: nat, x: nat, fb: nat, ob: nat, ghost ps: seq<Pixel>)
    requires |ps| == x && PixelsOk(ps, fb) && ob == fb + 2 && base + Off(x, ob) <= out.Length
    requires Written(out[..], base, ps, x, fb, ob)
    modifies out
    ensures out[base..base + Off(x, ob)] == Flat(ps, [255, 255])
    ensures forall i :: 0 <= i < out.Length && !(base <= i < base + Off(x, ob)) ==> out[i] == old(out[i])
  {
    hide PixelIn, LowBytesSet, Flat;
    ghost var mem := out[..];
    var i, cur := 0, base;
    LowBytesStart(mem, base, ps, fb, ob);
    while i < x
      invariant i <= x && cur == base + Off(i, ob)
      invariant LowBytesSet(out[..], base, ps, i, ob)
      invariant forall k :: 0 <= k < out.Length && !(base <= k < base + Off(x, ob)) ==> out[k] == mem[k]
    {
      OffMono(i, x, ob);
      ghost var before := out[..];
      out[cur + fb + 1] := 255;
      LowByteStep(before, out[..], base, ps, i, fb, ob);
      i, cur := i + 1, cur + ob;
    }
    LowBytesEnd(out[..], base, ps, fb, ob);
  }

  lemma {:induction false} LowBytesStart(mem: seq<byte>, base: nat, ps: seq<Pixel>, fb: nat, ob: nat)
    requires PixelsOk(ps, fb) && fb < ob && Written(mem, base, ps, |ps|, fb, ob)
    ensures LowBytesSet(mem, base, ps, 0, ob)
  {
    hide PixelIn, Off;
  }

  lemma {:induction false} LowBytesEnd(mem: seq<byte>, base: nat, ps: seq<Pixel>, fb: nat, ob: nat)
    requires PixelsOk(ps, fb) && ob == fb + 2 && base + Off(|ps|, ob) <= |mem|
    requires LowBytesSet(mem, base, ps, |ps|, ob)
    ensures mem[base..base + Off(|ps|, ob)] == Flat(ps, [255, 255])
  {
    hide PixelIn, Flat, Off;
    MemoryIsFlat(mem, base, ps, [255, 255], fb);
  }

  /** Setting a byte outside a pixel keeps the pixel. */
  lemma {:induction false} PixelKept(mem: seq<byte>, w: nat, v: byte, at: nat, p: Pixel, alpha: seq<byte>)
    requires w < |mem| && PixelIn(mem, at, p, alpha) && !(at <= w < at + |p| + |alpha|)
    ensures PixelIn(mem[w := v], at, p, alpha)
  {
    SameSlices(mem, w, v, at, at + |p|);
    SameSlices(mem, w, v, at + |p|, at + |p| + |alpha|);
  }

  lemma {:induction false} SameSlices(mem: seq<byte>, w: nat, v: byte, a: nat, b: nat)
    requires w < |mem| && a <= b <= |mem| && !(a <= w < b)
    ensures mem[w := v][a..b] == mem[a..b]
  {
  }

  lemma {:induction false} LowByteStep(mem: seq<byte>, mem': seq<byte>, base: nat, ps: seq<Pixel>, i: nat, fb: nat,
                                       ob: nat)
    requires i < |ps| && PixelsOk(ps, fb) && ob == fb + 2 && base + Off(|ps|, ob) <= |mem|
    requires base + Off(i, ob) + fb + 1 < |mem| && mem' == mem[base + Off(i, ob) + fb + 1 := 255]
    requires LowBytesSet(mem, base, ps, i, ob)
    ensures LowBytesSet(mem', base, ps, i + 1, ob)
  {
    hide PixelIn;
    var w := base + Off(i, ob) + fb + 1;
    forall j | 0 <= j < i ensures PixelIn(mem', base + Off(j, ob), ps[j], [255, 255]) {
      OffMono(j, i, ob);
      PixelKept(mem, w, 255, base + Off(j, ob), ps[j], [255, 255]);
    }
    SecondByte(mem, base + Off(i, ob), ps[i]);
    forall j | i < j < |ps| ensures PixelIn(mem', base + Off(j, ob), ps[j], [255]) {
      OffMono(i, j, ob);
      PixelKept(mem, w, 255, base + Off(j, ob), ps[j], [255]);
    }
  }

  lemma {:induction false} SecondByte(mem: seq<byte>, at: nat, p: Pixel)
    requires PixelIn(mem, at, p, [255]) && at + |p| + 1 < |mem|
    ensures PixelIn(mem[at + |p| + 1 := 255], at, p, [255, 255])
  {
    var mem' := mem[at + |p| + 1 := 255];
    SameSlices(mem, at + |p| + 1, 255, at, at + |p|);
    assert mem[at + |p|] == mem[at + |p|..at + |p| + 1][0];
    assert mem'[at + |p|..at + |p| + 2] == [255, 255];
  }

  /** One row with alpha, at 8 or 16 bits per sample. */
  method AlphaRow(out: array<byte>, base: nat, raw: seq<byte>, rp: nat, ft: byte, first: bool, x: nat,
                  fb: nat, bytes: nat, ghost prior: seq<Pixel>)
    requires (bytes == 1 || bytes == 2) && ft <= 4 && 0 < fb && x > 0 && rp + Off(x, fb) <= |raw|
    requires base + Off(x, fb + bytes) <= out.Length && |prior| == x && PixelsOk(prior, fb)
    requires if first then prior == ZeroRow(x, fb)
             else base >= Off(x, fb + bytes) && out[base - Off(x, fb + bytes)..base] == Flat(prior, Opaque(bytes))
    modifies out
    ensures out[base..base + Off(x, fb + bytes)]
            == Flat(ReconRow(ft, Chunks(raw, rp, x, fb), prior, fb), Opaque(bytes))
    ensures forall i :: 0 <= i < out.Length && !(base <= i < base + Off(x, fb + bytes)) ==> out[i] == old(out[i])
  {
    hide ReconRow, PixelIn, Flat, Chunks;
    ghost var res := ReconRow(ft, Chunks(raw, rp, x, fb), prior, fb);
    AlphaPixels(out, base, raw, rp, ft, first, x, fb, fb + bytes, prior, Opaque(bytes));
    if bytes == 2 {
      AlphaLowBytes(out, base, x, fb, fb + 2, res);
    } else {
      MemoryIsFlat(out[..], base, res, [255], fb);
    }
  }

  /** The alpha inserted after a pixel: 255 in each byte. */
  function Opaque(bytes: nat): (r: seq<byte>)
    requires bytes <= 2
    ensures |r| == bytes
  {
    if bytes == 0 then [] else if bytes == 1 then [255] else [255, 255]
  }

  // ---------------------------------------------------------------- the image

  /** All rows in the output buffer, each pixel with its alpha. */
  function FlatRows(rows: seq<seq<Pixel>>, alpha: seq<byte>): (r: seq<byte>) {
    if rows == [] then [] else FlatRows(rows[..|rows| - 1], alpha) + Flat(rows[|rows| - 1], alpha)
  }

  datatype ImageResult = Image(out: seq<byte>) | NotEnoughPixels | InvalidFilter

  /** One row of either kind: alpha bytes per pixel is 0 when no channel is added. */
  method UnfilterRow(out: array<byte>, base: nat, raw: seq<byte>, rp: nat, ft: byte, first: bool, x: nat,
                     fb: nat, bytes: nat, ghost prior: seq<Pixel>)
    requires bytes <= 2 && ft <= 4 && 0 < fb && x > 0 && rp + Off(x, fb) <= |raw|
    requires base + Off(x, fb + bytes) <= out.Length && |prior| == x && PixelsOk(prior, fb)
    requires if first then prior == ZeroRow(x, fb)
             else base >= Off(x, fb + bytes) && out[base - Off(x, fb + bytes)..base] == Flat(prior, Opaque(bytes))
    modifies out
    ensures out[base..base + Off(x, fb + bytes)]
            == Flat(ReconRow(ft, Chunks(raw, rp, x, fb), prior, fb), Opaque(bytes))
    ensures forall i :: 0 <= i < out.Length && !(base <= i < base + Off(x, fb + bytes)) ==> out[i] == old(out[i])
  {
    hide ReconRow, ReconBytes;
    if bytes > 0 {
      AlphaRow(out, base, raw, rp, ft, first, x, fb, bytes, prior);
    } else {
      OffMono(1, x, fb);
      FlatLength(prior, [], fb);
      if first {
        FlatZero(x, fb);
      }
      FlatChunks(raw, rp, x, fb);
      FlatRecon(ft, Chunks(raw, rp, x, fb), prior, fb);
      PlainRow(out, base, raw, rp, ft, first, Off(x, fb), fb, Flat(prior, []));
    }
  }

  lemma {:induction false} FlatZero(x: nat, size: nat)
    ensures |Flat(ZeroRow(x, size), [])| == Off(x, size)
    ensures forall k :: 0 <= k < Off(x, size) ==> Flat(ZeroRow(x, size), [])[k] == 0
  {
    FlatLength(ZeroRow(x, size), [], size);
    if x > 0 {
      FlatZero(x - 1, size);
      assert ZeroRow(x, size)[..x - 1] == ZeroRow(x - 1, size);
    }
  }

  /**
   `stbi__create_png_image_raw` for 8 and 16 bits per sample: the buffer ends up holding the
   decoded image with opaque alpha inserted, or the data is rejected.
   */
  method CreateImageRaw(raw: seq<byte>, imgN: nat, outN: nat, x: nat, y: nat, depth: nat) returns (r: ImageResult)
    requires (depth == 8 || depth == 16) && 1 <= imgN <= 4 && (outN == imgN || outN == imgN + 1) && x > 0
    ensures var bytes := if depth == 16 then 2 else 1;
            var fb := imgN * bytes;
            var alpha := Opaque(if outN == imgN then 0 else bytes);
            if |raw| < Off(y, RowSize(x, fb)) then r == NotEnoughPixels
            else
              match DecodeRows(raw, x, y, fb)
              case BadFilter => r == InvalidFilter
              case Rows(rows) => r == Image(FlatRows(rows, alpha))
  {
    hide ReconRow, Flat, Chunks, RowAbove, FlatRows, Opaque, DecodeRows, Off, RowsWritten;
    var bytes := if depth == 16 then 2 else 1;
    var fb := imgN * bytes;
    var ab := if outN == imgN then 0 else bytes;
    var stride := Off(x, fb + ab);
    if |raw| < Off(y, RowSize(x, fb)) {
      return NotEnoughPixels;
    }
    var out := new byte[Off(y, stride)](_ => 0);
    ghost var rows: seq<seq<Pixel>> := [];
    var j, base, at := 0, 0, 0;
    NoRows(out[..], x, fb, Opaque(ab));
    NoRowsDecoded(raw, x, fb);
    OffStep(0, stride);
    OffStep(0, RowSize(x, fb));
    while j < y
      invariant j <= y && base == Off(j, stride) && at == Off(j, RowSize(x, fb))
      invariant at <= Off(y, RowSize(x, fb)) && base <= out.Length
      invariant RowsOk(rows, x, fb) && |rows| == j && DecodeRows(raw, x, j, fb) == Rows(rows)
      invariant RowsWritten(out[..], base, rows, x, fb, Opaque(ab))
    {
      OffMono(j + 1, y, stride);
      OffMono(j + 1, y, RowSize(x, fb));
      OffStep(j, stride);
      OffStep(j, RowSize(x, fb));
      DecodeStep(raw, x, j, fb);
      var ft := raw[at];
      if ft > 4 {
        StillBad(raw, x, j + 1, y, fb);
        return InvalidFilter;
      }
      rows := AddRow(out, base, raw, at + 1, ft, j == 0, x, fb, ab, rows);
      j, base, at := j + 1, base + stride, at + RowSize(x, fb);
    }
    AllWritten(out[..], base, rows, x, fb, Opaque(ab));
    r := Image(out[..]);
  }

  /** What the rows decoded so far have left in the output buffer. */
  ghost predicate RowsWritten(mem: seq<byte>, base: nat, rows: seq<seq<Pixel>>, x: nat, size: nat, alpha: seq<byte>)
    requires RowsOk(rows, x, size) && base <= |mem|
  {
    && mem[..base] == FlatRows(rows, alpha)
    && (rows == [] ==> RowAbove(rows, x, size) == ZeroRow(x, size))
    && (rows != [] ==>
          var stride := Off(x, size + |alpha|);
          base >= stride && mem[base - stride..base] == Flat(RowAbove(rows, x, size), alpha))
  }

  lemma {:induction false} AllWritten(mem: seq<byte>, base: nat, rows: seq<seq<Pixel>>, x: nat, size: nat,
                                      alpha: seq<byte>)
    requires RowsOk(rows, x, size) && base == |mem| && RowsWritten(mem, base, rows, x, size, alpha)
    ensures mem == FlatRows(rows, alpha)
  {
    assert mem[..base] == mem;
  }

  /** One row of the loop: rebuilt from the row above, behind the rows before. */
  method AddRow(out: array<byte>, base: nat, raw: seq<byte>, rp: nat, ft: byte, first: bool, x: nat, fb: nat, ab: nat,
                ghost rows: seq<seq<Pixel>>) returns (ghost more: seq<seq<Pixel>>)
    requires ab <= 2 && ft <= 4 && 0 < fb && x > 0 && rp + Off(x, fb) <= |raw|
    requires base + Off(x, fb + ab) <= out.Length && RowsOk(rows, x, fb) && (first <==> rows == [])
    requires RowsWritten(out[..], base, rows, x, fb, Opaque(ab))
    modifies out
    ensures more == rows + [ReconRow(ft, Chunks(raw, rp, x, fb), RowAbove(rows, x, fb), fb)]
    ensures RowsOk(more, x, fb) && RowsWritten(out[..], base + Off(x, fb + ab), more, x, fb, Opaque(ab))
  {
    hide ReconRow, Flat, Chunks, RowAbove, FlatRows, Opaque, Off;
    ghost var above, stride := RowAbove(rows, x, fb), Off(x, fb + ab);
    ghost var row := ReconRow(ft, Chunks(raw, rp, x, fb), above, fb);
    ghost var before := out[..];
    more := rows + [row];
    UnfilterRow(out, base, raw, rp, ft, first, x, fb, ab, above);
    assert out[..base] == before[..base];
    NewRow(out[..], base, base + stride, rows, row, x, fb, Opaque(ab));
  }

  lemma {:induction false} NoRows(mem: seq<byte>, x: nat, size: nat, alpha: seq<byte>)
    ensures RowsWritten(mem, 0, [], x, size, alpha)
  {
  }

  lemma {:induction false} NoRowsDecoded(raw: seq<byte>, x: nat, size: nat)
    ensures Off(0, RowSize(x, size)) == 0 && DecodeRows(raw, x, 0, size) == Rows([])
  {
  }

  /** What one more row of data does to the decoded image. */
  lemma {:induction false} DecodeStep(raw: seq<byte>, x: nat, j: nat, size: nat)
    requires Off(j, RowSize(x, size)) + RowSize(x, size) == Off(j + 1, RowSize(x, size)) <= |raw|
    requires DecodeRows(raw, x, j, size).Rows?
    ensures var at := Off(j, RowSize(x, size));
            var rows := DecodeRows(raw, x, j, size).rows;
            DecodeRows(raw, x, j + 1, size) ==
            if raw[at] > 4 then BadFilter
            else Rows(rows + [ReconRow(raw[at], Chunks(raw, at + 1, x, size), RowAbove(rows, x, size), size)])
  {
    hide Chunks, ReconRow, RowAbove;
  }

  lemma {:induction false} NewRow(mem: seq<byte>, a: nat, b: nat, rows: seq<seq<Pixel>>, row: seq<Pixel>, x: nat,
                                  size: nat,
                                  alpha: seq<byte>)
    requires a <= b <= |mem| && mem[..a] == FlatRows(rows, alpha) && mem[a..b] == Flat(row, alpha)
    requires RowsOk(rows, x, size) && |row| == x && PixelsOk(row, size)
    ensures mem[..b] == FlatRows(rows + [row], alpha)
    ensures RowAbove(rows + [row], x, size) == row
  {
    assert (rows + [row])[..|rows|] == rows;
    assert mem[..b] == mem[..a] + mem[a..b];
  }

  lemma {:induction false} StillBad(raw: seq<byte>, x: nat, j: nat, y: nat, size: nat)
    requires j <= y && Off(y, RowSize(x, size)) <= |raw| && Off(j, RowSize(x, size)) <= |raw|
    requires DecodeRows(raw, x, j, size) == BadFilter
    ensures DecodeRows(raw, x, y, size) == BadFilter
  {
    hide Chunks, ReconRow, RowAbove;
    if j < y {
      OffMono(j, y - 1, RowSize(x, size));
      StillBad(raw, x, j, y - 1, size);
    }
  }
}
