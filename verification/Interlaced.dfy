/**
 A whole interlaced image: the data cut into the seven passes, each pass decoded as an image of its own with
 alpha inserted, and the pixels put in their places.
 */
module Interlaced {
  import opened Bytes
  import opened PngFilter
  import opened PngImage
  import opened Adam7

  // ---------------------------------------------------------------- what the data stands for

  datatype Decoded = Decoded(passes: Passes<Pixel>) | Short | Invalid

  /** A pass in front of the ones after it. */
  function InFront(pass: seq<seq<Pixel>>, rest: Decoded): (r: Decoded) {
    if rest.Decoded? then Decoded([pass] + rest.passes) else rest
  }

  /** Bytes of a pass: the code's `img_len`. */
  function PassLength(x: nat, y: nat, size: nat): (n: nat) {
    if x == 0 || y == 0 then 0 else Off(y, RowSize(x, size))
  }

  predicate PixelRows(pass: seq<seq<Pixel>>, size: nat) {
    forall j :: 0 <= j < |pass| ==> PixelsOk(pass[j], size)
  }

  /** Passes p and later, from the front of the data; a pass without pixels takes none of it. */
  function DecodeFrom(raw: seq<byte>, w: nat, h: nat, size: nat, p: nat): (r: Decoded)
    requires p <= PASSES
    ensures r.Decoded? ==> |r.passes| == PASSES - p
    decreases PASSES - p
  {
    if p == PASSES then Decoded([])
    else
      var x, y := PassWidth(p, w), PassHeight(p, h);
      if x == 0 || y == 0 then InFront(seq(y, _ => []), DecodeFrom(raw, w, h, size, p + 1))
      else if |raw| < PassLength(x, y, size) then Short
      else
        match DecodeRows(raw, x, y, size)
        case BadFilter => Invalid
        case Rows(rows) => InFront(rows, DecodeFrom(raw[PassLength(x, y, size)..], w, h, size, p + 1))
  }

  /** Every pass has its size. */
  lemma {:induction false} DecodedOk(raw: seq<byte>, w: nat, h: nat, size: nat, p: nat)
    requires p <= PASSES && DecodeFrom(raw, w, h, size, p).Decoded?
    ensures var ps := DecodeFrom(raw, w, h, size, p).passes;
            forall k :: 0 <= k < |ps| ==> PassOk(ps[k], p + k, w, h) && PixelRows(ps[k], size)
    decreases PASSES - p
  {
    hide PassWidth, PassHeight, DecodeRows, Off, DecodeFrom, PassOk, PixelRows;
    if p < PASSES {
      var x, y := PassWidth(p, w), PassHeight(p, h);
      DecodeOne(raw, w, h, size, p);
      if x == 0 || y == 0 {
        DecodedOk(raw, w, h, size, p + 1);
        EmptyPassOk(p, w, h, size);
      } else {
        DecodedOk(raw[PassLength(x, y, size)..], w, h, size, p + 1);
        RowsPassOk(DecodeRows(raw, x, y, size).rows, p, w, h, size);
      }
    }
  }

  lemma {:induction false} EmptyPassOk(p: nat, w: nat, h: nat, size: nat)
    requires p < PASSES && (PassWidth(p, w) == 0 || PassHeight(p, h) == 0)
    ensures var pass: seq<seq<Pixel>> := seq(PassHeight(p, h), _ => []);
            PassOk(pass, p, w, h) && PixelRows(pass, size)
  {
  }

  lemma {:induction false} RowsPassOk(rows: seq<seq<Pixel>>, p: nat, w: nat, h: nat, size: nat)
    requires p < PASSES && |rows| == PassHeight(p, h) && RowsOk(rows, PassWidth(p, w), size)
    ensures PassOk(rows, p, w, h) && PixelRows(rows, size)
  {
  }

  // ---------------------------------------------------------------- the encoder's side

  predicate Encodable(passes: Passes<Pixel>, fts: seq<seq<byte>>, w: nat, h: nat, size: nat) {
    && PassesOk(passes, w, h) && |fts| == PASSES && size > 0
    && forall p :: 0 <= p < PASSES ==>
         PixelRows(passes[p], size) && |fts[p]| == |passes[p]| && forall j :: 0 <= j < |fts[p]| ==> fts[p][j] <= 4
  }

  /** The bytes of one pass: its rows filtered, row j with type fts[j]. */
  function PassBytes(pass: seq<seq<Pixel>>, fts: seq<byte>, x: nat, size: nat): (r: seq<byte>)
    requires size > 0 && RowsOk(pass, x, size) && |fts| == |pass|
    requires forall j :: 0 <= j < |fts| ==> fts[j] <= 4
  {
    if x == 0 then [] else EncodeRows(pass, fts, x, size)
  }

  function EncodeFrom(passes: Passes<Pixel>, fts: seq<seq<byte>>, w: nat, h: nat, size: nat, p: nat): (r: seq<byte>)
    requires Encodable(passes, fts, w, h, size) && p <= PASSES
    decreases PASSES - p
  {
    if p == PASSES then []
    else
      assert PassOk(passes[p], p, w, h);
      PassBytes(passes[p], fts[p], PassWidth(p, w), size) + EncodeFrom(passes, fts, w, h, size, p + 1)
  }

  /** One encoded pass is decoded from the front of the data, and exactly its bytes are used. */
  lemma {:induction false} PassRoundTrip(pass: seq<seq<Pixel>>, fts: seq<byte>, x: nat, size: nat, more: seq<byte>)
    requires size > 0 && x > 0 && RowsOk(pass, x, size) && |fts| == |pass|
    requires forall j :: 0 <= j < |fts| ==> fts[j] <= 4
    ensures var b, n := PassBytes(pass, fts, x, size), Off(|pass|, RowSize(x, size));
            && |b| == n && DecodeRows(b + more, x, |pass|, size) == Rows(pass) && (b + more)[n..] == more
  {
    hide DecodeRows, EncodeRows, Off;
    ImageRoundTrip(pass, fts, x, size);
    DecodePrefix(PassBytes(pass, fts, x, size), more, x, |pass|, size);
  }

  /** The passes encoded one after the other are cut apart and decoded again, whatever follows them. */
  lemma {:induction false} PassesRoundTrip(passes: Passes<Pixel>, fts: seq<seq<byte>>, w: nat, h: nat, size: nat,
                                           p: nat, more: seq<byte>)
    requires Encodable(passes, fts, w, h, size) && p <= PASSES
    ensures DecodeFrom(EncodeFrom(passes, fts, w, h, size, p) + more, w, h, size, p) == Decoded(passes[p..])
    decreases PASSES - p
  {
    hide PassWidth, PassHeight, DecodeRows, Off, PassBytes, DecodeFrom;
    if p == PASSES {
      NoneFrom([] + more, w, h, size);
    } else {
      DecodeOne(EncodeFrom(passes, fts, w, h, size, p) + more, w, h, size, p);
      assert PassOk(passes[p], p, w, h) && PixelRows(passes[p], size);
      var x, y := PassWidth(p, w), PassHeight(p, h);
      var rest := EncodeFrom(passes, fts, w, h, size, p + 1) + more;
      PassesRoundTrip(passes, fts, w, h, size, p + 1, more);
      assert passes[p..] == [passes[p]] + passes[p + 1..];
      var b := PassBytes(passes[p], fts[p], x, size);
      assert EncodeFrom(passes, fts, w, h, size, p) + more == b + rest;
      if x == 0 || y == 0 {
        NoPassBytes(passes[p], fts[p], x, size);
        assert b + rest == rest;
        assert passes[p] == seq(y, _ => []);
      } else {
        PassRoundTrip(passes[p], fts[p], x, size, rest);
      }
    }
  }

  lemma {:induction false} NoneFrom(raw: seq<byte>, w: nat, h: nat, size: nat)
    ensures DecodeFrom(raw, w, h, size, PASSES) == Decoded([])
  {
  }

  lemma {:induction false} NoPassBytes(pass: seq<seq<Pixel>>, fts: seq<byte>, x: nat, size: nat)
    requires size > 0 && RowsOk(pass, x, size) && |fts| == |pass| && (x == 0 || pass == [])
    requires forall j :: 0 <= j < |fts| ==> fts[j] <= 4
    ensures PassBytes(pass, fts, x, size) == []
  {
  }

  /** An interlaced image is decoded to its pixels, for every filter of every row of every pass. */
  lemma {:induction false} InterlacedRoundTrip(img: seq<seq<Pixel>>, fts: seq<seq<byte>>, w: nat, h: nat, size: nat,
                                               more: seq<byte>, r: nat, c: nat)
    requires ImageOk(img, w, h) && w <= MAX_DIMENSION && h <= MAX_DIMENSION && r < h && c < w
    requires Encodable(Interlace(img, w, h), fts, w, h, size)
    ensures var d := DecodeFrom(EncodeFrom(Interlace(img, w, h), fts, w, h, size, 0) + more, w, h, size, 0);
            && d == Decoded(Interlace(img, w, h))
            && Source(d.passes, w, h, r, c) == img[r][c]
  {
    hide Interlace, Source, DecodeFrom, EncodeFrom;
    var ps := Interlace(img, w, h);
    PassesRoundTrip(ps, fts, w, h, size, 0, more);
    assert ps[0..] == ps;
    InterlaceRoundTrip(img, w, h, r, c);
  }

  // ---------------------------------------------------------------- where a pass lies

  /** The bytes of the passes before p: rows that are one byte longer than their pixels, and none without columns. */
  function Before(w: nat, h: nat, size: nat, p: nat): (n: nat)
    requires p <= PASSES
  {
    if p == 0 then 0
    else
      Before(w, h, size, p - 1)
      + if PassWidth(p - 1, w) == 0 then 0 else Off(PassHeight(p - 1, h), Off(PassWidth(p - 1, w), size) + 1)
  }

  /** A later pass is decoded from what is behind the ones before it. */
  lemma {:induction false} FromLater(raw: seq<byte>, w: nat, h: nat, size: nat, k: nat, p: nat)
    requires k <= p <= PASSES && DecodeFrom(raw, w, h, size, k).Decoded?
    ensures 0 <= Before(w, h, size, p) - Before(w, h, size, k) <= |raw|
    ensures var later := DecodeFrom(raw[Before(w, h, size, p) - Before(w, h, size, k)..], w, h, size, p);
            later.Decoded? && later.passes == DecodeFrom(raw, w, h, size, k).passes[p - k..]
    decreases p - k
  {
    hide DecodeFrom, PassWidth, PassHeight, DecodeRows, Off, Before;
    if k == p {
      assert raw[0..] == raw;
    } else {
      var x, y := PassWidth(k, w), PassHeight(k, h);
      DecodeOne(raw, w, h, size, k);
      NextBefore(w, h, size, k);
      if x == 0 || y == 0 {
        FromLater(raw, w, h, size, k + 1, p);
      } else {
        var n := PassLength(x, y, size);
        FromLater(raw[n..], w, h, size, k + 1, p);
        var m := Before(w, h, size, p) - Before(w, h, size, k + 1);
        assert raw[n..][m..] == raw[n + m..];
      }
    }
  }

  lemma {:induction false} NextBefore(w: nat, h: nat, size: nat, k: nat)
    requires k < PASSES
    ensures Before(w, h, size, k + 1) == Before(w, h, size, k) + PassLength(PassWidth(k, w), PassHeight(k, h), size)
  {
  }

  /** Pass p is decoded, as an image of its own, from the place where the passes before it end. */
  lemma {:induction false} PassRead(raw: seq<byte>, w: nat, h: nat, size: nat, p: nat)
    requires p < PASSES && DecodeFrom(raw, w, h, size, 0).Decoded?
    ensures var x, y, at := PassWidth(p, w), PassHeight(p, h), Before(w, h, size, p);
            var pass := DecodeFrom(raw, w, h, size, 0).passes[p];
            && at <= |raw| && |pass| == y
            && (x > 0 && y > 0 ==>
                  at + Off(y, Off(x, size) + 1) <= |raw| && DecodeRows(raw[at..], x, y, size) == Rows(pass))
            && (x == 0 ==> forall j :: 0 <= j < y ==> pass[j] == [])
  {
    hide DecodeFrom, PassWidth, PassHeight, DecodeRows, Off, Before;
    assert Before(w, h, size, 0) == 0 by { NothingBefore(w, h, size); }
    FromLater(raw, w, h, size, 0, p);
    DecodeOne(raw[Before(w, h, size, p)..], w, h, size, p);
    DecodedOk(raw, w, h, size, 0);
    var ps := DecodeFrom(raw, w, h, size, 0).passes;
    assert ps[p..][0] == ps[p] && PassOk(ps[p], 0 + p, w, h);
  }

  lemma {:induction false} NothingBefore(w: nat, h: nat, size: nat)
    ensures Before(w, h, size, 0) == 0
  {
  }

  // ---------------------------------------------------------------- alpha and the output of a pass

  function RowAlpha(row: seq<Pixel>, alpha: seq<byte>): (r: seq<Pixel>)
    ensures |r| == |row|
  {
    seq(|row|, i requires 0 <= i < |row| => row[i] + alpha)
  }

  function PassAlpha(pass: seq<seq<Pixel>>, alpha: seq<byte>): (r: seq<seq<Pixel>>)
    ensures |r| == |pass|
  {
    seq(|pass|, j requires 0 <= j < |pass| => RowAlpha(pass[j], alpha))
  }

  function AllAlpha(passes: Passes<Pixel>, alpha: seq<byte>): (r: Passes<Pixel>)
    ensures |r| == |passes|
  {
    seq(|passes|, p requires 0 <= p < |passes| => PassAlpha(passes[p], alpha))
  }

  /** The rows of pixels in an output buffer. */
  function CutRows(out: seq<byte>, x: nat, y: nat, size: nat): (rows: seq<seq<Pixel>>)
    requires Off(y, Off(x, size)) <= |out|
    ensures |rows| == y && RowsOk(rows, x, size)
  {
    if y == 0 then []
    else CutRows(out, x, y - 1, size) + [Chunks(out, Off(y - 1, Off(x, size)), x, size)]
  }

  lemma {:induction false} FlatAlpha(ps: seq<Pixel>, alpha: seq<byte>)
    ensures Flat(ps, alpha) == Flat(RowAlpha(ps, alpha), [])
  {
    if ps != [] {
      var n := |ps| - 1;
      FlatAlpha(ps[..n], alpha);
      assert RowAlpha(ps, alpha)[..n] == RowAlpha(ps[..n], alpha);
    }
  }

  lemma {:induction false} FlatRowsLength(rows: seq<seq<Pixel>>, alpha: seq<byte>, x: nat, size: nat)
    requires RowsOk(rows, x, size)
    ensures |FlatRows(rows, alpha)| == Off(|rows|, Off(x, size + |alpha|))
  {
    if rows != [] {
      var n := |rows| - 1;
      FlatRowsLength(rows[..n], alpha, x, size);
      FlatLength(rows[n], alpha, size);
    }
  }

  lemma {:induction false} AlphaOk(row: seq<Pixel>, alpha: seq<byte>, size: nat)
    requires PixelsOk(row, size)
    ensures PixelsOk(RowAlpha(row, alpha), size + |alpha|)
  {
  }

  /** The rows cut from an output buffer are the decoded rows with their alpha. */
  lemma {:induction false} CutFlat(rows: seq<seq<Pixel>>, alpha: seq<byte>, x: nat, size: nat, more: seq<byte>)
    requires RowsOk(rows, x, size)
    ensures var out := FlatRows(rows, alpha) + more;
            && |FlatRows(rows, alpha)| == Off(|rows|, Off(x, size + |alpha|))
            && CutRows(out, x, |rows|, size + |alpha|) == PassAlpha(rows, alpha)
    decreases |rows|
  {
    hide Flat, Chunks;
    FlatRowsLength(rows, alpha, x, size);
    if rows != [] {
      var n := |rows| - 1;
      var front, last := FlatRows(rows[..n], alpha), Flat(rows[n], alpha);
      CutFlat(rows[..n], alpha, x, size, last + more);
      assert front + (last + more) == FlatRows(rows, alpha) + more;
      AlphaOk(rows[n], alpha, size);
      FlatAlpha(rows[n], alpha);
      ChunksFlat(RowAlpha(rows[n], alpha), front, more, size + |alpha|);
      assert front + last + more == FlatRows(rows, alpha) + more;
      assert PassAlpha(rows, alpha) == PassAlpha(rows[..n], alpha) + [RowAlpha(rows[n], alpha)];
    }
  }

  lemma {:induction false} AlphaPassOk(pass: seq<seq<Pixel>>, alpha: seq<byte>, p: nat, w: nat, h: nat)
    requires p < PASSES && PassOk(pass, p, w, h)
    ensures PassOk(PassAlpha(pass, alpha), p, w, h)
  {
  }

  lemma {:induction false} SourceAlpha(passes: Passes<Pixel>, alpha: seq<byte>, w: nat, h: nat, r: nat, c: nat)
    requires PassesOk(passes, w, h) && PassesOk(AllAlpha(passes, alpha), w, h)
    requires w <= MAX_DIMENSION && h <= MAX_DIMENSION && r < h && c < w
    ensures Source(AllAlpha(passes, alpha), w, h, r, c) == Source(passes, w, h, r, c) + alpha
  {
    hide PassOf, PassWidth, PassHeight;
    SourceExists(w, h, r, c);
    var p := PassOf(r, c);
    assert AllAlpha(passes, alpha)[p] == PassAlpha(passes[p], alpha);
  }

  // ---------------------------------------------------------------- the code

  datatype Outcome = Done | NotEnough | BadFilterType

  /** Passes decoded before, in front of the rest. */
  function Append(done: Passes<Pixel>, rest: Decoded): (r: Decoded) {
    if rest.Decoded? then Decoded(done + rest.passes) else rest
  }

  lemma {:induction false} AppendBefore(done: Passes<Pixel>, pass: seq<seq<Pixel>>, rest: Decoded)
    ensures Append(done, InFront(pass, rest)) == Append(done + [pass], rest)
  {
    if rest.Decoded? {
      assert done + ([pass] + rest.passes) == (done + [pass]) + rest.passes;
    }
  }

  /** One pass of `stbi__create_png_image`: its rows with alpha. */
  method DecodePass(data: seq<byte>, imgN: nat, outN: nat, x: nat, y: nat, depth: nat)
    returns (why: Outcome, pass: seq<seq<Pixel>>)
    requires (depth == 8 || depth == 16) && 1 <= imgN <= 4 && (outN == imgN || outN == imgN + 1) && x > 0 && y > 0
    ensures var bytes := if depth == 16 then 2 else 1;
            var fb := imgN * bytes;
            if |data| < PassLength(x, y, fb) then why == NotEnough
            else
              match DecodeRows(data, x, y, fb)
              case BadFilter => why == BadFilterType
              case Rows(rows) => why == Done && pass == PassAlpha(rows, Opaque(if outN == imgN then 0 else bytes))
  {
    hide DecodeRows, FlatRows, CutRows, Opaque, Off;
    var bytes := if depth == 16 then 2 else 1;
    var fb, ab := imgN * bytes, if outN == imgN then 0 else bytes;
    var r := CreateImageRaw(data, imgN, outN, x, y, depth);
    pass := [];
    match r {
      case NotEnoughPixels => why := NotEnough;
      case InvalidFilter => why := BadFilterType;
      case Image(out) =>
        CutFlat(DecodeRows(data, x, y, fb).rows, Opaque(ab), x, fb, []);
        assert out + [] == out;
        why, pass := Done, CutRows(out, x, y, fb + ab);
    }
  }

  /** `stbi__create_png_image` for interlaced data: every pixel of the image is in its place, with its alpha. */
  method CreateImage(raw: seq<byte>, imgN: nat, outN: nat, w: nat, h: nat, depth: nat)
    returns (why: Outcome, final: array2<Pixel>)
    requires (depth == 8 || depth == 16) && 1 <= imgN <= 4 && (outN == imgN || outN == imgN + 1)
    requires w <= MAX_DIMENSION && h <= MAX_DIMENSION
    ensures var bytes := if depth == 16 then 2 else 1;
            var alpha := Opaque(if outN == imgN then 0 else bytes);
            match DecodeFrom(raw, w, h, imgN * bytes, 0)
            case Short => why == NotEnough
            case Invalid => why == BadFilterType
            case Decoded(ps) =>
              && why == Done && PassesOk(ps, w, h) && final.Length0 == h && final.Length1 == w
              && forall r, c :: 0 <= r < h && 0 <= c < w ==> final[r, c] == Source(ps, w, h, r, c) + alpha
  {
    hide DecodeRows, Source, Opaque, Off, PassWidth, PassHeight, DecodeFrom;
    var bytes := if depth == 16 then 2 else 1;
    var fb := imgN * bytes;
    ghost var alpha := Opaque(if outN == imgN then 0 else bytes);
    ghost var plain: Passes<Pixel> := [];
    var passes: Passes<Pixel>, data := [], raw;
    AppendNone(DecodeFrom(raw, w, h, fb, 0));
    for p := 0 to PASSES
      invariant |plain| == p && passes == AllAlpha(plain, alpha)
      invariant Append(plain, DecodeFrom(data, w, h, fb, p)) == DecodeFrom(raw, w, h, fb, 0)
    {
      var x, y := PassWidth(p, w), PassHeight(p, h);
      DecodeOne(data, w, h, fb, p);
      ghost var one: seq<seq<Pixel>>;
      var pass: seq<seq<Pixel>>;
      if x == 0 || y == 0 {
        pass := seq(y, _ => []);
        one := pass;
        NoAlpha(pass, alpha);
      } else {
        var e;
        e, pass := DecodePass(data, imgN, outN, x, y, depth);
        if e != Done {
          final := new Pixel[0, 0];
          return e, final;
        }
        one := DecodeRows(data, x, y, fb).rows;
        data := data[PassLength(x, y, fb)..];
      }
      AppendBefore(plain, one, DecodeFrom(data, w, h, fb, p + 1));
      assert AllAlpha(plain + [one], alpha) == AllAlpha(plain, alpha) + [PassAlpha(one, alpha)];
      plain, passes := plain + [one], passes + [pass];
    }
    AllDecoded(raw, data, w, h, fb, plain, alpha);
    final := Deinterlace(passes, w, h);
    forall r, c | 0 <= r < h && 0 <= c < w ensures final[r, c] == Source(plain, w, h, r, c) + alpha {
      SourceAlpha(plain, alpha, w, h, r, c);
    }
    why := Done;
  }

  lemma {:induction false} AppendNone(d: Decoded)
    ensures Append([], d) == d
  {
    if d.Decoded? {
      assert [] + d.passes == d.passes;
    }
  }

  lemma {:induction false} NoAlpha(pass: seq<seq<Pixel>>, alpha: seq<byte>)
    requires forall j :: 0 <= j < |pass| ==> pass[j] == []
    ensures PassAlpha(pass, alpha) == pass
  {
    forall j | 0 <= j < |pass| ensures PassAlpha(pass, alpha)[j] == pass[j] {
      assert RowAlpha(pass[j], alpha) == [];
    }
  }

  /** What decoding does with pass p. */
  lemma {:induction false} DecodeOne(raw: seq<byte>, w: nat, h: nat, size: nat, p: nat)
    requires p < PASSES
    ensures var x, y := PassWidth(p, w), PassHeight(p, h);
            DecodeFrom(raw, w, h, size, p) ==
            if x == 0 || y == 0 then InFront(seq(y, _ => []), DecodeFrom(raw, w, h, size, p + 1))
            else if |raw| < PassLength(x, y, size) then Short
            else if DecodeRows(raw, x, y, size).BadFilter? then Invalid
            else InFront(DecodeRows(raw, x, y, size).rows, DecodeFrom(raw[PassLength(x, y, size)..], w, h, size, p + 1))
  {
  }

  lemma {:induction false} AllDecoded(raw: seq<byte>, data: seq<byte>, w: nat, h: nat, size: nat,
                                      plain: Passes<Pixel>, alpha: seq<byte>)
    requires |plain| == PASSES
    requires Append(plain, DecodeFrom(data, w, h, size, PASSES)) == DecodeFrom(raw, w, h, size, 0)
    ensures DecodeFrom(raw, w, h, size, 0) == Decoded(plain)
    ensures PassesOk(plain, w, h) && PassesOk(AllAlpha(plain, alpha), w, h)
  {
    assert plain + [] == plain;
    assert DecodeFrom(data, w, h, size, PASSES) == Decoded([]);
    DecodedOk(raw, w, h, size, 0);
    forall p | 0 <= p < PASSES ensures PassOk(AllAlpha(plain, alpha)[p], p, w, h) {
      assert PassOk(plain[p], 0 + p, w, h);
      AlphaPassOk(plain[p], alpha, p, w, h);
    }
  }
}
