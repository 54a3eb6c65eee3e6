/**
 Adam7 interlacing (section 2.6 of RFC 2083) as `stbi__create_png_image` undoes it: seven
 passes, each a smaller image whose pixels are scattered over the final one.
 */
module Adam7 {

  const XORIG: seq<nat> := [0, 4, 0, 2, 0, 1, 0]
  const YORIG: seq<nat> := [0, 0, 4, 0, 2, 0, 1]
  const XSPC: seq<nat> := [8, 8, 4, 4, 2, 2, 1]
  const YSPC: seq<nat> := [8, 8, 8, 4, 4, 2, 2]

  const PASSES: nat := 7
  const MAX_DIMENSION: nat := 0x100_0000
  const TWO_32: int := 0x1_0000_0000

  /** Unsigned 32-bit arithmetic, as the size of a pass is computed. */
  function PassSize(img: nat, orig: nat, spc: nat): (n: nat)
    requires spc > 0
  {
    (((img - orig) % TWO_32 + spc) % TWO_32 - 1) % TWO_32 / spc
  }

  function PassWidth(p: nat, w: nat): (n: nat)
    requires p < PASSES
  {
    PassSize(w, XORIG[p], XSPC[p])
  }

  function PassHeight(p: nat, h: nat): (n: nat)
    requires p < PASSES
  {
    PassSize(h, YORIG[p], YSPC[p])
  }

  /** The final column of column i of pass p. */
  function Column(p: nat, i: nat): (c: nat)
    requires p < PASSES
  {
    i * XSPC[p] + XORIG[p]
  }

  /** The final row of row j of pass p. */
  function Row(p: nat, j: nat): (r: nat)
    requires p < PASSES
  {
    j * YSPC[p] + YORIG[p]
  }

  /** The pass that carries the pixel in row r and column c. */
  function PassOf(r: nat, c: nat): (p: nat)
    ensures p < PASSES
  {
    if r % 2 == 1 then 6
    else if c % 2 == 1 then 5
    else if r % 4 == 2 then 4
    else if c % 4 == 2 then 3
    else if r % 8 == 4 then 2
    else if c % 8 == 4 then 1
    else 0
  }

  /** Wrap-around on the way does no harm: the size is the number of columns that fit. */
  lemma {:induction false} SizeExact(img: nat, orig: nat, spc: nat, i: nat)
    requires img <= MAX_DIMENSION && orig < spc
    requires spc == 1 || spc == 2 || spc == 4 || spc == 8
    ensures i < PassSize(img, orig, spc) <==> i * spc + orig < img
  {
    WrapFree(img, orig, spc);
    var n := img - orig + spc - 1;
    if spc == 1 {
      assert PassSize(img, orig, 1) == n;
    } else if spc == 2 {
      assert PassSize(img, orig, 2) == n / 2;
    } else if spc == 4 {
      assert PassSize(img, orig, 4) == n / 4;
    } else {
      assert PassSize(img, orig, 8) == n / 8;
    }
  }

  lemma {:induction false} WrapFree(img: nat, orig: nat, spc: nat)
    requires img <= MAX_DIMENSION && orig < spc <= 8
    ensures (((img - orig) % TWO_32 + spc) % TWO_32 - 1) % TWO_32 == img - orig + spc - 1
  {
    if img >= orig {
      assert (img - orig) % TWO_32 == img - orig;
    } else {
      assert (img - orig) % TWO_32 == img - orig + TWO_32;
    }
  }

  /** Placement stays inside the image exactly for the pixels of the pass. */
  lemma {:induction false} PlacedInside(p: nat, w: nat, h: nat, i: nat, j: nat)
    requires p < PASSES && w <= MAX_DIMENSION && h <= MAX_DIMENSION
    ensures i < PassWidth(p, w) <==> Column(p, i) < w
    ensures j < PassHeight(p, h) <==> Row(p, j) < h
  {
    SizeExact(w, XORIG[p], XSPC[p], i);
    SizeExact(h, YORIG[p], YSPC[p], j);
  }

  /** Residues of 2 and 4 read off the residue of 8. */
  lemma {:induction false} Residues(x: nat)
    ensures var m := x % 8;
            && (x % 2 == 1 <==> m == 1 || m == 3 || m == 5 || m == 7)
            && (x % 4 == 0 <==> m == 0 || m == 4)
            && (x % 4 == 2 <==> m == 2 || m == 6)
  {
    var q, m := x / 8, x % 8;
    assert x == 4 * (2 * q) + m && x == 2 * (4 * q) + m;
    AddMultiple(2 * q, m, 4);
    AddMultiple(4 * q, m, 2);
  }

  lemma {:induction false} AddMultiple(k: nat, m: nat, d: nat)
    requires d == 2 || d == 4
    ensures (d * k + m) % d == m % d
  {
  }

  lemma {:induction false} StepResidue(q: nat, o: nat)
    ensures o < 8 ==> (8 * q + o) % 8 == o
    ensures o < 4 ==> (4 * q + o) % 4 == o
    ensures o < 2 ==> (2 * q + o) % 2 == o
  {
  }

  /** A placed pixel belongs to the pass it came from. */
  lemma {:induction false} PlacedPass(p: nat, i: nat, j: nat)
    requires p < PASSES
    ensures PassOf(Row(p, j), Column(p, i)) == p
  {
    var r, c := Row(p, j), Column(p, i);
    StepResidue(i, XORIG[p]);
    StepResidue(j, YORIG[p]);
    Residues(r);
    Residues(c);
    Stretch(p, i, j);
    PassByResidue(r, c);
  }

  /** Row and column of a placed pixel, with the spacing of its pass written out. */
  lemma {:induction false} Stretch(p: nat, i: nat, j: nat)
    requires p < PASSES
    ensures Column(p, i) == (if p <= 1 then 8 * i else if p <= 3 then 4 * i else if p <= 5 then 2 * i else i) + XORIG[p]
    ensures Row(p, j) == (if p <= 2 then 8 * j else if p <= 4 then 4 * j else 2 * j) + YORIG[p]
  {
  }

  /** The pass of a pixel depends on its row and column modulo 8 only. */
  lemma {:induction false} PassByResidue(r: nat, c: nat)
    ensures var a, b := r % 8, c % 8;
            && (PassOf(r, c) == 6 <==> a == 1 || a == 3 || a == 5 || a == 7)
            && (PassOf(r, c) == 5 <==> (a == 0 || a == 2 || a == 4 || a == 6) && (b == 1 || b == 3 || b == 5 || b == 7))
            && (PassOf(r, c) == 4 <==> (a == 2 || a == 6) && (b == 0 || b == 2 || b == 4 || b == 6))
            && (PassOf(r, c) == 3 <==> (a == 0 || a == 4) && (b == 2 || b == 6))
            && (PassOf(r, c) == 2 <==> a == 4 && (b == 0 || b == 4))
            && (PassOf(r, c) == 1 <==> a == 0 && b == 4)
            && (PassOf(r, c) == 0 <==> a == 0 && b == 0)
  {
    Residues(r);
    Residues(c);
  }

  /** Every pixel has a place in its pass. */
  lemma {:induction false} PlaceOf(r: nat, c: nat)
    ensures var p := PassOf(r, c);
            c == Column(p, c / XSPC[p]) && r == Row(p, r / YSPC[p])
  {
    hide PassOf;
    var p := PassOf(r, c);
    PassByResidue(r, c);
    Residues(r);
    Residues(c);
    Stretch(p, c / XSPC[p], r / YSPC[p]);
  }

  lemma {:induction false} PlaceInjective(p: nat, i: nat, i': nat)
    requires p < PASSES
    ensures Column(p, i) == Column(p, i') ==> i == i'
    ensures Row(p, i) == Row(p, i') ==> i == i'
  {
  }

  /** Pixel (j, i) of pass p exists and is written to row r, column c. */
  predicate Writes(w: nat, h: nat, p: nat, j: nat, i: nat, r: nat, c: nat) {
    p < PASSES && i < PassWidth(p, w) && j < PassHeight(p, h) && Row(p, j) == r && Column(p, i) == c
  }

  /** Each pixel of the image is written by exactly one pixel of one pass, and nothing outside is written. */
  lemma {:induction false} WrittenOnce(w: nat, h: nat, r: nat, c: nat)
    requires w <= MAX_DIMENSION && h <= MAX_DIMENSION
    ensures (exists p: nat, j: nat, i: nat :: Writes(w, h, p, j, i, r, c)) <==> r < h && c < w
    ensures forall p: nat, j: nat, i: nat, p': nat, j': nat, i': nat ::
              Writes(w, h, p, j, i, r, c) && Writes(w, h, p', j', i', r, c) ==> p == p' && j == j' && i == i'
  {
    hide Row, Column, PassWidth, PassHeight, PassOf;
    if r < h && c < w {
      var p := PassOf(r, c);
      PlaceOf(r, c);
      PlacedInside(p, w, h, c / XSPC[p], r / YSPC[p]);
      assert Writes(w, h, p, r / YSPC[p], c / XSPC[p], r, c);
    }
    forall p: nat, j: nat, i: nat | Writes(w, h, p, j, i, r, c) ensures r < h && c < w && p == PassOf(r, c) {
      PlacedInside(p, w, h, i, j);
      PlacedPass(p, i, j);
    }
    forall p: nat, j: nat, i: nat, p': nat, j': nat, i': nat
      | Writes(w, h, p, j, i, r, c) && Writes(w, h, p', j', i', r, c)
      ensures p == p' && j == j' && i == i'
    {
      PlaceInjective(p, i, i');
      PlaceInjective(p, j, j');
    }
  }

  // ---------------------------------------------------------------- the passes

  /** The pass images of an interlaced file: pass, row, column. */
  type Passes<T> = seq<seq<seq<T>>>

  predicate PassesOk<T>(passes: Passes<T>, w: nat, h: nat) {
    |passes| == PASSES && forall p :: 0 <= p < PASSES ==> PassOk(passes[p], p, w, h)
  }

  predicate PassOk<T>(pass: seq<seq<T>>, p: nat, w: nat, h: nat)
    requires p < PASSES
  {
    |pass| == PassHeight(p, h) && forall j :: 0 <= j < |pass| ==> |pass[j]| == PassWidth(p, w)
  }

  predicate ImageOk<T>(img: seq<seq<T>>, w: nat, h: nat) {
    |img| == h && forall r :: 0 <= r < h ==> |img[r]| == w
  }

  /** Row j of pass p of an image. */
  function PassRow<T>(img: seq<seq<T>>, w: nat, h: nat, p: nat, j: nat): (s: seq<T>)
    requires ImageOk(img, w, h) && w <= MAX_DIMENSION && h <= MAX_DIMENSION
    requires p < PASSES && j < PassHeight(p, h)
    ensures |s| == PassWidth(p, w)
  {
    seq(PassWidth(p, w), i requires 0 <= i < PassWidth(p, w) =>
      PlacedInside(p, w, h, i, j);
      img[Row(p, j)][Column(p, i)])
  }

  /** The encoder's side: the seven passes of an image. */
  function Interlace<T>(img: seq<seq<T>>, w: nat, h: nat): (passes: Passes<T>)
    requires ImageOk(img, w, h) && w <= MAX_DIMENSION && h <= MAX_DIMENSION
    ensures PassesOk(passes, w, h)
  {
    seq(PASSES, p requires 0 <= p < PASSES =>
      seq(PassHeight(p, h), j requires 0 <= j < PassHeight(p, h) => PassRow(img, w, h, p, j)))
  }

  /** The pixel of the passes that belongs in row r and column c. */
  function Source<T>(passes: Passes<T>, w: nat, h: nat, r: nat, c: nat): (v: T)
    requires PassesOk(passes, w, h) && w <= MAX_DIMENSION && h <= MAX_DIMENSION && r < h && c < w
  {
    SourceExists(w, h, r, c);
    var p := PassOf(r, c);
    passes[p][r / YSPC[p]][c / XSPC[p]]
  }

  lemma {:induction false} SourceExists(w: nat, h: nat, r: nat, c: nat)
    requires w <= MAX_DIMENSION && h <= MAX_DIMENSION && r < h && c < w
    ensures var p := PassOf(r, c); r / YSPC[p] < PassHeight(p, h) && c / XSPC[p] < PassWidth(p, w)
  {
    hide Row, Column, PassWidth, PassHeight, PassOf;
    var p := PassOf(r, c);
    PlaceOf(r, c);
    PlacedInside(p, w, h, c / XSPC[p], r / YSPC[p]);
  }

  lemma {:induction false} SourceOfPlaced<T>(passes: Passes<T>, w: nat, h: nat, p: nat, i: nat, j: nat)
    requires PassesOk(passes, w, h) && w <= MAX_DIMENSION && h <= MAX_DIMENSION
    requires p < PASSES && i < PassWidth(p, w) && j < PassHeight(p, h)
    ensures Row(p, j) < h && Column(p, i) < w
    ensures Source(passes, w, h, Row(p, j), Column(p, i)) == passes[p][j][i]
  {
    hide Row, Column, PassWidth, PassHeight, PassOf;
    var r, c := Row(p, j), Column(p, i);
    PlacedInside(p, w, h, i, j);
    PlacedPass(p, i, j);
    PlaceOf(r, c);
    PlaceInjective(p, i, c / XSPC[p]);
    PlaceInjective(p, j, r / YSPC[p]);
  }

  /** The pixel at (r, c) comes before pixel i of row j of pass p. */
  predicate Before(r: nat, c: nat, p: nat, j: nat, i: nat) {
    var q := PassOf(r, c);
    q < p || (q == p && (r / YSPC[q] < j || (r / YSPC[q] == j && c / XSPC[q] < i)))
  }

  /** The de-interlacing loops of `stbi__create_png_image`. */
  method Deinterlace<T(0)>(passes: Passes<T>, w: nat, h: nat) returns (final: array2<T>)
    requires PassesOk(passes, w, h) && w <= MAX_DIMENSION && h <= MAX_DIMENSION
    ensures final.Length0 == h && final.Length1 == w
    ensures forall r, c :: 0 <= r < h && 0 <= c < w ==> final[r, c] == Source(passes, w, h, r, c)
  {
    hide Row, Column, PassWidth, PassHeight, Source, Before;
    final := new T[h, w];
    forall r: nat, c: nat ensures !Before(r, c, 0, 0, 0) {
      NoneBefore(r, c);
    }
    for p := 0 to PASSES
      invariant forall r, c :: 0 <= r < h && 0 <= c < w && Before(r, c, p, 0, 0) ==>
        final[r, c] == Source(passes, w, h, r, c)
    {
      var x, y := PassWidth(p, w), PassHeight(p, h);
      if x != 0 && y != 0 {
        for j := 0 to y
          invariant forall r, c :: 0 <= r < h && 0 <= c < w && Before(r, c, p, j, 0) ==>
            final[r, c] == Source(passes, w, h, r, c)
        {
          for i := 0 to x
            invariant forall r, c :: 0 <= r < h && 0 <= c < w && Before(r, c, p, j, i) ==>
              final[r, c] == Source(passes, w, h, r, c)
          {
            SourceOfPlaced(passes, w, h, p, i, j);
            final[Row(p, j), Column(p, i)] := passes[p][j][i];
            forall r: nat, c: nat | r < h && c < w && Before(r, c, p, j, i + 1)
              ensures Before(r, c, p, j, i) || (r == Row(p, j) && c == Column(p, i))
            {
              NextPixel(r, c, p, j, i);
            }
          }
          forall r: nat, c: nat | r < h && c < w && Before(r, c, p, j + 1, 0) ensures Before(r, c, p, j, x) {
            NextRow(w, h, r, c, p, j);
          }
        }
      }
      forall r: nat, c: nat | r < h && c < w && Before(r, c, p + 1, 0, 0) ensures Before(r, c, p, y, 0) {
        NextPass(w, h, r, c, p);
      }
      forall r: nat, c: nat | r < h && c < w && Before(r, c, p + 1, 0, 0)
        ensures (x > 0 && y > 0) || Before(r, c, p, 0, 0)
      {
        NextPass(w, h, r, c, p);
      }
    }
    forall r: nat, c: nat | r < h && c < w ensures Before(r, c, PASSES, 0, 0) {
      AllBefore(r, c);
    }
  }

  lemma {:induction false} NextPixel(r: nat, c: nat, p: nat, j: nat, i: nat)
    requires p < PASSES && Before(r, c, p, j, i + 1)
    ensures Before(r, c, p, j, i) || (r == Row(p, j) && c == Column(p, i))
  {
    hide Row, Column, PassOf;
    PlaceOf(r, c);
  }

  lemma {:induction false} NextRow(w: nat, h: nat, r: nat, c: nat, p: nat, j: nat)
    requires w <= MAX_DIMENSION && h <= MAX_DIMENSION && p < PASSES && r < h && c < w
    requires Before(r, c, p, j + 1, 0)
    ensures Before(r, c, p, j, PassWidth(p, w))
  {
    hide PassWidth, PassHeight, PassOf;
    SourceExists(w, h, r, c);
  }

  lemma {:induction false} NextPass(w: nat, h: nat, r: nat, c: nat, p: nat)
    requires w <= MAX_DIMENSION && h <= MAX_DIMENSION && p < PASSES && r < h && c < w
    requires Before(r, c, p + 1, 0, 0)
    ensures Before(r, c, p, PassHeight(p, h), 0)
    ensures (PassWidth(p, w) > 0 && PassHeight(p, h) > 0) || Before(r, c, p, 0, 0)
  {
    hide PassWidth, PassHeight, PassOf;
    SourceExists(w, h, r, c);
  }

  lemma {:induction false} NoneBefore(r: nat, c: nat)
    ensures !Before(r, c, 0, 0, 0)
  {
  }

  lemma {:induction false} AllBefore(r: nat, c: nat)
    ensures Before(r, c, PASSES, 0, 0)
  {
  }

  /** De-interlacing the passes of an image gives back every pixel of the image. */
  lemma {:induction false} InterlaceRoundTrip<T>(img: seq<seq<T>>, w: nat, h: nat, r: nat, c: nat)
    requires ImageOk(img, w, h) && w <= MAX_DIMENSION && h <= MAX_DIMENSION && r < h && c < w
    ensures Source(Interlace(img, w, h), w, h, r, c) == img[r][c]
  {
    hide Row, Column, PassWidth, PassHeight, PassOf;
    var p := PassOf(r, c);
    SourceExists(w, h, r, c);
    PlaceOf(r, c);
    assert Interlace(img, w, h)[p][r / YSPC[p]] == PassRow(img, w, h, p, r / YSPC[p]);
  }
}
