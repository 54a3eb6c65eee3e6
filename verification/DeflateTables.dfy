/**
 The numbers of RFC 1951: which lengths and distances the symbols stand for, what a round of the block loop does with
 them, in which order codes are assigned and code lengths are sent, and how long runs are.
 */
module DeflateTables {
  import opened Bytes
  import opened Bits
  import opened Huffman
  import opened Deflate
  import opened DeflateStream

  // ---------------------------------------------------------------- lengths and distances (section 3.2.5)

  /** Symbols 257 to 284: four symbols to each number of extra bits, after eight without any. */
  lemma {:induction false} LengthExtraLaw(i: nat)
    requires i < 28
    ensures LengthExtra(257 + i) == if i < 8 then 0 else (i - 4) / 4
  {
  }

  /** The first length is 3, and each symbol starts where the one before ends; symbol 285 is 258 alone. */
  lemma {:induction false} LengthBaseLaw(i: nat)
    requires i < 27
    ensures LengthBase(257) == 3
    ensures LengthBase(258 + i) == LengthBase(257 + i) + Pow2(LengthExtra(257 + i))
    ensures LengthBase(285) == 258 && LengthExtra(285) == 0
  {
    FivePowers();
  }

  /** Two symbols to each number of extra bits, after four without any. */
  lemma {:induction false} DistExtraLaw(d: nat)
    requires d < 30
    ensures DistExtra(d) == if d < 4 then 0 else (d - 2) / 2
  {
  }

  lemma {:induction false} DistBaseLaw(d: nat)
    requires d < 29
    ensures DistBase(0) == 1
    ensures DistBase(d + 1) == DistBase(d) + Pow2(DistExtra(d))
  {
    hide Pow2;
    FivePowers();
    MorePowers();
  }

  /** What has no meaning in the standard is 0 in the tables. */
  lemma {:induction false} NoMeaning()
    ensures LengthBase(286) == LengthBase(287) == 0 && LengthExtra(286) == LengthExtra(287) == 0
    ensures DistBase(30) == DistBase(31) == 0 && DistExtra(30) == DistExtra(31) == 0
  {
  }

  lemma {:induction false} FivePowers()
    ensures Pow2(0) == 1 && Pow2(1) == 2 && Pow2(2) == 4 && Pow2(3) == 8 && Pow2(4) == 16 && Pow2(5) == 32
  {
    assert Shl(1, 3) == 2 * Shl(1, 2) && Shl(1, 4) == 2 * Shl(1, 3) && Shl(1, 5) == 2 * Shl(1, 4);
  }

  lemma {:induction false} MorePowers()
    ensures Pow2(6) == 64 && Pow2(7) == 128 && Pow2(8) == 256 && Pow2(9) == 512
    ensures Pow2(10) == 1024 && Pow2(11) == 2048 && Pow2(12) == 4096 && Pow2(13) == 8192
  {
    FivePowers();
    assert Shl(1, 6) == 2 * Shl(1, 5) && Shl(1, 7) == 2 * Shl(1, 6) && Shl(1, 8) == 2 * Shl(1, 7);
    assert Shl(1, 9) == 2 * Shl(1, 8) && Shl(1, 10) == 2 * Shl(1, 9) && Shl(1, 11) == 2 * Shl(1, 10);
    assert Shl(1, 12) == 2 * Shl(1, 11) && Shl(1, 13) == 2 * Shl(1, 12);
  }

  /** Symbol z with extra value e gives length n. */
  predicate GivesLength(z: nat, e: nat, n: nat) {
    257 <= z && e < Pow2(LengthExtra(z)) && n == LengthBase(z) + e
  }

  predicate GivesDist(d: nat, e: nat, n: nat) {
    e < Pow2(DistExtra(d)) && n == DistBase(d) + e
  }

  /** Where symbol z ends, the later ones begin. */
  lemma {:induction false} LengthsApart(z: nat, y: nat)
    requires 257 <= z < y <= 284
    ensures LengthBase(z) + Pow2(LengthExtra(z)) <= LengthBase(y)
    decreases y
  {
    hide LengthBase, LengthExtra, Pow2;
    LengthBaseLaw(y - 258);
    if z < y - 1 {
      LengthsApart(z, y - 1);
      Pow2Positive(LengthExtra(y - 1));
    }
  }

  lemma {:induction false} Pow2Positive(n: nat)
    ensures Pow2(n) > 0
  {
    if n > 0 {
      Pow2Positive(n - 1);
    }
  }

  lemma {:induction false} LengthFound(n: nat, z: nat) returns (y: nat, e: nat)
    requires 257 <= z <= 284 && 3 <= n < LengthBase(z) + Pow2(LengthExtra(z))
    ensures y <= z && GivesLength(y, e, n)
    decreases z
  {
    hide LengthBase, LengthExtra, Pow2;
    if n >= LengthBase(z) {
      y, e := z, n - LengthBase(z);
    } else {
      LengthBaseLaw(if z > 257 then z - 258 else 0);
      y, e := LengthFound(n, z - 1);
    }
  }

  /** Every length from 3 to 258 is given by exactly one of the symbols 257 to 284 and one extra value. */
  lemma {:induction false} LengthOnce(n: nat) returns (z: nat, e: nat)
    requires 3 <= n <= 258
    ensures 257 <= z <= 284 && GivesLength(z, e, n)
    ensures forall y: nat, f: nat :: 257 <= y <= 284 && GivesLength(y, f, n) ==> y == z && f == e
  {
    hide LengthBase, LengthExtra, Pow2;
    LastLength();
    z, e := LengthFound(n, 284);
    forall y: nat, f: nat | 257 <= y <= 284 && GivesLength(y, f, n) ensures y == z && f == e {
      if y < z {
        LengthsApart(y, z);
      } else if z < y {
        LengthsApart(z, y);
      }
    }
  }

  lemma {:induction false} LastLength()
    ensures LengthBase(284) + Pow2(LengthExtra(284)) == 259
  {
    FivePowers();
  }

  /** Symbol 285 gives 258 and nothing else, and no other length is given by a symbol beyond 284. */
  lemma {:induction false} LongestLength(z: nat, e: nat, n: nat)
    requires z > 284 && GivesLength(z, e, n)
    ensures e == 0 && n == if z == 285 then 258 else 0
  {
  }

  lemma {:induction false} DistsApart(d: nat, c: nat)
    requires d < c <= 29
    ensures DistBase(d) + Pow2(DistExtra(d)) <= DistBase(c)
    decreases c
  {
    hide DistBase, DistExtra, Pow2;
    DistBaseLaw(c - 1);
    if d < c - 1 {
      DistsApart(d, c - 1);
      Pow2Positive(DistExtra(c - 1));
    }
  }

  lemma {:induction false} DistFound(n: nat, d: nat) returns (c: nat, e: nat)
    requires d <= 29 && 1 <= n < DistBase(d) + Pow2(DistExtra(d))
    ensures c <= d && GivesDist(c, e, n)
    decreases d
  {
    hide DistBase, DistExtra, Pow2;
    if n >= DistBase(d) {
      c, e := d, n - DistBase(d);
    } else {
      DistBaseLaw(if d > 0 then d - 1 else 0);
      c, e := DistFound(n, d - 1);
    }
  }

  /** Every distance from 1 to 32768 is given by exactly one of the symbols 0 to 29 and one extra value. */
  lemma {:induction false} DistOnce(n: nat) returns (d: nat, e: nat)
    requires 1 <= n <= 32768
    ensures d <= 29 && GivesDist(d, e, n)
    ensures forall c: nat, f: nat :: c <= 29 && GivesDist(c, f, n) ==> c == d && f == e
  {
    hide DistBase, DistExtra, Pow2;
    LastDist();
    d, e := DistFound(n, 29);
    forall c: nat, f: nat | c <= 29 && GivesDist(c, f, n) ensures c == d && f == e {
      if c < d {
        DistsApart(c, d);
      } else if d < c {
        DistsApart(d, c);
      }
    }
  }

  lemma {:induction false} LastDist()
    ensures DistBase(29) + Pow2(DistExtra(29)) == 32769
  {
    MorePowers();
  }

  /** A match is as long, and reaches as far back, as its symbols and extra bits say; its fields lie in this order. */
  lemma {:induction false} MatchRead(ll: seq<nat>, dl: seq<nat>, x: nat)
    requires ReadToken(ll, dl, x).Ok? && ReadToken(ll, dl, x).value.Match?
    ensures var t, n := ReadToken(ll, dl, x).value, ReadToken(ll, dl, x).bits;
            var a := Lookup(ll, x);
            && a == Symbol(t.lsym, a.bits) && t.lext == Mask(Shr(x, a.bits), LengthExtra(t.lsym))
            && var at := a.bits + LengthExtra(t.lsym);
               var b := Lookup(dl, Shr(x, at));
               && b == Symbol(t.dsym, b.bits) && t.dext == Mask(Shr(x, at + b.bits), DistExtra(t.dsym))
               && n == at + b.bits + DistExtra(t.dsym)
    ensures var t := ReadToken(ll, dl, x).value;
            GivesLength(t.lsym, t.lext, MatchLength(t)) && GivesDist(t.dsym, t.dext, MatchDist(t))
  {
    hide Shr, Mask, Lookup, LengthExtra, DistExtra, LengthBase, DistBase, Pow2;
    var t := ReadToken(ll, dl, x).value;
    var a := Lookup(ll, x);
    var at := a.bits + LengthExtra(t.lsym);
    MaskBound(Shr(x, a.bits), LengthExtra(t.lsym));
    MaskBound(Shr(x, at + Lookup(dl, Shr(x, at)).bits), DistExtra(t.dsym));
  }

  // ---------------------------------------------------------------- rounds and room

  /** The output room is doubled as often as it takes, and no more often. */
  lemma {:induction false} GrownIs(limit: nat, need: nat) returns (k: nat)
    requires limit > 0
    ensures Grown(limit, need) == Shl(limit, k) >= need
    ensures k > 0 ==> Shl(limit, k - 1) < need
    decreases if need > limit then need - limit else 0
  {
    if need <= limit {
      k := 0;
    } else {
      var m := GrownIs(2 * limit, need);
      k := m + 1;
      assert Shl(limit, 1) == 2 * Shl(limit, 0);
      ShlShl(limit, 1, m);
      if m > 0 {
        ShlShl(limit, 1, m - 1);
      }
    }
  }

  /** Without enough room, there must be leave to grow, and the heap must serve the doubled room. */
  lemma {:induction false} RoomIff(limit: nat, need: nat, a: Alloc, k: nat)
    requires limit > 0 && Shl(limit, k) >= need && (k > 0 ==> Shl(limit, k - 1) < need)
    ensures CanReserve(limit, need, a) <==> k == 0 || (a.expandable && Shl(limit, k) <= a.heap)
  {
    var m := GrownIs(limit, need);
    if m < k {
      DoublingGrows(limit, m, k - 1);
    } else if k < m {
      DoublingGrows(limit, k, m - 1);
    }
    if k > 0 {
      DoublingGrows(limit, 0, k - 1);
    }
  }

  lemma {:induction false} DoublingGrows(limit: nat, m: nat, k: nat)
    requires m <= k
    ensures Shl(limit, m) <= Shl(limit, k)
    decreases k
  {
    if m < k {
      DoublingGrows(limit, m, k - 1);
      assert Shl(limit, k) == 2 * Shl(limit, k - 1);
    }
  }

  /** How many bytes there are after the token. */
  function SizeAfter(size: nat, t: Token): (n: nat)
    requires t.Match? ==> 257 <= t.lsym
  {
    size + if t.Match? then MatchLength(t) else 1
  }

  /** A literal is one byte more; the bytes of a match repeat those at its distance. */
  predicate Gives(mem: Memory, before: seq<byte>, t: Token, out: seq<byte>) {
    && |before| <= |out| && out[..|before|] == before
    && (t.Literal? ==> out == before + [t.b])
    && (t.Match? ==> 257 <= t.lsym && |out| == |before| + MatchLength(t) && MatchDist(t) <= |before|
                     && forall i :: |before| <= i < |out| ==>
                          out[i] == if MatchDist(t) == 0 then mem(i) else out[i - MatchDist(t)])
  }

  lemma {:induction false} ApplyGives(mem: Memory, out: seq<byte>, t: Token)
    requires !t.EndOfBlock? && (t.Match? ==> 257 <= t.lsym)
    ensures Reaches(t, |out|) <==> !(t.Match? && MatchDist(t) > |out|)
    ensures Reaches(t, |out|) ==> Gives(mem, out, t, Apply(mem, out, t))
    ensures Reaches(t, |out|) ==> |Apply(mem, out, t)| == SizeAfter(|out|, t)
    ensures TokenLength(t) == SizeAfter(|out|, t) - |out|
  {
    hide MatchLength, MatchDist;
    if t.Match? && MatchDist(t) <= |out| {
      CopyBackBytes(mem, out, MatchDist(t), MatchLength(t));
    }
  }

  /**
   One round. A match must reach no further back than the output goes, and room is needed for all bytes of the round;
   then the rest of the block follows.
   */
  lemma {:induction false} RoundIs(ll: seq<nat>, dl: seq<nat>, x: nat, f: Filled, a: Alloc, mem: Memory)
    requires |f.out| <= f.limit && f.limit > 0 && ReadToken(ll, dl, x).Ok? && ReadToken(ll, dl, x).value != EndOfBlock
    ensures var t, bits := ReadToken(ll, dl, x).value, ReadToken(ll, dl, x).bits;
            var n, whole := SizeAfter(|f.out|, t), ReadBlock(ll, dl, x, f, a, mem);
            if t.Match? && MatchDist(t) > |f.out| then whole == Bad(BadDist)
            else if !CanReserve(f.limit, n, a) then whole == Bad(NoRoom)
            else if n == |f.out| && Shr(x, bits) == x then whole == Bad(Endless)
            else
              exists out: seq<byte> ::
                && Gives(mem, f.out, t, out) && |out| == n
                && var rest := ReadBlock(ll, dl, Shr(x, bits), Filled(out, Grown(f.limit, n)), a, mem);
                   whole == if rest.Bad? then rest else Ok(rest.value, bits + rest.bits)
  {
    hide ReadToken, CanReserve, Shr, Grown, MatchLength, MatchDist, ReadBlock, Gives, Apply, SizeAfter, Reaches;
    hide TokenLength;
    BlockRound(ll, dl, x, f, a, mem);
    ApplyGives(mem, f.out, ReadToken(ll, dl, x).value);
  }

  // ---------------------------------------------------------------- the order of codes (section 3.2.2)

  lemma {:induction false} CountGrows(lens: seq<nat>, s: nat, m: nat, n: nat)
    requires m <= n <= |lens|
    ensures CountIn(lens, s, m) <= CountIn(lens, s, n)
    ensures m < n && lens[m] == s ==> CountIn(lens, s, m) < CountIn(lens, s, n)
    decreases n
  {
    if m < n {
      CountGrows(lens, s, m, n - 1);
    }
  }

  /** The first code of a length follows all shorter ones, with zeros put behind them. */
  lemma {:induction false} FirstFollows(lens: seq<nat>, s: nat, u: nat)
    requires 1 <= s < u
    ensures Shl(FirstCode(lens, s) + Count(lens, s), u - s) <= FirstCode(lens, u)
    decreases u
  {
    var a := FirstCode(lens, s) + Count(lens, s);
    if s < u - 1 {
      FirstFollows(lens, s, u - 1);
    } else {
      assert Shl(a, 0) == a;
    }
    assert Shl(a, u - s) == 2 * Shl(a, u - 1 - s);
  }

  /**
   Codes of one length count up in the order of their symbols; shorter codes come before longer ones. With `PrefixFree`
   and `CodesTile` this leaves one assignment of codes.
   */
  lemma {:induction false} CodesInOrder(lens: seq<nat>, i: nat, j: nat)
    requires i < |lens| && j < |lens| && lens[i] > 0 && lens[j] > 0
    ensures lens[i] == lens[j] && i < j ==> Code(lens, i) < Code(lens, j)
    ensures lens[i] < lens[j] ==> Shl(Code(lens, i) + 1, lens[j] - lens[i]) <= Code(lens, j)
  {
    hide CountIn, FirstCode;
    CountGrows(lens, lens[i], i, |lens|);
    if lens[i] == lens[j] && i < j {
      CountGrows(lens, lens[i], i, j);
    }
    if lens[i] < lens[j] {
      var n := lens[j] - lens[i];
      FirstFollows(lens, lens[i], lens[j]);
      ShlMono(Code(lens, i) + 1, FirstCode(lens, lens[i]) + Count(lens, lens[i]), n);
    }
  }

  // ---------------------------------------------------------------- the fixed codes (section 3.2.6)

  /** The lengths by symbol. */
  lemma {:induction false} FixedLengths(i: nat)
    requires i < 288
    ensures |FixedCodes().ll| == 288 && |FixedCodes().dl| == 32
    ensures FixedCodes().ll[i] == if i <= 143 then 8 else if i <= 255 then 9 else if i <= 279 then 7 else 8
    ensures i < 32 ==> FixedCodes().dl[i] == 5
  {
  }

  lemma {:induction false} FixedCount(ll: seq<nat>, s: nat, n: nat)
    requires ll == FixedCodes().ll && n <= 288
    ensures CountIn(ll, s, n) == if s == 7 then (if n <= 256 then 0 else if n <= 280 then n - 256 else 24)
                                 else if s == 8 then (if n <= 144 then n else if n <= 280 then 144 else n - 136)
                                 else if s == 9 then (if n <= 144 then 0 else if n <= 256 then n - 144 else 112)
                                 else 0
  {
    if n > 0 {
      FixedCount(ll, s, n - 1);
      FixedLengths(n - 1);
    }
  }

  lemma {:induction false} FixedFirst(ll: seq<nat>)
    requires ll == FixedCodes().ll
    ensures FirstCode(ll, 7) == 0 && FirstCode(ll, 8) == 48 && FirstCode(ll, 9) == 400
  {
    hide CountIn, FixedCodes;
    FixedLengths(0);
    forall s ensures Count(ll, s) == CountIn(ll, s, 288) {
    }
    FixedCount(ll, 1, 288);
    FixedCount(ll, 2, 288);
    FixedCount(ll, 3, 288);
    FixedCount(ll, 4, 288);
    FixedCount(ll, 5, 288);
    FixedCount(ll, 6, 288);
    FixedCount(ll, 7, 288);
    FixedCount(ll, 8, 288);
    assert FirstCode(ll, 1) == 0 && FirstCode(ll, 2) == 0 && FirstCode(ll, 3) == 0 && FirstCode(ll, 4) == 0;
    assert FirstCode(ll, 5) == 0 && FirstCode(ll, 6) == 0 && FirstCode(ll, 7) == 0;
  }

  /** 00110000 to 10111111, 110010000 to 111111111, 0000000 to 0010111, 11000000 to 11000111. */
  lemma {:induction false} FixedCodeValues(i: nat)
    requires i < 288
    ensures Code(FixedCodes().ll, i) ==
            if i <= 143 then 48 + i else if i <= 255 then 400 + (i - 144) else if i <= 279 then i - 256
            else 192 + (i - 280)
  {
    hide CountIn, FirstCode;
    var ll := FixedCodes().ll;
    FixedLengths(i);
    FixedFirst(ll);
    FixedCount(ll, ll[i], i);
  }

  /** The 5-bit codes of distances are the symbols themselves. */
  lemma {:induction false} FixedDistValues(d: nat)
    requires d < 32
    ensures Code(FixedCodes().dl, d) == d
  {
    var dl := FixedCodes().dl;
    AllFive(dl, d);
    forall s | 1 <= s < 5 ensures Count(dl, s) == 0 {
      NoneOther(dl, s, 32);
    }
    assert FirstCode(dl, 1) == 0 && FirstCode(dl, 2) == 0 && FirstCode(dl, 3) == 0 && FirstCode(dl, 4) == 0;
    assert FirstCode(dl, 5) == 0;
  }

  lemma {:induction false} AllFive(dl: seq<nat>, n: nat)
    requires |dl| == 32 && (forall i :: 0 <= i < 32 ==> dl[i] == 5) && n <= 32
    ensures CountIn(dl, 5, n) == n
  {
    if n > 0 {
      AllFive(dl, n - 1);
    }
  }

  lemma {:induction false} NoneOther(dl: seq<nat>, s: nat, n: nat)
    requires |dl| == 32 && (forall i :: 0 <= i < 32 ==> dl[i] == 5) && n <= 32 && s != 5
    ensures CountIn(dl, s, n) == 0
  {
    if n > 0 {
      NoneOther(dl, s, n - 1);
    }
  }

  // ---------------------------------------------------------------- dynamic headers (section 3.2.7)

  /** The order of code-length symbols: the three runs, 0, and then outwards from 8. */
  lemma {:induction false} OrderLaw(k: nat)
    ensures |DEZIGZAG| == 19
    ensures DEZIGZAG[0] == 16 && DEZIGZAG[1] == 17 && DEZIGZAG[2] == 18 && DEZIGZAG[3] == 0
    ensures k < 8 ==> DEZIGZAG[4 + 2 * k] == 8 + k
    ensures k < 7 ==> DEZIGZAG[5 + 2 * k] == 7 - k
  {
  }

  lemma {:induction false} OrderDistinct(i: nat, j: nat)
    requires i < 19 && j < 19
    ensures DEZIGZAG[i] < 19 && (DEZIGZAG[i] == DEZIGZAG[j] ==> i == j)
  {
  }

  /** The i-th value sent is the length of symbol DEZIGZAG[i]; symbols not sent have none. */
  lemma {:induction false} ScatterAt(clen: seq<nat>, i: nat)
    requires |clen| <= 19 && i < 19
    ensures DEZIGZAG[i] < 19 && Scatter(clen)[DEZIGZAG[i]] == if i < |clen| then clen[i] else 0
  {
    hide Scatter;
    if clen == [] {
      NoSizes(i);
    } else {
      var last := |clen| - 1;
      ScatterAt(clen[..last], i);
      OrderDistinct(i, last);
      ScatterLast(clen);
    }
  }

  lemma {:induction false} ScatterLast(clen: seq<nat>)
    requires 0 < |clen| <= 19
    ensures var last := |clen| - 1;
            DEZIGZAG[last] < 19 && Scatter(clen) == Scatter(clen[..last])[DEZIGZAG[last] := clen[last]]
  {
  }

  lemma {:induction false} NoSizes(i: nat)
    requires i < 19
    ensures DEZIGZAG[i] < 19 && Scatter([])[DEZIGZAG[i]] == 0
  {
  }

  /**
   A code-length symbol up to 15 is a length; 16 copies the last one 3 to 6 times, 17 and 18 give 3 to 10 and 11 to 138
   zeros, by 2, 3 and 7 extra bits. Nothing goes beyond the announced number, and there is no last one at the start.
   */
  lemma {:induction false} OpRead(cl: seq<nat>, x: nat, ntot: nat, acc: seq<nat>)
    requires |cl| == 19 && |acc| < ntot && Lookup(cl, x).Symbol?
    ensures var c, s := Lookup(cl, x).value, Lookup(cl, x).bits;
            var r := ReadOp(cl, x, ntot, acc);
            var run := if c == 16 then 3 + Mask(Shr(x, s), 2) else if c == 17 then 3 + Mask(Shr(x, s), 3)
                       else 11 + Mask(Shr(x, s), 7);
            && c < 19
            && (c <= 15 ==> r == Ok(acc + [c], s))
            && (c >= 16 ==>
                  if |acc| + run > ntot || (c == 16 && acc == []) then r == Bad(BadCodeLengths)
                  else r.Ok? && |r.value| == |acc| + run && r.value[..|acc|] == acc
                       && r.bits == s + (if c == 16 then 2 else if c == 17 then 3 else 7)
                       && forall i :: |acc| <= i < |r.value| ==>
                            r.value[i] == if c == 16 then acc[|acc| - 1] else 0)
  {
    hide Shr, Mask, Rev;
  }

  /** Four bits for the number of code lengths from 4, and three bits for each, after 14. */
  function SizesAt(x: nat): (cl: seq<nat>)
    ensures |cl| == 19
  {
    FieldBounds(x);
    Scatter(ReadTriples(Shr(x, 14), 4 + Mask(Shr(x, 10), 4)))
  }

  /** Five bits of length codes from 257, five of distance codes from 1; one list of lengths for both. */
  lemma {:induction false} HeaderRead(x: nat)
    requires ReadHeader(x).Ok?
    ensures var c, m := ReadHeader(x).value, 14 + 3 * (4 + Mask(Shr(x, 10), 4));
            && |c.ll| == 257 + Mask(x, 5) && |c.dl| == 1 + Mask(Shr(x, 5), 5)
            && ReadLengths(SizesAt(x), Shr(x, m), |c.ll| + |c.dl|, []) == Ok(c.ll + c.dl, ReadHeader(x).bits - m)
  {
    hide Shr, Mask, KraftHolds, Scatter, ReadTriples, ReadLengths;
    FieldBounds(x);
    var c, m := ReadHeader(x).value, 14 + 3 * (4 + Mask(Shr(x, 10), 4));
    var lens := ReadLengths(SizesAt(x), Shr(x, m), 257 + Mask(x, 5) + (1 + Mask(Shr(x, 5), 5)), []).value;
    assert c.ll + c.dl == lens;
  }

  // ---------------------------------------------------------------- blocks (section 3.2.3) and the zlib header

  /** The lowest bit marks the last block; 0 is stored, 1 is fixed, 2 is dynamic, 3 is an error. */
  lemma {:induction false} BlockTypes(x: nat, pos: nat, total: nat, f: Filled, a: Alloc, mem: Memory)
    requires |f.out| <= f.limit && f.limit > 0
    ensures ReadBody(0, x, pos, total, f, a, mem) == ReadStored(x, pos, total, f, a)
    ensures ReadBody(1, x, pos, total, f, a, mem) == ReadBlock(FixedCodes().ll, FixedCodes().dl, x, f, a, mem)
    ensures ReadHeader(x).Ok? ==>
              var c, n := ReadHeader(x).value, ReadHeader(x).bits;
              ReadBody(2, x, pos, total, f, a, mem) == More(n, ReadBlock(c.ll, c.dl, Shr(x, n), f, a, mem))
    ensures ReadBody(3, x, pos, total, f, a, mem) == Bad(BadBlockType)
  {
    hide ReadBlock, ReadHeader, FixedCodes, Shr, ReadStored;
  }

  /** Method 8, no preset dictionary, and a multiple of 31 (RFC 1950 section 2.2). */
  lemma {:induction false} ZlibHeaderIff(cmf: byte, flg: byte)
    ensures ZlibHeaderOk(cmf, flg) <==> cmf % 16 == 8 && Bit(flg, 5) == 0 && (256 * cmf + flg) % 31 == 0
  {
    assert Shr(flg, 5) == flg / 32 by { ShrFive(flg); }
  }

  lemma {:induction false} ShrFive(x: nat)
    ensures Shr(x, 5) == x / 32
  {
    ShrHalf(x, 4);
    ShrHalf(x / 2, 3);
    ShrHalf(x / 2 / 2, 2);
    ShrHalf(x / 2 / 2 / 2, 1);
    ShrHalf(x / 2 / 2 / 2 / 2, 0);
    assert Shr(x / 2 / 2 / 2 / 2 / 2, 0) == x / 2 / 2 / 2 / 2 / 2;
  }
}
