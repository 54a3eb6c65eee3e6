/**
 What a DEFLATE stream means (RFC 1951), independently of tables, bit buffers and output
 buffers, and the laws that make it a code: reading inverts writing and writing inverts
 reading, token by token and block by block.

 A bit stream is a natural number (see `Bits`). To write something is to put its bits below
 the stream that follows; to read it is to look at the low bits and say how many were used.
 */
module Deflate {
  import opened Bytes
  import opened Bits
  import opened Huffman

  datatype Error =
    | BadHuffmanCode
    | BadDist
    | NoRoom
    | BadCodeLengths
    | ZlibCorrupt
    | ReadPastBuffer
    | BadBlockType
    | BadZlibHeader
    | Endless

  /** A value read from the front of a stream, and the number of bits it took. */
  datatype Parsed<+T> = Ok(value: T, bits: nat) | Bad(why: Error)

  // ---------------------------------------------------------------- fields and symbols

  /** The stream x preceded by the n-bit field v. */
  function WriteBits(v: nat, n: nat, x: nat): (r: nat) {
    v + Shl(x, n)
  }

  /** The first field is found in place, and what follows it m bits later is m bits into x. */
  lemma {:induction false} SkipField(v: nat, n: nat, x: nat, m: nat)
    requires v < Pow2(n)
    ensures Mask(WriteBits(v, n, x), n) == v
    ensures Shr(WriteBits(v, n, x), n) == x
    ensures Shr(WriteBits(v, n, x), n + m) == Shr(x, m)
  {
    Unpack(v, x, n);
    ShrShr(WriteBits(v, n, x), n, m);
  }

  /** From any place, a stream is its next field followed by the rest. */
  lemma {:induction false} TakeField(x: nat, at: nat, n: nat)
    ensures Shr(x, at) == WriteBits(Mask(Shr(x, at), n), n, Shr(x, at + n))
  {
    Split(Shr(x, at), n);
    ShrShr(x, at, n);
  }

  /** The stream x preceded by the code of symbol i, most significant code bit first. */
  function WriteSymbol(lens: seq<nat>, i: nat, x: nat): (r: nat)
    requires i < |lens| && lens[i] > 0
  {
    WriteBits(Rev(Code(lens, i), lens[i]), lens[i], x)
  }

  /** The symbol that opens the stream x, if any code does. */
  ghost function Lookup(lens: seq<nat>, x: nat): (d: Decoded) {
    if exists i: nat :: Prefixes(lens, i, x) then
      var i: nat :| Prefixes(lens, i, x);
      Symbol(i, lens[i])
    else
      BadCode
  }

  lemma {:induction false} LookupDecodes(lens: seq<nat>, x: nat, d: Decoded)
    requires Lengths(lens)
    ensures DecodesTo(lens, x, d) <==> d == Lookup(lens, x)
  {
    assert DecodesTo(lens, x, Lookup(lens, x));
    if DecodesTo(lens, x, d) {
      DecodesUnique(lens, x, d, Lookup(lens, x));
    }
  }

  predicate Coded(lens: seq<nat>, i: nat) {
    i < |lens| && lens[i] > 0
  }

  lemma {:induction false} LookupWritten(lens: seq<nat>, i: nat, x: nat)
    requires Lengths(lens) && KraftHolds(lens) && Coded(lens, i)
    ensures Lookup(lens, WriteSymbol(lens, i, x)) == Symbol(i, lens[i])
    ensures Shr(WriteSymbol(lens, i, x), lens[i]) == x
  {
    var c, s := Code(lens, i), lens[i];
    CodeBound(lens, i);
    RevBound(c, s);
    Unpack(Rev(c, s), x, s);
    RevIff(WriteSymbol(lens, i, x), c, s);
    assert Prefixes(lens, i, WriteSymbol(lens, i, x));
    LookupDecodes(lens, WriteSymbol(lens, i, x), Symbol(i, s));
  }

  lemma {:induction false} WrittenLookup(lens: seq<nat>, x: nat)
    requires Lengths(lens) && KraftHolds(lens) && Lookup(lens, x).Symbol?
    ensures var d := Lookup(lens, x);
            Coded(lens, d.value) && d.bits == lens[d.value]
            && x == WriteSymbol(lens, d.value, Shr(x, d.bits))
  {
    var d := Lookup(lens, x);
    LookupDecodes(lens, x, d);
    CodeBound(lens, d.value);
    RevIff(x, Code(lens, d.value), d.bits);
    Split(x, d.bits);
  }

  // ---------------------------------------------------------------- tokens

  const LENGTH_BASE: seq<nat> := [3, 4, 5, 6, 7, 8, 9, 10, 11, 13, 15, 17, 19, 23, 27, 31,
    35, 43, 51, 59, 67, 83, 99, 115, 131, 163, 195, 227, 258, 0, 0]

  const LENGTH_EXTRA: seq<nat> := [0, 0, 0, 0, 0, 0, 0, 0, 1, 1, 1, 1, 2, 2, 2, 2,
    3, 3, 3, 3, 4, 4, 4, 4, 5, 5, 5, 5, 0, 0, 0]

  const DIST_BASE: seq<nat> := [1, 2, 3, 4, 5, 7, 9, 13, 17, 25, 33, 49, 65, 97, 129, 193,
    257, 385, 513, 769, 1025, 1537, 2049, 3073, 4097, 6145, 8193, 12289, 16385, 24577, 0, 0]

  const DIST_EXTRA: seq<nat> := [0, 0, 0, 0, 1, 1, 2, 2, 3, 3, 4, 4, 5, 5, 6, 6,
    7, 7, 8, 8, 9, 9, 10, 10, 11, 11, 12, 12, 13, 13, 0, 0]

  const END_OF_BLOCK: nat := 256
  const LAST_LENGTH: nat := 285
  const LAST_DIST: nat := 29

  /**
   The tables have zeros for the two length symbols and the two distance symbols that the standard gives no meaning
   (section 3.2.5 of RFC 1951). Beyond the tables there is no symbol.
   */
  function LengthBase(z: nat): (n: nat)
    requires 257 <= z
    ensures n > 0 <==> z <= LAST_LENGTH
  {
    if z - 257 < |LENGTH_BASE| then LENGTH_BASE[z - 257] else 0
  }

  function LengthExtra(z: nat): (n: nat)
    requires 257 <= z
    ensures n <= 5 && (z > LAST_LENGTH ==> n == 0)
  {
    if z - 257 < |LENGTH_EXTRA| then LENGTH_EXTRA[z - 257] else 0
  }

  function DistBase(d: nat): (n: nat)
    ensures n > 0 <==> d <= LAST_DIST
  {
    if d < |DIST_BASE| then DIST_BASE[d] else 0
  }

  function DistExtra(d: nat): (n: nat)
    ensures n <= 13 && (d > LAST_DIST ==> n == 0)
  {
    if d < |DIST_EXTRA| then DIST_EXTRA[d] else 0
  }

  /** A literal byte, the end mark, or a match given by its two symbols and their extra bits. */
  datatype Token =
    | Literal(b: byte)
    | EndOfBlock
    | Match(lsym: nat, lext: nat, dsym: nat, dext: nat)

  predicate MatchOk(dl: seq<nat>, t: Token) {
    && t.Match? && 257 <= t.lsym && t.lext < Pow2(LengthExtra(t.lsym))
    && Coded(dl, t.dsym) && t.dext < Pow2(DistExtra(t.dsym))
  }

  /** The token can be written with these two codes. */
  predicate TokenOk(ll: seq<nat>, dl: seq<nat>, t: Token) {
    match t
    case Literal(b) => Coded(ll, b)
    case EndOfBlock => Coded(ll, END_OF_BLOCK)
    case Match(l, _, _, _) => Coded(ll, l) && MatchOk(dl, t)
  }

  function WriteToken(ll: seq<nat>, dl: seq<nat>, t: Token, x: nat): (r: nat)
    requires TokenOk(ll, dl, t)
  {
    match t
    case Literal(b) => WriteSymbol(ll, b, x)
    case EndOfBlock => WriteSymbol(ll, END_OF_BLOCK, x)
    case Match(l, le, d, de) =>
      WriteSymbol(ll, l, WriteBits(le, LengthExtra(l), WriteSymbol(dl, d, WriteBits(de, DistExtra(d), x))))
  }

  function TokenBits(ll: seq<nat>, dl: seq<nat>, t: Token): (r: nat)
    requires TokenOk(ll, dl, t)
    ensures r > 0
  {
    match t
    case Literal(b) => ll[b]
    case EndOfBlock => ll[END_OF_BLOCK]
    case Match(l, _, d, _) => ll[l] + LengthExtra(l) + dl[d] + DistExtra(d)
  }

  ghost function ReadToken(ll: seq<nat>, dl: seq<nat>, x: nat): (r: Parsed<Token>)
    ensures r.Ok? ==> r.bits > 0 && (r.value.Match? ==> 257 <= r.value.lsym)
  {
    match Lookup(ll, x)
    case BadCode => Bad(BadHuffmanCode)
    case Symbol(z, s) =>
      if z < 256 then Ok(Literal(z), s)
      else if z == END_OF_BLOCK then Ok(EndOfBlock, s)
      else ReadMatch(dl, z, s, x)
  }

  /** The rest of a match after its s-bit length symbol z. */
  ghost function ReadMatch(dl: seq<nat>, z: nat, s: nat, x: nat): (r: Parsed<Token>)
    requires 257 <= z
  {
    var e := LengthExtra(z);
    match Lookup(dl, Shr(x, s + e))
    case BadCode => Bad(BadHuffmanCode)
    case Symbol(d, t) =>
      Ok(Match(z, Mask(Shr(x, s), e), d, Mask(Shr(x, s + e + t), DistExtra(d))), s + e + t + DistExtra(d))
  }

  /** Reading the second half of a match after any s-bit front c. */
  lemma {:induction false} ReadMatchWritten(dl: seq<nat>, c: nat, s: nat, t: Token, x: nat)
    requires Lengths(dl) && KraftHolds(dl) && c < Pow2(s) && MatchOk(dl, t)
    ensures var e, f := LengthExtra(t.lsym), DistExtra(t.dsym);
            var y := WriteBits(c, s, WriteBits(t.lext, e, WriteSymbol(dl, t.dsym, WriteBits(t.dext, f, x))));
            var n := s + e + dl[t.dsym] + f;
            ReadMatch(dl, t.lsym, s, y) == Ok(t, n) && Shr(y, n) == x
  {
    hide Shr, Mask, Shl, Pow2, WriteBits, WriteSymbol, KraftHolds, Lengths, Lookup, LengthExtra, DistExtra;
    FieldsWritten(dl, c, s, t.lext, LengthExtra(t.lsym), t.dsym, t.dext, DistExtra(t.dsym), x);
  }

  /** The four fields of a match, found where they were put. */
  lemma {:induction false} FieldsWritten(dl: seq<nat>, c: nat, s: nat, le: nat, e: nat, d: nat, de: nat, f: nat, x: nat)
    requires Lengths(dl) && KraftHolds(dl) && Coded(dl, d)
    requires c < Pow2(s) && le < Pow2(e) && de < Pow2(f)
    ensures var y := WriteBits(c, s, WriteBits(le, e, WriteSymbol(dl, d, WriteBits(de, f, x))));
            var t := dl[d];
            && Mask(Shr(y, s), e) == le
            && Lookup(dl, Shr(y, s + e)) == Symbol(d, t)
            && Mask(Shr(y, s + e + t), f) == de
            && Shr(y, s + e + t + f) == x
  {
    hide Shr, Mask, Shl, Pow2, WriteBits;
    var t := dl[d];
    var x3 := WriteBits(de, f, x);
    var x2 := WriteSymbol(dl, d, x3);
    var x1 := WriteBits(le, e, x2);
    LookupWritten(dl, d, x3);
    SkipField(c, s, x1, e);
    SkipField(c, s, x1, e + t);
    SkipField(c, s, x1, e + t + f);
    SkipField(le, e, x2, t);
    SkipField(le, e, x2, t + f);
    SkipField(Rev(Code(dl, d), t), t, x3, f) by { RevBound(Code(dl, d), t); }
    SkipField(de, f, x, 0);
  }

  /** The four fields of a match make up the stream. */
  lemma {:induction false} WrittenFields(dl: seq<nat>, s: nat, e: nat, f: nat, x: nat)
    requires Lengths(dl) && KraftHolds(dl) && Lookup(dl, Shr(x, s + e)).Symbol?
    ensures var d, t := Lookup(dl, Shr(x, s + e)).value, Lookup(dl, Shr(x, s + e)).bits;
            Coded(dl, d) && t == dl[d] &&
            Shr(x, s) == WriteBits(Mask(Shr(x, s), e), e,
              WriteSymbol(dl, d, WriteBits(Mask(Shr(x, s + e + t), f), f, Shr(x, s + e + t + f))))
  {
    hide Shr, Mask, Shl, WriteSymbol;
    var y := Shr(x, s + e);
    WrittenLookup(dl, y);
    var t := Lookup(dl, y).bits;
    TakeField(x, s, e);
    ShrShr(x, s + e, t);
    TakeField(x, s + e + t, f);
  }

  /** Reading gives back the token written, and leaves exactly the stream that followed it. */
  lemma {:induction false} ReadWritten(ll: seq<nat>, dl: seq<nat>, t: Token, x: nat)
    requires Lengths(ll) && KraftHolds(ll) && Lengths(dl) && KraftHolds(dl)
    requires TokenOk(ll, dl, t)
    ensures ReadToken(ll, dl, WriteToken(ll, dl, t, x)) == Ok(t, TokenBits(ll, dl, t))
    ensures Shr(WriteToken(ll, dl, t, x), TokenBits(ll, dl, t)) == x
  {
    hide KraftHolds, Shr, LengthExtra, DistExtra;
    match t
    case Literal(b) => LookupWritten(ll, b, x);
    case EndOfBlock => LookupWritten(ll, END_OF_BLOCK, x);
    case Match(l, le, d, de) =>
      var tail := WriteBits(le, LengthExtra(l), WriteSymbol(dl, d, WriteBits(de, DistExtra(d), x)));
      LookupWritten(ll, l, tail);
      RevBound(Code(ll, l), ll[l]);
      ReadMatchWritten(dl, Rev(Code(ll, l), ll[l]), ll[l], t, x);
  }

  /** Whatever is read was written: the stream is the token's bits followed by the rest. */
  lemma {:induction false} WrittenRead(ll: seq<nat>, dl: seq<nat>, x: nat)
    requires Lengths(ll) && KraftHolds(ll) && Lengths(dl) && KraftHolds(dl)
    requires ReadToken(ll, dl, x).Ok?
    ensures var r := ReadToken(ll, dl, x);
            TokenOk(ll, dl, r.value) && r.bits == TokenBits(ll, dl, r.value)
            && x == WriteToken(ll, dl, r.value, Shr(x, r.bits))
  {
    hide Shr, Mask, Shl, WriteSymbol, KraftHolds, LengthExtra, DistExtra;
    WrittenLookup(ll, x);
    var z, s := Lookup(ll, x).value, Lookup(ll, x).bits;
    if z > END_OF_BLOCK {
      WrittenMatch(dl, z, s, x);
    }
  }

  lemma {:induction false} WrittenMatch(dl: seq<nat>, z: nat, s: nat, x: nat)
    requires Lengths(dl) && KraftHolds(dl) && 257 <= z && ReadMatch(dl, z, s, x).Ok?
    ensures var r := ReadMatch(dl, z, s, x);
            && MatchOk(dl, r.value) && r.value.lsym == z
            && r.bits == s + LengthExtra(z) + dl[r.value.dsym] + DistExtra(r.value.dsym)
            && Shr(x, s) == WriteBits(r.value.lext, LengthExtra(z),
                 WriteSymbol(dl, r.value.dsym, WriteBits(r.value.dext, DistExtra(r.value.dsym), Shr(x, r.bits))))
  {
    hide Shr, Mask, Shl, WriteBits, WriteSymbol, KraftHolds, Lengths, Lookup, LengthExtra, DistExtra;
    var e := LengthExtra(z);
    var d, t := Lookup(dl, Shr(x, s + e)).value, Lookup(dl, Shr(x, s + e)).bits;
    WrittenFields(dl, s, e, DistExtra(d), x);
    MaskBound(Shr(x, s), e);
    MaskBound(Shr(x, s + e + t), DistExtra(d));
  }

  // ---------------------------------------------------------------- LZ77 expansion

  /** What the allocator left at each place of the output buffer. */
  type Memory = nat -> byte

  function MatchLength(t: Token): (r: nat)
    requires t.Match? && 257 <= t.lsym
  {
    LengthBase(t.lsym) + t.lext
  }

  function MatchDist(t: Token): (r: nat)
    requires t.Match?
  {
    DistBase(t.dsym) + t.dext
  }

  /**
   Appends len bytes, each the byte dist before it: section 3.2.3 of RFC 1951. At distance 0 that is the byte in its
   own place, which has never been written.
   */
  function CopyBack(mem: Memory, out: seq<byte>, dist: nat, len: nat): (r: seq<byte>)
    requires dist <= |out|
    ensures |r| == |out| + len
    decreases len
  {
    if len == 0 then out
    else CopyBack(mem, out + [if dist == 0 then mem(|out|) else out[|out| - dist]], dist, len - 1)
  }

  /** A match keeps the output so far, and every new byte equals the one dist earlier, or the memory at its place. */
  lemma {:induction false} CopyBackBytes(mem: Memory, out: seq<byte>, dist: nat, len: nat)
    requires dist <= |out|
    ensures CopyBack(mem, out, dist, len)[..|out|] == out
    ensures forall k :: |out| <= k < |out| + len ==>
              CopyBack(mem, out, dist, len)[k] == if dist == 0 then mem(k) else CopyBack(mem, out, dist, len)[k - dist]
    decreases len
  {
    if len > 0 {
      var next := out + [if dist == 0 then mem(|out|) else out[|out| - dist]];
      var r := CopyBack(mem, out, dist, len);
      CopyBackBytes(mem, next, dist, len - 1);
      assert r[..|next|] == next;
      assert r[..|out|] == r[..|next|][..|out|];
      assert r[|out|] == r[..|next|][|out|];
      assert dist > 0 ==> r[|out| - dist] == r[..|next|][|out| - dist];
    }
  }

  /** Copying one byte more appends one byte more. */
  lemma {:induction false} CopyBackLast(mem: Memory, out: seq<byte>, dist: nat, len: nat)
    requires dist <= |out|
    ensures var r := CopyBack(mem, out, dist, len);
            CopyBack(mem, out, dist, len + 1) == r + [if dist == 0 then mem(|r|) else r[|r| - dist]]
    decreases len
  {
    var next := out + [if dist == 0 then mem(|out|) else out[|out| - dist]];
    if len > 0 {
      CopyBackLast(mem, next, dist, len - 1);
    } else {
      assert CopyBack(mem, out, dist, 1) == CopyBack(mem, next, dist, 0);
    }
  }

  /** The token is a literal, or a match that reaches no further back than the output. */
  predicate Reaches(t: Token, size: nat) {
    match t
    case Literal(_) => true
    case EndOfBlock => false
    case Match(l, _, _, _) => 257 <= l && MatchDist(t) <= size
  }

  /** How many bytes the token gives. */
  function TokenLength(t: Token): (n: nat)
    requires t.Match? ==> 257 <= t.lsym
  {
    if t.Match? then MatchLength(t) else 1
  }

  function Apply(mem: Memory, out: seq<byte>, t: Token): (r: seq<byte>)
    requires Reaches(t, |out|)
    ensures |r| == |out| + TokenLength(t)
  {
    match t
    case Literal(b) => out + [b]
    case Match(_, _, _, _) => CopyBack(mem, out, MatchDist(t), MatchLength(t))
  }

  predicate AllReach(size: nat, ts: seq<Token>)
    decreases |ts|
  {
    ts == [] || (Reaches(ts[0], size) && AllReach(size + TokenLength(ts[0]), ts[1..]))
  }

  /** How many bytes the tokens give. */
  function TokensLength(size: nat, ts: seq<Token>): (n: nat)
    requires AllReach(size, ts)
    decreases |ts|
  {
    if ts == [] then 0
    else TokenLength(ts[0]) + TokensLength(size + TokenLength(ts[0]), ts[1..])
  }

  /** The LZ77 expansion of a token list after the output so far. */
  function Expand(mem: Memory, out: seq<byte>, ts: seq<Token>): (r: seq<byte>)
    requires AllReach(|out|, ts)
    ensures |r| == |out| + TokensLength(|out|, ts)
    decreases |ts|
  {
    if ts == [] then out else Expand(mem, Apply(mem, out, ts[0]), ts[1..])
  }

  // ---------------------------------------------------------------- output room

  /** How the output buffer may grow: not at all, or by doubling while the heap can serve it. */
  datatype Alloc = Alloc(expandable: bool, heap: nat)

  /** The size reached by doubling limit until it holds need bytes. */
  function Grown(limit: nat, need: nat): (r: nat)
    requires limit > 0
    ensures r >= limit && r >= need
    decreases if need > limit then need - limit else 0
  {
    if need <= limit then limit else Grown(2 * limit, need)
  }

  predicate CanReserve(limit: nat, need: nat, a: Alloc)
    requires limit > 0
  {
    need <= limit || (a.expandable && Grown(limit, need) <= a.heap)
  }

  lemma {:induction false} GrownTwice(limit: nat, m: nat, n: nat)
    requires limit > 0 && m <= n
    ensures Grown(Grown(limit, m), n) == Grown(limit, n)
    ensures Grown(limit, m) <= Grown(limit, n)
    decreases if n > limit then n - limit else 0
  {
    if m > limit {
      GrownTwice(2 * limit, m, n);
    } else if n > limit {
      GrownTwice(2 * limit, 2 * limit, if n > 2 * limit then n else 2 * limit);
    }
  }

  // ---------------------------------------------------------------- a compressed block

  /** A reserved buffer stays within the larger of the first buffer and the heap. */
  lemma {:induction false} CapStep(limit: nat, need: nat, a: Alloc)
    requires limit > 0 && CanReserve(limit, need, a)
    ensures Cap(Grown(limit, need), a) <= Cap(limit, a)
    ensures need <= Cap(limit, a)
  {
  }

  /** Output produced and size of the buffer that holds it. */
  datatype Filled = Filled(out: seq<byte>, limit: nat)

  function Cap(limit: nat, a: Alloc): nat {
    if limit > a.heap then limit else a.heap
  }

  /** After one bit or more the stream is a smaller number, or nothing but zeros. */
  lemma {:induction false} ShrLess(x: nat, n: nat)
    requires n > 0
    ensures Shr(x, n) < x || (x == 0 && Shr(x, n) == 0)
  {
    if n > 1 {
      ShrLess(x / 2, n - 1);
    }
  }

  /**
   What decoding a block of Huffman-coded tokens does, from the stream x. When a token gives nothing and leaves the
   stream as it was, the next round finds what this one found: the loop never ends.
   */
  ghost function ReadBlock(ll: seq<nat>, dl: seq<nat>, x: nat, f: Filled, a: Alloc, mem: Memory): (r: Parsed<Filled>)
    requires |f.out| <= f.limit && f.limit > 0
    ensures r.Ok? ==> |r.value.out| <= r.value.limit && r.value.limit > 0
    ensures r.Ok? ==> |f.out| <= |r.value.out|
    decreases Cap(f.limit, a) - |f.out|, x
  {
    match ReadToken(ll, dl, x)
    case Bad(e) => Bad(e)
    case Ok(t, n) =>
      if t.EndOfBlock? then Ok(f, n)
      else if !Reaches(t, |f.out|) then Bad(BadDist)
      else
        var out := Apply(mem, f.out, t);
        if !CanReserve(f.limit, |out|, a) then Bad(NoRoom)
        else if TokenLength(t) == 0 && Shr(x, n) == x then Bad(Endless)
        else
          ShrLess(x, n);
          CapStep(f.limit, |out|, a);
          match ReadBlock(ll, dl, Shr(x, n), Filled(out, Grown(f.limit, |out|)), a, mem)
          case Bad(e) => Bad(e)
          case Ok(g, m) => Ok(g, n + m)
  }

  /** One round of the loop, and the rest of it. */
  lemma {:induction false} BlockRound(ll: seq<nat>, dl: seq<nat>, x: nat, f: Filled, a: Alloc, mem: Memory)
    requires |f.out| <= f.limit && f.limit > 0
    ensures var r, whole := ReadToken(ll, dl, x), ReadBlock(ll, dl, x, f, a, mem);
            && (r.Bad? ==> whole == Bad(r.why))
            && (r.Ok? && r.value.EndOfBlock? ==> whole == Ok(f, r.bits))
            && (r.Ok? && !r.value.EndOfBlock? ==>
                  if !Reaches(r.value, |f.out|) then whole == Bad(BadDist)
                  else
                    var out := Apply(mem, f.out, r.value);
                    if !CanReserve(f.limit, |out|, a) then whole == Bad(NoRoom)
                    else if TokenLength(r.value) == 0 && Shr(x, r.bits) == x then whole == Bad(Endless)
                    else
                      var g := Filled(out, Grown(f.limit, |out|));
                      var rest := ReadBlock(ll, dl, Shr(x, r.bits), g, a, mem);
                      whole == if rest.Bad? then Bad(rest.why) else Ok(rest.value, r.bits + rest.bits))
  {
    hide ReadToken, Reaches, Apply, CanReserve, Shr, TokenLength, Grown;
  }

  /** The tokens and the end mark can be written with these codes. */
  predicate TokensOk(ll: seq<nat>, dl: seq<nat>, ts: seq<Token>) {
    if ts == [] then TokenOk(ll, dl, EndOfBlock)
    else TokenOk(ll, dl, ts[0]) && TokensOk(ll, dl, ts[1..])
  }

  /** The tokens and the end mark, in front of the stream x. */
  function WriteBlock(ll: seq<nat>, dl: seq<nat>, ts: seq<Token>, x: nat): (r: nat)
    requires TokensOk(ll, dl, ts)
  {
    if ts == [] then WriteToken(ll, dl, EndOfBlock, x)
    else WriteToken(ll, dl, ts[0], WriteBlock(ll, dl, ts[1..], x))
  }

  function BlockBits(ll: seq<nat>, dl: seq<nat>, ts: seq<Token>): (r: nat)
    requires TokensOk(ll, dl, ts)
  {
    if ts == [] then TokenBits(ll, dl, EndOfBlock)
    else TokenBits(ll, dl, ts[0]) + BlockBits(ll, dl, ts[1..])
  }

  lemma {:induction false} ReserveEarlier(limit: nat, m: nat, n: nat, a: Alloc)
    requires limit > 0 && m <= n && CanReserve(limit, n, a)
    ensures CanReserve(limit, m, a) && CanReserve(Grown(limit, m), n, a)
    ensures Grown(Grown(limit, m), n) == Grown(limit, n)
  {
    GrownTwice(limit, m, n);
  }

  lemma {:induction false} ReserveLater(limit: nat, m: nat, n: nat, a: Alloc)
    requires limit > 0 && m <= n && CanReserve(limit, m, a) && CanReserve(Grown(limit, m), n, a)
    ensures CanReserve(limit, n, a)
    ensures Grown(Grown(limit, m), n) == Grown(limit, n)
  {
    GrownTwice(limit, m, n);
  }

  /** Reading token after token from x gives ts and then the end mark, in n bits. */
  ghost predicate Opens(ll: seq<nat>, dl: seq<nat>, x: nat, ts: seq<Token>, n: nat)
    decreases |ts|
  {
    match ReadToken(ll, dl, x)
    case Bad(_) => false
    case Ok(t, m) =>
      if ts == [] then t == EndOfBlock && n == m
      else t == ts[0] && t != EndOfBlock && m <= n && Opens(ll, dl, Shr(x, m), ts[1..], n - m)
  }

  lemma {:induction false} WrittenOpens(ll: seq<nat>, dl: seq<nat>, ts: seq<Token>, x: nat)
    requires Lengths(ll) && KraftHolds(ll) && Lengths(dl) && KraftHolds(dl)
    requires TokensOk(ll, dl, ts) && EndOfBlock !in ts
    ensures Opens(ll, dl, WriteBlock(ll, dl, ts, x), ts, BlockBits(ll, dl, ts))
    ensures Shr(WriteBlock(ll, dl, ts, x), BlockBits(ll, dl, ts)) == x
    decreases |ts|
  {
    hide WriteToken, ReadToken, TokenOk, TokenBits;
    var t := if ts == [] then EndOfBlock else ts[0];
    var rest := if ts == [] then x else WriteBlock(ll, dl, ts[1..], x);
    ReadWritten(ll, dl, t, rest);
    if ts != [] {
      WrittenOpens(ll, dl, ts[1..], x);
      ShrShr(WriteBlock(ll, dl, ts, x), TokenBits(ll, dl, t), BlockBits(ll, dl, ts[1..]));
    }
  }

  lemma {:induction false} NoEndMark(size: nat, ts: seq<Token>)
    requires AllReach(size, ts)
    ensures EndOfBlock !in ts
    decreases |ts|
  {
    if ts != [] {
      NoEndMark(size + TokenLength(ts[0]), ts[1..]);
      assert ts == [ts[0]] + ts[1..];
    }
  }

  /** Zeros alone are the same token for ever, so only the end mark can come first in a block of them. */
  lemma {:induction false} ZerosEnd(ll: seq<nat>, dl: seq<nat>, ts: seq<Token>, n: nat)
    requires Opens(ll, dl, 0, ts, n)
    ensures ts == []
    decreases |ts|
  {
    hide ReadToken;
    if ts != [] {
      var m := ReadToken(ll, dl, 0).bits;
      ShrZero(m);
      ZerosEnd(ll, dl, ts[1..], n - m);
    }
  }

  lemma {:induction false} ExpandKeeps(mem: Memory, out: seq<byte>, ts: seq<Token>)
    requires AllReach(|out|, ts)
    ensures out <= Expand(mem, out, ts)
    decreases |ts|
  {
    hide CopyBack;
    if ts != [] {
      var t := ts[0];
      if t.Match? {
        CopyBackBytes(mem, out, MatchDist(t), MatchLength(t));
      }
      var next := Apply(mem, out, t);
      assert next[..|out|] == out;
      ExpandKeeps(mem, next, ts[1..]);
    }
  }

  /** A stream that opens with tokens that reach and fit is decoded to their expansion. */
  lemma {:induction false} OpensDecodes(ll: seq<nat>, dl: seq<nat>, x: nat, ts: seq<Token>, n: nat, f: Filled, a: Alloc,
                                        mem: Memory)
    requires Opens(ll, dl, x, ts, n) && AllReach(|f.out|, ts)
    requires |f.out| <= f.limit && f.limit > 0 && CanReserve(f.limit, |Expand(mem, f.out, ts)|, a)
    ensures var out := Expand(mem, f.out, ts);
            ReadBlock(ll, dl, x, f, a, mem) == Ok(Filled(out, Grown(f.limit, |out|)), n)
    decreases |ts|
  {
    hide ReadToken, Apply, CanReserve, Grown;
    if ts != [] {
      var m := ReadToken(ll, dl, x).bits;
      var out := Apply(mem, f.out, ts[0]);
      ShrLess(x, m);
      if x == 0 {
        ZerosEnd(ll, dl, ts, n);
      }
      ReserveEarlier(f.limit, |out|, |Expand(mem, f.out, ts)|, a);
      OpensDecodes(ll, dl, Shr(x, m), ts[1..], n - m, Filled(out, Grown(f.limit, |out|)), a, mem);
    } else {
      NoGrowth(f.limit, |f.out|);
    }
  }

  lemma {:induction false} NoGrowth(limit: nat, need: nat)
    requires 0 < limit && need <= limit
    ensures Grown(limit, need) == limit
  {
  }

  /** A block that decodes opens with tokens that reach and fit. */
  lemma {:induction false} DecodesOpens(ll: seq<nat>, dl: seq<nat>, x: nat, f: Filled, a: Alloc, mem: Memory)
    returns (ts: seq<Token>)
    requires |f.out| <= f.limit && f.limit > 0
    requires ReadBlock(ll, dl, x, f, a, mem).Ok?
    ensures Opens(ll, dl, x, ts, ReadBlock(ll, dl, x, f, a, mem).bits) && AllReach(|f.out|, ts)
    ensures CanReserve(f.limit, |Expand(mem, f.out, ts)|, a)
    decreases Cap(f.limit, a) - |f.out|, x
  {
    hide ReadToken, Apply, CanReserve, Grown;
    var t, n := ReadToken(ll, dl, x).value, ReadToken(ll, dl, x).bits;
    if t.EndOfBlock? {
      ts := [];
      RoomAsItIs(f.limit, |f.out|, a);
    } else {
      var out := Apply(mem, f.out, t);
      ShrLess(x, n);
      CapStep(f.limit, |out|, a);
      var tail := DecodesOpens(ll, dl, Shr(x, n), Filled(out, Grown(f.limit, |out|)), a, mem);
      ts := [t] + tail;
      assert ts[1..] == tail;
      ReserveLater(f.limit, |out|, |Expand(mem, out, tail)|, a);
    }
  }

  lemma {:induction false} RoomAsItIs(limit: nat, need: nat, a: Alloc)
    requires 0 < limit && need <= limit
    ensures CanReserve(limit, need, a)
  {
  }

  lemma {:induction false} OpensWritten(ll: seq<nat>, dl: seq<nat>, x: nat, ts: seq<Token>, n: nat)
    requires Lengths(ll) && KraftHolds(ll) && Lengths(dl) && KraftHolds(dl)
    requires Opens(ll, dl, x, ts, n)
    ensures TokensOk(ll, dl, ts) && n == BlockBits(ll, dl, ts) && x == WriteBlock(ll, dl, ts, Shr(x, n))
    decreases |ts|
  {
    hide WriteToken, ReadToken, TokenOk, TokenBits;
    WrittenRead(ll, dl, x);
    if ts != [] {
      var m := ReadToken(ll, dl, x).bits;
      OpensWritten(ll, dl, Shr(x, m), ts[1..], n - m);
      ShrShr(x, m, n - m);
    }
  }

  /**
   Every legal token list that fits is decoded to its LZ77 expansion, and the decoder stops
   right after its end mark. However often the buffer grows on the way, it ends at the size
   that one growth to the final length would have given.
   */
  lemma {:induction false} BlockRoundTrip(ll: seq<nat>, dl: seq<nat>, ts: seq<Token>, x: nat, f: Filled, a: Alloc,
                                          mem: Memory)
    requires Lengths(ll) && KraftHolds(ll) && Lengths(dl) && KraftHolds(dl)
    requires TokensOk(ll, dl, ts) && AllReach(|f.out|, ts)
    requires |f.out| <= f.limit && f.limit > 0 && CanReserve(f.limit, |Expand(mem, f.out, ts)|, a)
    ensures var out := Expand(mem, f.out, ts);
            ReadBlock(ll, dl, WriteBlock(ll, dl, ts, x), f, a, mem) ==
            Ok(Filled(out, Grown(f.limit, |out|)), BlockBits(ll, dl, ts))
    ensures Shr(WriteBlock(ll, dl, ts, x), BlockBits(ll, dl, ts)) == x
  {
    hide ReadBlock, WriteBlock, Opens, Expand, TokensOk, KraftHolds, Lengths, CanReserve, Grown;
    NoEndMark(|f.out|, ts);
    WrittenOpens(ll, dl, ts, x);
    OpensDecodes(ll, dl, WriteBlock(ll, dl, ts, x), ts, BlockBits(ll, dl, ts), f, a, mem);
  }

  /** Every block the decoder accepts is some legal token list, with that list's expansion as output. */
  lemma {:induction false} BlockSound(ll: seq<nat>, dl: seq<nat>, x: nat, f: Filled, a: Alloc, mem: Memory)
    returns (ts: seq<Token>)
    requires Lengths(ll) && KraftHolds(ll) && Lengths(dl) && KraftHolds(dl)
    requires |f.out| <= f.limit && f.limit > 0
    requires ReadBlock(ll, dl, x, f, a, mem).Ok?
    ensures TokensOk(ll, dl, ts) && AllReach(|f.out|, ts)
    ensures CanReserve(f.limit, |Expand(mem, f.out, ts)|, a)
    ensures var r, out := ReadBlock(ll, dl, x, f, a, mem), Expand(mem, f.out, ts);
            r.value == Filled(out, Grown(f.limit, |out|))
            && r.bits == BlockBits(ll, dl, ts) && x == WriteBlock(ll, dl, ts, Shr(x, r.bits))
  {
    hide ReadBlock, WriteBlock, Opens, Expand, TokensOk, KraftHolds, Lengths, CanReserve, Grown, AllReach;
    var n := ReadBlock(ll, dl, x, f, a, mem).bits;
    ts := DecodesOpens(ll, dl, x, f, a, mem);
    OpensDecodes(ll, dl, x, ts, n, f, a, mem);
    OpensWritten(ll, dl, x, ts, n);
  }
}
