/**
 Whole DEFLATE streams: stored blocks, code-length headers and block sequences (sections
 3.2.3, 3.2.4 and 3.2.7 of RFC 1951), with a writer and a reader for each and the law that
 reading inverts writing.
 */
module DeflateStream {
  import opened Bytes
  import opened Bits
  import opened Huffman
  import opened Deflate

  // ---------------------------------------------------------------- bytes

  /** The bit stream of a byte sequence, each byte least significant bit first. */
  function LE(s: seq<byte>): (r: nat) {
    if s == [] then 0 else s[0] + 256 * LE(s[1..])
  }

  /** Byte i of s, or the 0 that `stbi__zget8` returns past the end. */
  function ByteAt(s: seq<byte>, i: nat): byte {
    if i < |s| then s[i] else 0
  }

  /** The next n whole bytes of the stream x. */
  function TakeBytes(x: nat, n: nat): (r: seq<byte>)
    ensures |r| == n
    decreases n
  {
    if n == 0 then [] else [x % 256] + TakeBytes(x / 256, n - 1)
  }

  function WriteBytes(data: seq<byte>, x: nat): (r: nat) {
    if data == [] then x else data[0] + 256 * WriteBytes(data[1..], x)
  }

  lemma {:induction false} EightBits(x: nat, b: byte)
    ensures Shr(x, 8) == x / 256 && Mask(x, 8) == x % 256
    ensures Shl(b, 0) == b && Shl(x, 8) == 256 * x
  {
    ShlSmall(x);
    ShlSmall(x / 256);
    ShlSmall(1);
    Unpack(x % 256, x / 256, 8);
  }

  /** Skipping whole bytes of the stream is skipping them in the sequence. */
  lemma {:induction false} SkipBytes(s: seq<byte>, q: nat)
    ensures Shr(LE(s), 8 * q) == LE(if q <= |s| then s[q..] else [])
    decreases q
  {
    if q > 0 {
      SkipBytes(s, q - 1);
      ShrShr(LE(s), 8 * (q - 1), 8);
      var t := if q - 1 <= |s| then s[q - 1..] else [];
      EightBits(LE(t), 0);
      if q <= |s| {
        assert t[1..] == s[q..];
      }
    } else {
      assert s[0..] == s;
    }
  }

  /** Bit j of byte i of the input is bit 8i + j of the stream: section 3.1.1 of RFC 1951. */
  lemma {:induction false} StreamBit(s: seq<byte>, i: nat, j: nat)
    requires j < 8
    ensures Bit(LE(s), 8 * i + j) == Bit(ByteAt(s, i), j)
  {
    SkipBytes(s, i);
    BitOfShr(LE(s), 8 * i, j);
    var t := if i <= |s| then s[i..] else [];
    if t != [] {
      ShlSmall(LE(t[1..]));
      ShlSmall(1);
      BitOfPacked(t[0], LE(t[1..]), 8, j);
    }
  }

  lemma {:induction false} TakeInput(s: seq<byte>, n: nat)
    ensures TakeBytes(LE(s), n) == seq(n, i requires 0 <= i => ByteAt(s, i))
    decreases n
  {
    if n > 0 {
      var t := if s == [] then [] else s[1..];
      assert LE(s) / 256 == LE(t) && LE(s) % 256 == ByteAt(s, 0);
      TakeInput(t, n - 1);
      assert forall i :: 0 <= i ==> ByteAt(t, i) == ByteAt(s, i + 1);
    }
  }

  lemma {:induction false} TakeWritten(data: seq<byte>, x: nat)
    ensures TakeBytes(WriteBytes(data, x), |data|) == data
    ensures Shr(WriteBytes(data, x), 8 * |data|) == x
  {
    if data != [] {
      var y := WriteBytes(data[1..], x);
      var w := WriteBytes(data, x);
      assert w == data[0] + 256 * y;
      assert w / 256 == y && w % 256 == data[0];
      TakeWritten(data[1..], x);
      EightBits(w, 0);
      ShrShr(w, 8, 8 * |data[1..]|);
    }
  }

  // ---------------------------------------------------------------- stored blocks

  /** Bits up to the next byte boundary. */
  function Pad(pos: nat): (r: nat)
    ensures r < 8 && (pos + r) % 8 == 0
  {
    if pos % 8 == 0 then 0 else 8 - pos % 8
  }

  /** A stored block read at bit position pos of an input of total bits. */
  function ReadStored(x: nat, pos: nat, total: nat, f: Filled, a: Alloc): (r: Parsed<Filled>)
    requires |f.out| <= f.limit && f.limit > 0
    ensures r.Ok? ==> |r.value.out| <= r.value.limit && r.value.limit > 0
  {
    var y := Shr(x, Pad(pos));
    var len := Mask(y, 16);
    var nlen := Mask(Shr(y, 16), 16);
    if nlen != 0xFFFF - len then Bad(ZlibCorrupt)
    else if pos + Pad(pos) + 32 + 8 * len > total then Bad(ReadPastBuffer)
    else if !CanReserve(f.limit, |f.out| + len, a) then Bad(NoRoom)
    else Ok(Filled(f.out + TakeBytes(Shr(y, 32), len), Grown(f.limit, |f.out| + len)), Pad(pos) + 32 + 8 * len)
  }

  /** The 16-bit number in two bytes, low byte first. */
  lemma {:induction false} TwoBytes(y: nat)
    ensures Mask(y, 16) == y % 256 + 256 * (y / 256 % 256)
    ensures Shr(y, 16) == y / 256 / 256
  {
    EightBits(y, 0);
    EightBits(y / 256, 0);
    ShrShr(y, 8, 8);
    MaskSplit(y, 8, 8);
    ShlSmall(y / 256 % 256);
  }

  /**
   However many bits were fetched ahead, a stored block is read from the whole input bytes
   that start at the next byte boundary: two bytes of length, two of its complement, and the
   payload. Running into the zero padding never passes for a block.
   */
  lemma {:induction false} StoredReadsInput(input: seq<byte>, pos: nat, f: Filled, a: Alloc)
    requires |f.out| <= f.limit && f.limit > 0
    ensures var q := (pos + 7) / 8;
            var len := ByteAt(input, q) + 256 * ByteAt(input, q + 1);
            var nlen := ByteAt(input, q + 2) + 256 * ByteAt(input, q + 3);
            var r := ReadStored(Shr(LE(input), pos), pos, 8 * |input|, f, a);
            && (r.Ok? <==> nlen == 0xFFFF - len && q + 4 + len <= |input|
                           && CanReserve(f.limit, |f.out| + len, a))
            && (r.Ok? ==> r.value.out == f.out + input[q + 4..q + 4 + len] && pos + r.bits == 8 * (q + 4 + len))
            && (nlen == 0xFFFF - len && q + 4 > |input| ==> len > 0)
  {
    hide TakeBytes, LE, Grown, Shr, Mask, CanReserve;
    var q := (pos + 7) / 8;
    var y := Shr(Shr(LE(input), pos), Pad(pos));
    ShrShr(LE(input), pos, Pad(pos));
    assert pos + Pad(pos) == 8 * q;
    HeaderBytes(input, q);
    var len := Mask(y, 16);
    if q + 4 + len <= |input| {
      ShrShr(LE(input), 8 * q, 32);
      PayloadBytes(input, q + 4, len);
    }
  }

  lemma {:induction false} PayloadBytes(input: seq<byte>, q: nat, n: nat)
    requires q + n <= |input|
    ensures TakeBytes(Shr(LE(input), 8 * q), n) == input[q..q + n]
  {
    hide LE, Shr;
    SkipBytes(input, q);
    TakeInput(input[q..], n);
  }

  /** The two 16-bit numbers at byte q of the stream. */
  lemma {:induction false} HeaderBytes(input: seq<byte>, q: nat)
    ensures var y := Shr(LE(input), 8 * q);
            && Mask(y, 16) == ByteAt(input, q) + 256 * ByteAt(input, q + 1)
            && Mask(Shr(y, 16), 16) == ByteAt(input, q + 2) + 256 * ByteAt(input, q + 3)
  {
    var y := Shr(LE(input), 8 * q);
    ByteOfStream(input, q);
    ByteOfStream(input, q + 1);
    ByteOfStream(input, q + 2);
    ByteOfStream(input, q + 3);
    TwoBytes(y);
    TwoBytes(Shr(y, 16));
  }

  lemma {:induction false} ByteOfStream(input: seq<byte>, q: nat)
    ensures Shr(LE(input), 8 * q) % 256 == ByteAt(input, q)
    ensures Shr(LE(input), 8 * q) / 256 == Shr(LE(input), 8 * (q + 1))
  {
    hide Shr, Mask;
    SkipBytes(input, q);
    EightBits(Shr(LE(input), 8 * q), 0);
    ShrShr(LE(input), 8 * q, 8);
  }

  /** A stored block in front of x: padding of any value, length, its complement, and the bytes. */
  function WriteStored(pad: nat, data: seq<byte>, pos: nat, x: nat): (r: nat)
    requires |data| <= 0xFFFF
  {
    WriteBits(pad, Pad(pos), WriteBits(|data|, 16, WriteBits(0xFFFF - |data|, 16, WriteBytes(data, x))))
  }

  lemma {:induction false} StoredRoundTrip(pad: nat, data: seq<byte>, pos: nat, total: nat, x: nat, f: Filled, a: Alloc)
    requires |data| <= 0xFFFF && pad < Pow2(Pad(pos))
    requires |f.out| <= f.limit && f.limit > 0 && CanReserve(f.limit, |f.out| + |data|, a)
    requires pos + Pad(pos) + 32 + 8 * |data| <= total
    ensures var n := Pad(pos) + 32 + 8 * |data|;
            ReadStored(WriteStored(pad, data, pos, x), pos, total, f, a) ==
              Ok(Filled(f.out + data, Grown(f.limit, |f.out| + |data|)), n)
            && Shr(WriteStored(pad, data, pos, x), n) == x
  {
    hide WriteBits, WriteBytes, TakeBytes, Mask, Shr, Pow2, Grown;
    var p, len := Pad(pos), |data|;
    var w := WriteStored(pad, data, pos, x);
    var x3 := WriteBytes(data, x);
    var x2 := WriteBits(0xFFFF - len, 16, x3);
    var x1 := WriteBits(len, 16, x2);
    Pow2Is16();
    SkipField(pad, p, x1, 32 + 8 * len);
    SkipField(len, 16, x2, 16 + 8 * len);
    SkipField(len, 16, x2, 16);
    SkipField(0xFFFF - len, 16, x3, 8 * len);
    SkipField(0xFFFF - len, 16, x3, 0);
    TakeWritten(data, x);
  }

  // ---------------------------------------------------------------- code-length headers

  const DEZIGZAG: seq<nat> := [16, 17, 18, 0, 8, 7, 9, 6, 10, 5, 11, 4, 12, 3, 13, 2, 14, 1, 15]

  const NO_SIZES: seq<nat> := [0, 0, 0, 0, 0, 0, 0, 0, 0, 0, 0, 0, 0, 0, 0, 0, 0, 0, 0]

  /** The code-length code: the i-th value is the length of symbol DEZIGZAG[i]. */
  function Scatter(clen: seq<nat>): (r: seq<nat>)
    requires |clen| <= 19
    ensures |r| == 19
    ensures (forall i :: 0 <= i < |clen| ==> clen[i] < 8) ==> forall j :: 0 <= j < 19 ==> r[j] < 8
  {
    if clen == [] then NO_SIZES
    else
      var last := |clen| - 1;
      Scatter(clen[..last])[DEZIGZAG[last] := clen[last]]
  }

  /** n consecutive 3-bit values. */
  function ReadTriples(x: nat, n: nat): (r: seq<nat>)
    ensures |r| == n && forall i :: 0 <= i < n ==> r[i] < 8
    decreases n
  {
    if n == 0 then [] else (TripleBound(x); [Mask(x, 3)] + ReadTriples(Shr(x, 3), n - 1))
  }

  lemma {:induction false} TripleBound(x: nat)
    ensures Mask(x, 3) < 8
  {
    MaskBound(x, 3);
    assert Pow2(3) == 8 by { assert Shl(1, 1) == 2 && Shl(1, 2) == 4; }
  }

  lemma {:induction false} ShrNone(x: nat)
    ensures Shr(x, 0) == x
  {
  }

  lemma {:induction false} TripleAt(x: nat, n: nat, i: nat)
    requires i < n
    ensures ReadTriples(x, n)[i] == Mask(Shr(x, 3 * i), 3)
  {
    if i == 0 {
      ShrNone(x);
    } else {
      TripleAt(Shr(x, 3), n - 1, i - 1);
      ShrShr(x, 3, 3 * (i - 1));
    }
  }

  /** Scattering one more value sets one more code length. */
  lemma {:induction false} ScatterStep(clen: seq<nat>, i: nat)
    requires i < |clen| <= 19
    ensures Scatter(clen[..i + 1]) == Scatter(clen[..i])[DEZIGZAG[i] := clen[i]]
  {
    assert clen[..i + 1][..i] == clen[..i];
  }

  function WriteTriples(vs: seq<nat>, x: nat): (r: nat) {
    if vs == [] then x else WriteBits(vs[0], 3, WriteTriples(vs[1..], x))
  }

  lemma {:induction false} TriplesRoundTrip(vs: seq<nat>, x: nat)
    requires forall i :: 0 <= i < |vs| ==> vs[i] < 8
    ensures ReadTriples(WriteTriples(vs, x), |vs|) == vs
    ensures Shr(WriteTriples(vs, x), 3 * |vs|) == x
  {
    hide WriteBits, Mask, Shr, Pow2;
    if vs == [] {
      ShrNone(x);
    } else {
      SmallPowers();
      var rest := WriteTriples(vs[1..], x);
      SkipField(vs[0], 3, rest, 3 * |vs[1..]|);
      TriplesRoundTrip(vs[1..], x);
    }
  }

  /** One code length, or a run of them: symbols 16 (copy the last), 17 and 18 (zeros). */
  datatype LengthOp = Length(c: nat) | Run(c: nat, ext: nat)

  function RunBits(c: nat): nat {
    if c == 16 then 2 else if c == 17 then 3 else 7
  }

  function RunBase(c: nat): nat {
    if c == 18 then 11 else 3
  }

  /** The lengths after a run, if the run is allowed there. */
  function ApplyRun(acc: seq<nat>, ntot: nat, c: nat, ext: nat): (r: seq<nat>)
    requires |acc| <= ntot && RunAllowed(acc, ntot, c, ext)
    ensures |acc| < |r| <= ntot
    ensures (forall i :: 0 <= i < |acc| ==> acc[i] <= MAX_BITS) ==> forall i :: 0 <= i < |r| ==> r[i] <= MAX_BITS
  {
    acc + seq(RunBase(c) + ext, _ => if c == 16 then acc[|acc| - 1] else 0)
  }

  predicate RunAllowed(acc: seq<nat>, ntot: nat, c: nat, ext: nat) {
    (c == 16 ==> acc != []) && |acc| + RunBase(c) + ext <= ntot
  }

  /** The lengths after one more operation, read from the stream x. */
  ghost function ReadOp(cl: seq<nat>, x: nat, ntot: nat, acc: seq<nat>): (r: Parsed<seq<nat>>)
    requires |cl| == 19 && |acc| < ntot
    ensures r.Ok? ==> |acc| < |r.value| <= ntot
    ensures r.Ok? && (forall i :: 0 <= i < |acc| ==> acc[i] <= MAX_BITS) ==>
              forall i :: 0 <= i < |r.value| ==> r.value[i] <= MAX_BITS
  {
    match Lookup(cl, x)
    case BadCode => Bad(BadCodeLengths)
    case Symbol(c, s) =>
      if c < 16 then Ok(acc + [c], s)
      else
        var e := RunBits(c);
        var ext := Mask(Shr(x, s), e);
        if !RunAllowed(acc, ntot, c, ext) then Bad(BadCodeLengths)
        else Ok(ApplyRun(acc, ntot, c, ext), s + e)
  }

  ghost function ReadLengths(cl: seq<nat>, x: nat, ntot: nat, acc: seq<nat>): (r: Parsed<seq<nat>>)
    requires |cl| == 19 && |acc| <= ntot
    ensures r.Ok? ==> |r.value| == ntot
    ensures r.Ok? && (forall i :: 0 <= i < |acc| ==> acc[i] <= MAX_BITS) ==>
              forall i :: 0 <= i < ntot ==> r.value[i] <= MAX_BITS
    decreases ntot - |acc|
  {
    hide ReadOp;
    if |acc| == ntot then Ok(acc, 0)
    else
      match ReadOp(cl, x, ntot, acc)
      case Bad(e) => Bad(e)
      case Ok(acc', n) => More(n, ReadLengths(cl, Shr(x, n), ntot, acc'))
  }

  /** The same result after n more bits. */
  function More<T>(n: nat, r: Parsed<T>): (q: Parsed<T>)
    ensures q.Ok? <==> r.Ok?
    ensures q.Ok? ==> q.value == r.value
  {
    match r
    case Ok(v, m) => Ok(v, n + m)
    case Bad(e) => Bad(e)
  }

  predicate OpOk(cl: seq<nat>, op: LengthOp) {
    match op
    case Length(c) => c < 16 && Coded(cl, c)
    case Run(c, ext) => 16 <= c <= 18 && Coded(cl, c) && ext < Pow2(RunBits(c))
  }

  /** The operations can be written and produce exactly ntot lengths. */
  predicate OpsOk(cl: seq<nat>, ops: seq<LengthOp>, ntot: nat, acc: seq<nat>)
    decreases |ops|
  {
    if ops == [] then |acc| == ntot
    else
      && |acc| < ntot && OpOk(cl, ops[0])
      && match ops[0]
         case Length(c) => OpsOk(cl, ops[1..], ntot, acc + [c])
         case Run(c, ext) =>
           RunAllowed(acc, ntot, c, ext) && OpsOk(cl, ops[1..], ntot, ApplyRun(acc, ntot, c, ext))
  }

  function ApplyOps(cl: seq<nat>, ops: seq<LengthOp>, ntot: nat, acc: seq<nat>): (r: seq<nat>)
    requires OpsOk(cl, ops, ntot, acc)
    ensures |r| == ntot
    decreases |ops|
  {
    if ops == [] then acc
    else
      match ops[0]
      case Length(c) => ApplyOps(cl, ops[1..], ntot, acc + [c])
      case Run(c, ext) => ApplyOps(cl, ops[1..], ntot, ApplyRun(acc, ntot, c, ext))
  }

  function WriteOp(cl: seq<nat>, op: LengthOp, x: nat): (r: nat)
    requires OpOk(cl, op)
  {
    match op
    case Length(c) => WriteSymbol(cl, c, x)
    case Run(c, ext) => WriteSymbol(cl, c, WriteBits(ext, RunBits(c), x))
  }

  function OpBits(cl: seq<nat>, op: LengthOp): (r: nat)
    requires OpOk(cl, op)
  {
    match op
    case Length(c) => cl[c]
    case Run(c, ext) => cl[c] + RunBits(c)
  }

  function WriteOps(cl: seq<nat>, ops: seq<LengthOp>, ntot: nat, acc: seq<nat>, x: nat): (r: nat)
    requires OpsOk(cl, ops, ntot, acc)
    decreases |ops|
  {
    if ops == [] then x
    else
      var rest :=
        match ops[0]
        case Length(c) => WriteOps(cl, ops[1..], ntot, acc + [c], x)
        case Run(c, ext) => WriteOps(cl, ops[1..], ntot, ApplyRun(acc, ntot, c, ext), x);
      WriteOp(cl, ops[0], rest)
  }

  function OpsBits(cl: seq<nat>, ops: seq<LengthOp>, ntot: nat, acc: seq<nat>): (r: nat)
    requires OpsOk(cl, ops, ntot, acc)
    decreases |ops|
  {
    if ops == [] then 0
    else
      OpBits(cl, ops[0]) +
      match ops[0]
      case Length(c) => OpsBits(cl, ops[1..], ntot, acc + [c])
      case Run(c, ext) => OpsBits(cl, ops[1..], ntot, ApplyRun(acc, ntot, c, ext))
  }

  /** The lengths after an operation. */
  function AfterOp(ops: seq<LengthOp>, ntot: nat, acc: seq<nat>): (r: seq<nat>)
    requires ops != [] && |acc| < ntot
    requires ops[0].Run? ==> RunAllowed(acc, ntot, ops[0].c, ops[0].ext)
  {
    match ops[0]
    case Length(c) => acc + [c]
    case Run(c, ext) => ApplyRun(acc, ntot, c, ext)
  }

  /** A written operation is found again, and what follows it. */
  lemma {:induction false} OpRoundTrip(cl: seq<nat>, ops: seq<LengthOp>, ntot: nat, acc: seq<nat>, x: nat)
    requires Lengths(cl) && |cl| == 19 && KraftHolds(cl)
    requires ops != [] && |acc| < ntot && OpOk(cl, ops[0])
    requires ops[0].Run? ==> RunAllowed(acc, ntot, ops[0].c, ops[0].ext)
    ensures var w := WriteOp(cl, ops[0], x);
            && ReadOp(cl, w, ntot, acc) == Ok(AfterOp(ops, ntot, acc), OpBits(cl, ops[0]))
            && Shr(w, OpBits(cl, ops[0])) == x
  {
    hide Lengths, KraftHolds, Shr, Mask, RunAllowed, ApplyRun;
    match ops[0]
    case Length(c) => LookupWritten(cl, c, x);
    case Run(c, ext) =>
      var y := WriteBits(ext, RunBits(c), x);
      LookupWritten(cl, c, y);
      SkipField(ext, RunBits(c), x, 0);
      RevBound(Code(cl, c), cl[c]);
      SkipField(Rev(Code(cl, c), cl[c]), cl[c], y, RunBits(c));
  }

  lemma {:induction false} OpsRoundTrip(cl: seq<nat>, ops: seq<LengthOp>, ntot: nat, acc: seq<nat>, x: nat)
    requires Lengths(cl) && |cl| == 19 && KraftHolds(cl)
    requires |acc| <= ntot && OpsOk(cl, ops, ntot, acc)
    ensures ReadLengths(cl, WriteOps(cl, ops, ntot, acc, x), ntot, acc) ==
            Ok(ApplyOps(cl, ops, ntot, acc), OpsBits(cl, ops, ntot, acc))
    ensures Shr(WriteOps(cl, ops, ntot, acc, x), OpsBits(cl, ops, ntot, acc)) == x
    decreases |ops|
  {
    hide ReadOp, Lengths, KraftHolds, WriteOp, OpBits, Shr, ApplyRun;
    if ops == [] {
      ShrNone(x);
    } else {
      var acc' := AfterOp(ops, ntot, acc);
      var rest := WriteOps(cl, ops[1..], ntot, acc', x);
      OpRoundTrip(cl, ops, ntot, acc, rest);
      OpsRoundTrip(cl, ops[1..], ntot, acc', x);
      ShrShr(WriteOp(cl, ops[0], rest), OpBits(cl, ops[0]), OpsBits(cl, ops[1..], ntot, acc'));
    }
  }

  /** The two codes of a block. */
  datatype Codes = Codes(ll: seq<nat>, dl: seq<nat>)

  predicate CodesOk(c: Codes) {
    Lengths(c.ll) && KraftHolds(c.ll) && Lengths(c.dl) && KraftHolds(c.dl)
  }

  ghost function ReadHeader(x: nat): (r: Parsed<Codes>)
    ensures r.Ok? ==> CodesOk(r.value)
  {
    FieldBounds(x);
    var hlit := Mask(x, 5) + 257;
    var hdist := Mask(Shr(x, 5), 5) + 1;
    var hclen := Mask(Shr(x, 10), 4) + 4;
    var cl := Scatter(ReadTriples(Shr(x, 14), hclen));
    if !KraftHolds(cl) then Bad(BadCodeLengths)
    else
      match ReadLengths(cl, Shr(x, 14 + 3 * hclen), hlit + hdist, [])
      case Bad(e) => Bad(e)
      case Ok(lens, n) =>
        var c := Codes(lens[..hlit], lens[hlit..]);
        if !KraftHolds(c.ll) || !KraftHolds(c.dl) then Bad(BadCodeLengths)
        else Ok(c, 14 + 3 * hclen + n)
  }

  lemma {:induction false} FieldBounds(x: nat)
    ensures Mask(x, 5) < 32 && Mask(Shr(x, 5), 5) < 32 && Mask(Shr(x, 10), 4) < 16
  {
    MaskBound(x, 5);
    MaskBound(Shr(x, 5), 5);
    MaskBound(Shr(x, 10), 4);
    SmallPowers();
  }

  lemma {:induction false} SmallPowers()
    ensures Pow2(1) == 2 && Pow2(2) == 4 && Pow2(3) == 8 && Pow2(4) == 16 && Pow2(5) == 32
  {
    assert Shl(1, 1) == 2 && Shl(1, 2) == 4 && Shl(1, 3) == 8 && Shl(1, 4) == 16;
  }

  /** A code-length header: the numbers of codes, the code-length code, and the operations. */
  datatype Header = Header(hlit: nat, hdist: nat, clen: seq<nat>, ops: seq<LengthOp>)

  predicate HeaderOk(h: Header) {
    && 257 <= h.hlit < 289 && 1 <= h.hdist < 33 && 4 <= |h.clen| <= 19
    && (forall i :: 0 <= i < |h.clen| ==> h.clen[i] < 8)
    && KraftHolds(Scatter(h.clen))
    && OpsOk(Scatter(h.clen), h.ops, h.hlit + h.hdist, [])
    && KraftHolds(HeaderCodes(h).ll) && KraftHolds(HeaderCodes(h).dl)
  }

  function HeaderCodes(h: Header): (c: Codes)
    requires 257 <= h.hlit < 289 && 1 <= h.hdist < 33 && |h.clen| <= 19
    requires OpsOk(Scatter(h.clen), h.ops, h.hlit + h.hdist, [])
    ensures Lengths(c.ll) && Lengths(c.dl)
  {
    OpsLengths(Scatter(h.clen), h.ops, h.hlit + h.hdist, []);
    var lens := ApplyOps(Scatter(h.clen), h.ops, h.hlit + h.hdist, []);
    Codes(lens[..h.hlit], lens[h.hlit..])
  }

  lemma {:induction false} OpsLengths(cl: seq<nat>, ops: seq<LengthOp>, ntot: nat, acc: seq<nat>)
    requires OpsOk(cl, ops, ntot, acc)
    requires forall i :: 0 <= i < |acc| ==> acc[i] <= MAX_BITS
    ensures forall i :: 0 <= i < ntot ==> ApplyOps(cl, ops, ntot, acc)[i] <= MAX_BITS
    decreases |ops|
  {
    if ops != [] {
      var acc' := match ops[0] case Length(c) => acc + [c] case Run(c, ext) => ApplyRun(acc, ntot, c, ext);
      OpsLengths(cl, ops[1..], ntot, acc');
    }
  }

  function WriteHeader(h: Header, x: nat): (r: nat)
    requires HeaderOk(h)
  {
    WriteBits(h.hlit - 257, 5, WriteBits(h.hdist - 1, 5, WriteBits(|h.clen| - 4, 4,
      WriteTriples(h.clen, WriteOps(Scatter(h.clen), h.ops, h.hlit + h.hdist, [], x)))))
  }

  function HeaderBits(h: Header): (r: nat)
    requires HeaderOk(h)
  {
    14 + 3 * |h.clen| + OpsBits(Scatter(h.clen), h.ops, h.hlit + h.hdist, [])
  }

  lemma {:induction false} HeaderRoundTrip(h: Header, x: nat)
    requires HeaderOk(h)
    ensures ReadHeader(WriteHeader(h, x)) == Ok(HeaderCodes(h), HeaderBits(h))
    ensures Shr(WriteHeader(h, x), HeaderBits(h)) == x
  {
    hide WriteBits, WriteTriples, WriteOps, ReadTriples, ReadLengths, Scatter, KraftHolds, Shr, Mask, Pow2,
      ApplyOps, OpsBits, OpsOk;
    var cl := Scatter(h.clen);
    var ntot := h.hlit + h.hdist;
    var n, m := 3 * |h.clen|, OpsBits(cl, h.ops, ntot, []);
    var x4 := WriteOps(cl, h.ops, ntot, [], x);
    var x3 := WriteTriples(h.clen, x4);
    var x2 := WriteBits(|h.clen| - 4, 4, x3);
    var x1 := WriteBits(h.hdist - 1, 5, x2);
    var w := WriteBits(h.hlit - 257, 5, x1);
    SmallPowers();
    SkipField(h.hlit - 257, 5, x1, 5);
    SkipField(h.hlit - 257, 5, x1, 9);
    SkipField(h.hlit - 257, 5, x1, 9 + n);
    SkipField(h.hlit - 257, 5, x1, 9 + n + m);
    SkipField(h.hdist - 1, 5, x2, 4);
    SkipField(h.hdist - 1, 5, x2, 4 + n);
    SkipField(h.hdist - 1, 5, x2, 4 + n + m);
    SkipField(|h.clen| - 4, 4, x3, n);
    SkipField(|h.clen| - 4, 4, x3, n + m);
    TriplesRoundTrip(h.clen, x4);
    ShrShr(x3, n, m);
    OpsRoundTrip(cl, h.ops, ntot, [], x);
  }

  // ---------------------------------------------------------------- the fixed codes

  const FIXED_LENGTHS: nat := 288
  const FIXED_DISTS: nat := 32

  /** `stbi__zdefault_length` */
  function FixedLength(i: nat): (r: nat)
    ensures 7 <= r <= 9
  {
    if i < 144 then 8 else if i < 256 then 9 else if i < 280 then 7 else 8
  }

  function FixedCodes(): (c: Codes) {
    Codes(seq(FIXED_LENGTHS, i requires 0 <= i => FixedLength(i)), seq(FIXED_DISTS, i requires 0 <= i => 5))
  }

  lemma {:induction false} FixedCodesOk()
    ensures CodesOk(FixedCodes())
  {
    FixedKraft(FixedCodes().ll, FixedCodes().dl);
  }

  /** A run of n - m symbols of length s adds n - m shares of 2^-s. */
  lemma {:induction false} KraftRun(lens: seq<nat>, m: nat, n: nat, s: nat, share: nat)
    requires Lengths(lens) && m <= n <= |lens|
    requires 0 < s <= MAX_BITS && share == Pow2(MAX_BITS - s)
    requires forall i :: m <= i < n ==> lens[i] == s
    ensures KraftIn(lens, n) == KraftIn(lens, m) + (n - m) * share
  {
    hide Pow2;
    if m < n {
      KraftRun(lens, m, n - 1, s, share);
      assert (n - m) * share == (n - 1 - m) * share + share;
    }
  }

  /** The fixed codes use up the code space exactly. */
  lemma {:induction false} FixedKraft(ll: seq<nat>, dl: seq<nat>)
    requires |ll| == FIXED_LENGTHS && forall i :: 0 <= i < |ll| ==> ll[i] == FixedLength(i)
    requires |dl| == FIXED_DISTS && forall i :: 0 <= i < |dl| ==> dl[i] == 5
    ensures Lengths(ll) && KraftHolds(ll) && Lengths(dl) && KraftHolds(dl)
  {
    FixedPowers();
    KraftRun(ll, 0, 144, 8, 128);
    KraftRun(ll, 144, 256, 9, 64);
    KraftRun(ll, 256, 280, 7, 256);
    KraftRun(ll, 280, 288, 8, 128);
    KraftRun(dl, 0, 32, 5, 1024);
  }

  lemma {:induction false} FixedPowers()
    ensures Pow2(6) == 64 && Pow2(7) == 128 && Pow2(8) == 256 && Pow2(10) == 1024 && Pow2(15) == 32768
  {
    ShlSmall(1);
    ShlSmall(4);
    ShlSmall(64);
    ShlShl(1, 2, 4);
    ShlShl(1, 2, 8);
    ShlShl(1, 6, 8);
    assert Shl(1, 7) == 2 * Shl(1, 6);
    assert Shl(1, 15) == 2 * Shl(1, 14);
  }

  // ---------------------------------------------------------------- block sequences

  datatype Block =
    | Stored(pad: nat, data: seq<byte>)
    | Fixed(ts: seq<Token>)
    | Dynamic(h: Header, ts: seq<Token>)

  const TYPE_STORED: nat := 0
  const TYPE_FIXED: nat := 1
  const TYPE_DYNAMIC: nat := 2
  const TYPE_BAD: nat := 3

  /** The body of a block of the given type, after its three header bits. */
  ghost function ReadBody(ty: nat, x: nat, pos: nat, total: nat, f: Filled, a: Alloc, mem: Memory)
    : (r: Parsed<Filled>)
    requires |f.out| <= f.limit && f.limit > 0
    ensures r.Ok? ==> |r.value.out| <= r.value.limit && r.value.limit > 0
  {
    if ty == TYPE_STORED then ReadStored(x, pos, total, f, a)
    else if ty == TYPE_BAD then Bad(BadBlockType)
    else if ty == TYPE_FIXED then ReadBlock(FixedCodes().ll, FixedCodes().dl, x, f, a, mem)
    else
      match ReadHeader(x)
      case Bad(e) => Bad(e)
      case Ok(c, n) => More(n, ReadBlock(c.ll, c.dl, Shr(x, n), f, a, mem))
  }

  /** Past the end of the input, where every bit is 0, there is no block. */
  lemma {:induction false} NoBodyInZeros(pos: nat, total: nat, f: Filled, a: Alloc, mem: Memory)
    requires |f.out| <= f.limit && f.limit > 0
    ensures ReadBody(Mask(Shr(0, 1), 2), Shr(0, 3), pos, total, f, a, mem) == Bad(ZlibCorrupt)
  {
    ShrZero(1);
    ShrZero(3);
    ShrZero(Pad(pos));
    ShrZero(16);
    assert Mask(0, 2) == 0 && Mask(0, 16) == 0;
  }

  /** A block body is only read from a stream with a bit set somewhere. */
  lemma {:induction false} BodyUsesBits(x: nat, pos: nat, total: nat, f: Filled, a: Alloc, mem: Memory)
    requires |f.out| <= f.limit && f.limit > 0
    requires ReadBody(Mask(Shr(x, 1), 2), Shr(x, 3), pos + 3, total, f, a, mem).Ok?
    ensures forall n: nat :: n >= 3 ==> Shr(x, n) < x
  {
    hide ReadBody;
    NoBodyInZeros(pos + 3, total, f, a, mem);
    forall n: nat | n >= 3 ensures Shr(x, n) < x {
      ShrShr(x, 1, n - 1);
    }
  }

  /** `stbi__parse_zlib`'s loop: blocks until one is marked final. */
  ghost function ReadBlocks(x: nat, pos: nat, total: nat, f: Filled, a: Alloc, mem: Memory): (r: Parsed<Filled>)
    requires |f.out| <= f.limit && f.limit > 0
    ensures r.Ok? ==> |r.value.out| <= r.value.limit && r.value.limit > 0
    decreases x
  {
    match ReadBody(Mask(Shr(x, 1), 2), Shr(x, 3), pos + 3, total, f, a, mem)
    case Bad(e) => Bad(e)
    case Ok(g, n) =>
      BodyUsesBits(x, pos, total, f, a, mem);
      if Mask(x, 1) == 1 then Ok(g, 3 + n)
      else More(3 + n, ReadBlocks(Shr(x, 3 + n), pos + 3 + n, total, g, a, mem))
  }

  /** One block of the loop, and the rest of it. */
  lemma {:induction false} BlocksRound(x: nat, pos: nat, total: nat, f: Filled, a: Alloc, mem: Memory)
    requires |f.out| <= f.limit && f.limit > 0
    ensures var r, whole := ReadBody(Mask(Shr(x, 1), 2), Shr(x, 3), pos + 3, total, f, a, mem),
                            ReadBlocks(x, pos, total, f, a, mem);
            && (r.Bad? ==> whole == Bad(r.why))
            && (r.Ok? && Mask(x, 1) == 1 ==> whole == Ok(r.value, 3 + r.bits))
            && (r.Ok? && Mask(x, 1) != 1 ==>
                  whole == More(3 + r.bits,
                                ReadBlocks(Shr(x, 3 + r.bits), pos + 3 + r.bits, total, r.value, a, mem)))
  {
    hide ReadBody, Shr, Mask;
  }

  function BlockType(b: Block): (r: nat)
    ensures r < 3
  {
    match b
    case Stored(_, _) => TYPE_STORED
    case Fixed(_) => TYPE_FIXED
    case Dynamic(_, _) => TYPE_DYNAMIC
  }

  /** The block can be written after size bytes of output, at bit position pos of its body. */
  predicate BlockOk(b: Block, pos: nat, size: nat) {
    match b
    case Stored(pad, data) => |data| <= 0xFFFF && pad < Pow2(Pad(pos))
    case Fixed(ts) => TokensOk(FixedCodes().ll, FixedCodes().dl, ts) && AllReach(size, ts)
    case Dynamic(h, ts) =>
      HeaderOk(h) && TokensOk(HeaderCodes(h).ll, HeaderCodes(h).dl, ts) && AllReach(size, ts)
  }

  function BlockLength(b: Block, pos: nat, size: nat): (n: nat)
    requires BlockOk(b, pos, size)
  {
    match b
    case Stored(_, data) => |data|
    case Fixed(ts) => TokensLength(size, ts)
    case Dynamic(_, ts) => TokensLength(size, ts)
  }

  function BlockOutput(mem: Memory, b: Block, pos: nat, out: seq<byte>): (r: seq<byte>)
    requires BlockOk(b, pos, |out|)
    ensures |r| == |out| + BlockLength(b, pos, |out|)
  {
    match b
    case Stored(_, data) => out + data
    case Fixed(ts) => Expand(mem, out, ts)
    case Dynamic(_, ts) => Expand(mem, out, ts)
  }

  function WriteBody(b: Block, pos: nat, size: nat, x: nat): (r: nat)
    requires BlockOk(b, pos, size)
  {
    hide Pow2, KraftHolds, AllReach;
    match b
    case Stored(pad, data) => WriteStored(pad, data, pos, x)
    case Fixed(ts) => WriteBlock(FixedCodes().ll, FixedCodes().dl, ts, x)
    case Dynamic(h, ts) => WriteHeader(h, WriteBlock(HeaderCodes(h).ll, HeaderCodes(h).dl, ts, x))
  }

  function BodyBits(b: Block, pos: nat, size: nat): (r: nat)
    requires BlockOk(b, pos, size)
  {
    hide Pow2, KraftHolds, AllReach;
    match b
    case Stored(_, data) => Pad(pos) + 32 + 8 * |data|
    case Fixed(ts) => BlockBits(FixedCodes().ll, FixedCodes().dl, ts)
    case Dynamic(h, ts) => HeaderBits(h) + BlockBits(HeaderCodes(h).ll, HeaderCodes(h).dl, ts)
  }

  lemma {:induction false} BodyRoundTrip(b: Block, pos: nat, total: nat, x: nat, f: Filled, a: Alloc, mem: Memory)
    requires BlockOk(b, pos, |f.out|) && pos + BodyBits(b, pos, |f.out|) <= total
    requires |f.out| <= f.limit && f.limit > 0 && CanReserve(f.limit, |BlockOutput(mem, b, pos, f.out)|, a)
    ensures var w := WriteBody(b, pos, |f.out|, x);
            var out := BlockOutput(mem, b, pos, f.out);
            && ReadBody(BlockType(b), w, pos, total, f, a, mem) ==
                 Ok(Filled(out, Grown(f.limit, |out|)), BodyBits(b, pos, |f.out|))
            && Shr(w, BodyBits(b, pos, |f.out|)) == x
  {
    hide WriteStored, WriteHeader, WriteBlock, BlockBits, HeaderBits, ReadBlock, ReadHeader, ReadStored,
      TokensOk, KraftHolds, Lengths, Grown, Shr, FixedCodes, Expand, AllReach, CanReserve, HeaderCodes;
    match b
    case Stored(pad, data) => StoredRoundTrip(pad, data, pos, total, x, f, a);
    case Fixed(ts) =>
      FixedCodesOk();
      BlockRoundTrip(FixedCodes().ll, FixedCodes().dl, ts, x, f, a, mem);
    case Dynamic(h, ts) => DynamicRoundTrip(h, ts, x, f, a, mem);
  }

  lemma {:induction false} DynamicRoundTrip(h: Header, ts: seq<Token>, x: nat, f: Filled, a: Alloc, mem: Memory)
    requires HeaderOk(h) && TokensOk(HeaderCodes(h).ll, HeaderCodes(h).dl, ts) && AllReach(|f.out|, ts)
    requires |f.out| <= f.limit && f.limit > 0 && CanReserve(f.limit, |Expand(mem, f.out, ts)|, a)
    ensures var c := HeaderCodes(h);
            var w := WriteHeader(h, WriteBlock(c.ll, c.dl, ts, x));
            var n, m := HeaderBits(h), BlockBits(c.ll, c.dl, ts);
            var out := Expand(mem, f.out, ts);
            && ReadHeader(w) == Ok(c, n)
            && ReadBlock(c.ll, c.dl, Shr(w, n), f, a, mem) == Ok(Filled(out, Grown(f.limit, |out|)), m)
            && Shr(w, n + m) == x
  {
    hide WriteHeader, WriteBlock, BlockBits, HeaderBits, ReadBlock, ReadHeader, TokensOk, KraftHolds, Lengths,
      Grown, Shr, HeaderCodes, CanReserve, Expand, AllReach;
    var c := HeaderCodes(h);
    HeaderCodesOk(h);
    var y := WriteBlock(c.ll, c.dl, ts, x);
    HeaderRoundTrip(h, y);
    BlockRoundTrip(c.ll, c.dl, ts, x, f, a, mem);
    ShrShr(WriteHeader(h, y), HeaderBits(h), BlockBits(c.ll, c.dl, ts));
  }

  lemma {:induction false} HeaderCodesOk(h: Header)
    requires HeaderOk(h)
    ensures CodesOk(HeaderCodes(h))
  {
    hide KraftHolds, Scatter;
  }

  /** All blocks can be written one after the other, starting at bit position pos after size bytes of output. */
  predicate BlocksOk(bs: seq<Block>, pos: nat, size: nat)
    decreases |bs|
  {
    bs == [] ||
    (BlockOk(bs[0], pos + 3, size)
     && BlocksOk(bs[1..], pos + 3 + BodyBits(bs[0], pos + 3, size), size + BlockLength(bs[0], pos + 3, size)))
  }

  function StreamLength(bs: seq<Block>, pos: nat, size: nat): (n: nat)
    requires BlocksOk(bs, pos, size)
    decreases |bs|
  {
    hide BlockOk, BodyBits, BlockLength;
    if bs == [] then 0
    else
      var n := BlockLength(bs[0], pos + 3, size);
      n + StreamLength(bs[1..], pos + 3 + BodyBits(bs[0], pos + 3, size), size + n)
  }

  /** The data that a block sequence stands for. */
  function StreamOutput(mem: Memory, bs: seq<Block>, pos: nat, out: seq<byte>): (r: seq<byte>)
    requires BlocksOk(bs, pos, |out|)
    ensures |r| == |out| + StreamLength(bs, pos, |out|)
    decreases |bs|
  {
    hide BlockOk, BodyBits, BlockLength, BlockOutput;
    if bs == [] then out
    else
      StreamOutput(mem, bs[1..], pos + 3 + BodyBits(bs[0], pos + 3, |out|), BlockOutput(mem, bs[0], pos + 3, out))
  }

  function StreamBits(bs: seq<Block>, pos: nat, size: nat): (r: nat)
    requires BlocksOk(bs, pos, size)
    decreases |bs|
  {
    hide BlockOk, BodyBits, BlockLength;
    if bs == [] then 0
    else
      var n := 3 + BodyBits(bs[0], pos + 3, size);
      n + StreamBits(bs[1..], pos + n, size + BlockLength(bs[0], pos + 3, size))
  }

  /** The blocks in front of the stream x, the last of them marked final. */
  function WriteBlocks(bs: seq<Block>, pos: nat, size: nat, x: nat): (r: nat)
    requires BlocksOk(bs, pos, size)
    decreases |bs|
  {
    hide BlockOk, BodyBits, BlockLength, WriteBody;
    if bs == [] then x
    else
      var n := 3 + BodyBits(bs[0], pos + 3, size);
      var rest := WriteBlocks(bs[1..], pos + n, size + BlockLength(bs[0], pos + 3, size), x);
      WriteBits(if |bs| == 1 then 1 else 0, 1,
        WriteBits(BlockType(bs[0]), 2, WriteBody(bs[0], pos + 3, size, rest)))
  }

  /** The three header bits are found again, and the body after them. */
  lemma {:induction false} FrontRoundTrip(final: nat, ty: nat, y: nat, n: nat, x: nat)
    requires final < 2 && ty < 4 && Shr(y, n) == x
    ensures var w := WriteBits(final, 1, WriteBits(ty, 2, y));
            Mask(w, 1) == final && Mask(Shr(w, 1), 2) == ty && Shr(w, 3) == y && Shr(w, 3 + n) == x
  {
    hide WriteBits, Mask, Shr, Pow2;
    SmallPowers();
    SkipField(final, 1, WriteBits(ty, 2, y), 2);
    SkipField(final, 1, WriteBits(ty, 2, y), 2 + n);
    SkipField(ty, 2, y, n);
  }

  /**
   Every sequence of legal blocks, stored, fixed or dynamic, in any order, is decoded to the
   concatenation of what its blocks stand for, and the reader stops right after the last one.
   */
  lemma {:induction false} StreamRoundTrip(bs: seq<Block>, pos: nat, total: nat, x: nat, f: Filled, a: Alloc,
                                           mem: Memory)
    requires bs != [] && BlocksOk(bs, pos, |f.out|) && pos + StreamBits(bs, pos, |f.out|) <= total
    requires |f.out| <= f.limit && f.limit > 0 && CanReserve(f.limit, |StreamOutput(mem, bs, pos, f.out)|, a)
    ensures var w := WriteBlocks(bs, pos, |f.out|, x);
            var out := StreamOutput(mem, bs, pos, f.out);
            && ReadBlocks(w, pos, total, f, a, mem) ==
                 Ok(Filled(out, Grown(f.limit, |out|)), StreamBits(bs, pos, |f.out|))
            && Shr(w, StreamBits(bs, pos, |f.out|)) == x
    decreases |bs|
  {
    hide WriteBits, Mask, Shr, ReadBody, WriteBody, BodyBits, BlockOk, BlockOutput, BlockLength, Grown, CanReserve;
    var b, size := bs[0], |f.out|;
    var n := BodyBits(b, pos + 3, size);
    var out := BlockOutput(mem, b, pos + 3, f.out);
    var g := Filled(out, Grown(f.limit, |out|));
    var rest := WriteBlocks(bs[1..], pos + 3 + n, |out|, x);
    var body := WriteBody(b, pos + 3, size, rest);
    var w := WriteBlocks(bs, pos, size, x);
    ReserveEarlier(f.limit, |out|, |StreamOutput(mem, bs, pos, f.out)|, a);
    BodyRoundTrip(b, pos + 3, total, rest, f, a, mem);
    FrontRoundTrip(if |bs| == 1 then 1 else 0, BlockType(b), body, n, rest);
    if |bs| > 1 {
      StreamRoundTrip(bs[1..], pos + 3 + n, total, x, g, a, mem);
      ShrShr(w, 3 + n, StreamBits(bs[1..], pos + 3 + n, |out|));
    } else {
      assert bs[1..] == [];
    }
  }

  // ---------------------------------------------------------------- the zlib wrapper

  /** `stbi__parse_zlib_header` on the two header bytes. */
  predicate ZlibHeaderOk(cmf: byte, flg: byte) {
    (cmf * 256 + flg) % 31 == 0 && flg / 32 % 2 == 0 && cmf % 16 == 8
  }

  /** Decoding a whole input, with or without the zlib header. */
  ghost function Inflate(input: seq<byte>, withHeader: bool, f: Filled, a: Alloc, mem: Memory): (r: Parsed<Filled>)
    requires |f.out| <= f.limit && f.limit > 0
    ensures r.Ok? ==> |r.value.out| <= r.value.limit
  {
    if !withHeader then ReadBlocks(LE(input), 0, 8 * |input|, f, a, mem)
    else if !ZlibHeaderOk(ByteAt(input, 0), ByteAt(input, 1)) then Bad(BadZlibHeader)
    else ReadBlocks(Shr(LE(input), 16), 16, 8 * |input|, f, a, mem)
  }

  /** Every legal zlib stream, whatever follows it, is decoded to its data. */
  lemma {:induction false} InflateRoundTrip(input: seq<byte>, bs: seq<Block>, tail: nat, limit: nat, a: Alloc,
                                            mem: Memory)
    requires limit > 0 && |input| >= 2 && ZlibHeaderOk(input[0], input[1])
    requires bs != [] && BlocksOk(bs, 16, 0)
    requires Shr(LE(input), 16) == WriteBlocks(bs, 16, 0, tail)
    requires 16 + StreamBits(bs, 16, 0) <= 8 * |input|
    requires CanReserve(limit, StreamLength(bs, 16, 0), a)
    ensures var r := Inflate(input, true, Filled([], limit), a, mem);
            r.Ok? && r.value.out == StreamOutput(mem, bs, 16, [])
  {
    hide WriteBlocks, StreamBits, StreamOutput, StreamLength, BlocksOk, ReadBlocks, Shr, LE, CanReserve, Grown;
    StreamRoundTrip(bs, 16, 8 * |input|, tail, Filled([], limit), a, mem);
  }
}
