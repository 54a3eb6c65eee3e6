/**
 The DEFLATE decoder of stb_image: a bit buffer refilled a byte at a time, table-driven
 symbol decoding, and an output buffer that is copied within and grown by doubling. Every
 method is proved against the table-free, buffer-free meaning in `Deflate` and `DeflateStream`.
 */
module Inflate {
  import opened Bytes
  import opened Bits
  import opened Huffman
  import opened Deflate
  import opened DeflateStream

  /** Consuming s of the nb bits held in front of the stream r. */
  lemma {:induction false} ConsumeHeld(cb: nat, nb: nat, r: nat, s: nat)
    requires cb < Pow2(nb) && s <= nb
    ensures Shr(cb + Shl(r, nb), s) == Shr(cb, s) + Shl(r, nb - s)
    ensures Mask(cb + Shl(r, nb), s) == Mask(cb, s)
    ensures Shr(cb, s) < Pow2(nb - s)
  {
    hide Shl, Shr, Mask;
    Split(cb, s);
    MaskBound(cb, s);
    ShlShl(r, nb - s, s);
    ShlAdd(Shr(cb, s), Shl(r, nb - s), s);
    Unpack(Mask(cb, s), Shr(cb, s) + Shl(r, nb - s), s);
    ShlShl(1, nb - s, s);
    ShrOrder(cb, Pow2(nb - s), s);
  }

  /** Putting the next byte above the nb bits held leaves the stream as it is. */
  lemma {:induction false} RefillHeld(cb: nat, nb: nat, r: nat)
    requires cb < Pow2(nb)
    ensures cb + Shl(r % 256, nb) < Pow2(nb + 8)
    ensures cb + Shl(r % 256, nb) + Shl(r / 256, nb + 8) == cb + Shl(r, nb)
    ensures Or(cb, Shl(r % 256, nb)) == cb + Shl(r % 256, nb)
  {
    OperatorsAgree(0, cb, r % 256, nb);
    EightBits(r / 256, 0);
    ShlShl(r / 256, 8, nb);
    ShlAdd(r % 256, 256 * (r / 256), nb);
    ShlAdd(1, r % 256, nb);
    ShlSmall(1);
    ShlShl(1, 8, nb);
    ShlMono(1 + r % 256, 256, nb);
  }

  lemma {:induction false} NoneHeld(cb: nat, r: nat)
    ensures cb < Pow2(0) ==> cb + Shl(r, 0) == r && cb == 0
  {
  }

  /** The first k bytes of the header are those of the stream y. */
  ghost predicate HeaderFront(header: seq<byte>, y: nat, k: nat) {
    k <= |header| && forall i :: 0 <= i < k ==> header[i] == Shr(y, 8 * i) % 256
  }

  lemma {:induction false} NoFront(header: seq<byte>, y: nat)
    ensures HeaderFront(header, y, 0)
  {
  }

  lemma {:induction false} FrontStep(header: seq<byte>, y: nat, k: nat, b: byte)
    requires HeaderFront(header, y, k) && k < |header| && b == Shr(y, 8 * k) % 256
    ensures HeaderFront(header[k := b], y, k + 1)
  {
    hide Shr;
  }

  lemma {:induction false} WholeFront(header: seq<byte>, y: nat)
    requires |header| == 4 && HeaderFront(header, y, 4)
    ensures header == TakeBytes(y, 4)
  {
    hide Shr, TakeBytes;
    FourBytes(y);
    assert header[0] == Shr(y, 8 * 0) % 256 && header[1] == Shr(y, 8 * 1) % 256;
    assert header[2] == Shr(y, 8 * 2) % 256 && header[3] == Shr(y, 8 * 3) % 256;
  }

  lemma {:induction false} FourBytes(y: nat)
    ensures TakeBytes(y, 4) == [Shr(y, 0) % 256, Shr(y, 8) % 256, Shr(y, 16) % 256, Shr(y, 24) % 256]
  {
    hide Shr, Mask;
    ShrNone(y);
    EightBits(y, 0);
    EightBits(Shr(y, 8), 0);
    EightBits(Shr(y, 16), 0);
    ShrShr(y, 8, 8);
    ShrShr(y, 16, 8);
    assert TakeBytes(y, 4) == [y % 256] + TakeBytes(y / 256, 3);
    assert TakeBytes(y / 256, 3) == [y / 256 % 256] + TakeBytes(y / 256 / 256, 2);
  }

  /** The 16-bit number in two header bytes. */
  function LowHigh(lo: byte, hi: byte): (r: nat) {
    (hi as int) * 256 + lo as int
  }

  /** The header bytes hold the length and its complement, low byte first. */
  lemma {:induction false} HeaderNumbers(y: nat, header: seq<byte>)
    requires |header| == 4 && header == TakeBytes(y, 4)
    ensures LowHigh(header[0], header[1]) == Mask(y, 16)
    ensures LowHigh(header[2], header[3]) == Mask(Shr(y, 16), 16)
  {
    hide Mask, TakeBytes, Shr;
    FourBytes(y);
    TwoBytes(y);
    TwoBytes(Shr(y, 16));
    ShrNone(y);
    EightBits(y, 0);
    ShrShr(y, 16, 8);
    EightBits(Shr(y, 16), 0);
  }

  /** The int results of the parsing functions: 1, or 0 with a reason. */
  datatype Outcome = Done | Failed(why: Error)

  /** The result of reading a code-length header: the two tables of the block. */
  datatype HeaderOutcome = Ready(tl: Table, td: Table) | Rejected(why: Error)

  lemma {:induction false} ScatterNone()
    ensures Scatter([]) == NO_SIZES
  {
  }

  lemma {:induction false} TypeBound(x: nat)
    ensures Mask(x, 2) < 4
  {
    MaskBound(x, 2);
    SmallPowers();
  }

  /** `stbi__zbuf` */
  class ZBuf {
    const input: seq<byte>
    /** `zbuffer`, as an offset into the input. */
    var zbuffer: nat
    var numBits: nat
    var codeBuffer: nat
    /** Bits of the input consumed so far. */
    ghost var pos: nat

    /** The output buffer; `zout` and `zout_end` are offsets into it. */
    var buf: array<byte>
    var zout: nat
    const alloc: Alloc
    /** What the allocator leaves at each place of the output buffer. */
    const memory: Memory

    /** The bits still to be read: those held, then those of the unread bytes, then zeros. */
    ghost function Stream(): (r: nat)
      reads `zbuffer, `numBits, `codeBuffer
      requires zbuffer <= |input|
    {
      codeBuffer + Shl(LE(input[zbuffer..]), numBits)
    }

    /** The bit buffer refines the input's zero-padded bit stream at position pos. */
    ghost predicate ValidIn(): (ok: bool)
      reads `zbuffer, `numBits, `codeBuffer, `pos
      ensures ok ==> zbuffer <= |input|
    {
      && zbuffer <= |input| && numBits <= 32
      && codeBuffer < Pow2(numBits)
      && Stream() == Shr(LE(input), pos)
      && (pos + numBits) % 8 == 0
      && 8 * zbuffer <= pos + numBits
      && (zbuffer < |input| ==> 8 * zbuffer == pos + numBits)
    }

    /** Beyond the output the buffer is as it was allocated. */
    ghost predicate ValidOut(): (ok: bool)
      reads `buf, `zout, buf
      ensures ok ==> 0 < buf.Length && zout <= buf.Length
    {
      && 0 < buf.Length && zout <= buf.Length
      && forall k :: zout <= k < buf.Length ==> buf[k] == memory(k)
    }

    ghost predicate Valid()
      reads this, buf
    {
      ValidIn() && ValidOut()
    }

    ghost function Output(): (r: seq<byte>)
      reads `buf, `zout, buf
      requires ValidOut()
    {
      buf[..zout]
    }

    ghost function State(): (r: Filled)
      reads `buf, `zout, buf
      requires ValidOut()
      ensures |r.out| <= r.limit && r.limit > 0
    {
      Filled(Output(), buf.Length)
    }

    constructor (input: seq<byte>, initialSize: nat, alloc: Alloc, memory: Memory)
      requires initialSize > 0
      ensures Valid() && fresh(buf)
      ensures this.input == input && this.alloc == alloc && this.memory == memory
      ensures pos == 0 && numBits == 0 && State() == Filled([], initialSize)
    {
      this.input := input;
      this.alloc := alloc;
      this.memory := memory;
      zbuffer, numBits, codeBuffer, pos := 0, 0, 0, 0;
      buf := new byte[initialSize](i requires 0 <= i => memory(i));
      zout := 0;
      new;
      assert input[0..] == input;
      ShrNone(LE(input));
      assert Shl(LE(input), 0) == LE(input);
    }

    // -------------------------------------------------------------- the bit buffer

    /** `stbi__zget8` */
    method Get8() returns (b: byte)
      requires zbuffer <= |input|
      modifies `zbuffer
      ensures zbuffer == if old(zbuffer) < |input| then old(zbuffer) + 1 else old(zbuffer)
      ensures b == ByteAt(input, old(zbuffer))
      ensures zbuffer <= |input|
      ensures LE(input[old(zbuffer)..]) % 256 == b
      ensures LE(input[old(zbuffer)..]) / 256 == LE(input[zbuffer..])
    {
      if zbuffer >= |input| {
        return 0;
      }
      b := input[zbuffer];
      assert input[zbuffer..][1..] == input[zbuffer + 1..];
      zbuffer := zbuffer + 1;
    }

    /** One round of the refill: the next byte goes above the bits held. */
    method FillByte()
      requires ValidIn() && numBits <= 24
      modifies `zbuffer, `numBits, `codeBuffer
      ensures ValidIn() && numBits == old(numBits) + 8
      ensures Stream() == old(Stream())
    {
      hide Shl, Shr, Pow2, LE, Or;
      assert codeBuffer < Pow2(numBits);
      RefillHeld(codeBuffer, numBits, LE(input[zbuffer..]));
      var b := Get8();
      codeBuffer := Or(codeBuffer, Shl(b, numBits));
      numBits := numBits + 8;
    }

    /** `stbi__fill_bits`: refilling does not change the stream. */
    method FillBits()
      requires ValidIn() && numBits <= 24
      modifies `zbuffer, `numBits, `codeBuffer
      ensures ValidIn() && 24 < numBits
      ensures Stream() == old(Stream())
    {
      hide Stream;
      FillByte();
      while numBits <= 24
        invariant ValidIn()
        invariant Stream() == old(Stream())
        decreases 32 - numBits
      {
        FillByte();
      }
    }

    /** Drops the next s of the bits held. */
    method Consume(s: nat)
      requires ValidIn() && s <= numBits
      modifies `numBits, `codeBuffer, `pos
      ensures ValidIn() && pos == old(pos) + s && numBits == old(numBits) - s
      ensures Stream() == Shr(old(Stream()), s)
    {
      hide Shl, Shr, Pow2, LE;
      ConsumeHeld(codeBuffer, numBits, LE(input[zbuffer..]), s);
      ShrShr(LE(input), pos, s);
      codeBuffer := Shr(codeBuffer, s);
      numBits := numBits - s;
      pos := pos + s;
    }

    /** `stbi__zreceive` */
    method Receive(n: nat) returns (k: nat)
      requires ValidIn() && n <= 24
      modifies `zbuffer, `numBits, `codeBuffer, `pos
      ensures ValidIn() && pos == old(pos) + n
      ensures k == Mask(old(Stream()), n) && Stream() == Shr(old(Stream()), n)
    {
      hide Shl, Shr, Pow2, LE, Mask, And;
      if numBits < n {
        FillBits();
      }
      ConsumeHeld(codeBuffer, numBits, LE(input[zbuffer..]), n);
      OperatorsAgree(codeBuffer, 0, 0, n);
      k := And(codeBuffer, Pow2(n) - 1);
      Consume(n);
    }

    /** `stbi__zhuffman_decode`: the symbol whose code opens the stream, and exactly its bits consumed. */
    method DecodeSymbol(t: Table, ghost lens: seq<nat>) returns (d: Decoded)
      requires ValidIn() && Represents(t, lens)
      modifies `zbuffer, `numBits, `codeBuffer, `pos
      ensures ValidIn() && d == Lookup(lens, old(Stream()))
      ensures d.Symbol? ==> pos == old(pos) + d.bits && Stream() == Shr(old(Stream()), d.bits)
      ensures d.Symbol? ==> Coded(lens, d.value) && d.bits == lens[d.value] <= MAX_BITS
      ensures d.BadCode? ==> pos == old(pos) && Stream() == old(Stream())
    {
      hide Shl, Shr, Pow2, LE, Mask, Prefixes;
      if numBits < 16 {
        FillBits();
      }
      ghost var x := Stream();
      ConsumeHeld(codeBuffer, numBits, LE(input[zbuffer..]), numBits);
      MaskSmall(codeBuffer, numBits);
      assert codeBuffer == Mask(x, numBits);
      d := Decode(t, codeBuffer, lens);
      DecodesMask(lens, x, numBits, d);
      LookupDecodes(lens, x, d);
      if d.Symbol? {
        PrefixesCoded(lens, d.value, x);
        Consume(d.bits);
      }
    }

    // -------------------------------------------------------------- the output buffer

    /** `stbi__zexpand`: room for n more bytes, by doubling. */
    method Expand(n: nat) returns (ok: bool)
      requires ValidOut() && zout + n > buf.Length
      modifies `buf
      ensures ValidOut() && Output() == old(Output())
      ensures ok <==> CanReserve(old(buf.Length), zout + n, alloc)
      ensures ok ==> fresh(buf) && buf.Length == Grown(old(buf.Length), zout + n)
      ensures !ok ==> buf == old(buf)
    {
      if !alloc.expandable {
        return false;
      }
      var limit := buf.Length;
      while zout + n > limit
        invariant limit > 0 && Grown(limit, zout + n) == Grown(buf.Length, zout + n)
        decreases zout + n - limit
      {
        limit := limit * 2;
      }
      if limit > alloc.heap {
        return false;
      }
      var old_buf := buf;
      buf := new byte[limit](i requires 0 <= i reads old_buf =>
        if i < old_buf.Length then old_buf[i] else memory(i));
      ok := true;
    }

    /** Makes room for n bytes, growing the buffer only if it is needed. */
    method Reserve(n: nat) returns (ok: bool)
      requires ValidOut()
      modifies `buf
      ensures ValidOut() && Output() == old(Output())
      ensures ok <==> CanReserve(old(buf.Length), zout + n, alloc)
      ensures ok ==> buf.Length == Grown(old(buf.Length), zout + n)
      ensures buf == old(buf) || fresh(buf)
    {
      ok := true;
      if zout + n > buf.Length {
        ok := Expand(n);
      }
    }

    method PutByte(b: byte)
      requires ValidOut() && zout < buf.Length
      modifies `zout, buf
      ensures ValidOut() && Output() == old(Output()) + [b]
    {
      buf[zout] := b;
      zout := zout + 1;
    }

    /** The run of one byte: reads it once and writes it len times. */
    method CopyRun(len: nat)
      requires ValidOut() && 1 <= zout && zout + len <= buf.Length
      modifies `zout, buf
      ensures ValidOut() && Output() == CopyBack(memory, old(Output()), 1, len)
    {
      var v := buf[zout - 1];
      var n := 0;
      while n < len
        invariant ValidOut() && n <= len && zout == old(zout) + n
        invariant zout + (len - n) <= buf.Length
        invariant Output() == CopyBack(memory, old(Output()), 1, n)
        invariant buf[zout - 1] == v
      {
        CopyBackLast(memory, old(Output()), 1, n);
        assert Output()[zout - 1] == v;
        PutByte(v);
        n := n + 1;
      }
    }

    /** The byte at p, dist behind the end of the output or right there, at the end of it. */
    method CopyByte(p: nat, ghost dist: nat)
      requires ValidOut() && dist <= zout < buf.Length && p == zout - dist
      modifies `zout, buf
      ensures ValidOut() && zout == old(zout) + 1
      ensures var was := old(Output());
              Output() == was + [if dist == 0 then memory(|was|) else was[|was| - dist]]
    {
      assert dist > 0 ==> Output()[p] == buf[p];
      PutByte(buf[p]);
    }

    /** The general copy: reads each byte dist behind the one being written, or in its place if dist is 0. */
    method CopyMatch(dist: nat, len: nat)
      requires ValidOut() && dist <= zout && zout + len <= buf.Length
      modifies `zout, buf
      ensures ValidOut() && Output() == CopyBack(memory, old(Output()), dist, len)
    {
      hide ValidOut;
      var p := zout - dist;
      var n := 0;
      while n < len
        invariant ValidOut() && n <= len && zout == old(zout) + n && p == zout - dist
        invariant zout + (len - n) <= buf.Length
        invariant Output() == CopyBack(memory, old(Output()), dist, n)
      {
        CopyBackLast(memory, old(Output()), dist, n);
        CopyByte(p, dist);
        p := p + 1;
        n := n + 1;
      }
    }

    // -------------------------------------------------------------- compressed blocks

    /** Reads the rest of a match after its length symbol z of s bits. */
    method ReadMatchTail(td: Table, ghost dl: seq<nat>, z: nat, s: nat, ghost x: nat) returns (r: Parsed<Token>)
      requires ValidIn() && Represents(td, dl)
      requires 257 <= z && Stream() == Shr(x, s)
      modifies `zbuffer, `numBits, `codeBuffer, `pos
      ensures ValidIn() && r == ReadMatch(dl, z, s, x)
      ensures r.Ok? ==> pos == old(pos) + (r.bits - s) && Stream() == Shr(x, r.bits)
    {
      hide Represents, Lookup, Shr, Mask, Stream, ValidIn, Coded, LengthExtra, DistExtra;
      var e := LengthExtra(z);
      ExtraBits(z);
      var lext := Receive(e);
      ShrShr(x, s, e);
      var d := DecodeSymbol(td, dl);
      if d.BadCode? {
        return Bad(BadHuffmanCode);
      }
      ShrShr(x, s + e, d.bits);
      var f := DistExtra(d.value);
      var dext := Receive(f);
      ShrShr(x, s + e + d.bits, f);
      r := Ok(Match(z, lext, d.value, dext), s + e + d.bits + f);
    }

    lemma {:induction false} ExtraBits(z: nat)
      requires 257 <= z
      ensures LengthExtra(z) <= 24
    {
    }

    method ReadTokenFrom(tl: Table, td: Table, ghost ll: seq<nat>, ghost dl: seq<nat>) returns (r: Parsed<Token>)
      requires ValidIn() && Represents(tl, ll) && Represents(td, dl)
      modifies `zbuffer, `numBits, `codeBuffer, `pos
      ensures ValidIn() && r == ReadToken(ll, dl, old(Stream()))
      ensures r.Ok? ==> pos == old(pos) + r.bits && Stream() == Shr(old(Stream()), r.bits)
    {
      hide Represents, Lookup, Shr, Mask, Stream, ReadMatch;
      ghost var x := Stream();
      var d := DecodeSymbol(tl, ll);
      if d.BadCode? {
        return Bad(BadHuffmanCode);
      }
      var z := d.value;
      if z < 256 {
        return Ok(Literal(z), d.bits);
      }
      if z == END_OF_BLOCK {
        return Ok(EndOfBlock, d.bits);
      }
      r := ReadMatchTail(td, dl, z, d.bits, x);
    }

    /** Appends what the token stands for: a byte, or a match copied in place. */
    method Emit(t: Token) returns (r: Parsed<Filled>)
      requires ValidOut() && !t.EndOfBlock?
      requires t.Match? ==> 257 <= t.lsym
      modifies `buf, `zout, buf
      ensures ValidOut() && (buf == old(buf) || fresh(buf))
      ensures r.Ok? <==> Reaches(t, |old(Output())|)
                         && CanReserve(old(buf.Length), |Apply(memory, old(Output()), t)|, alloc)
      ensures r.Ok? ==> State() == Filled(Apply(memory, old(Output()), t),
                                             Grown(old(buf.Length), |Apply(memory, old(Output()), t)|))
      ensures r.Bad? ==> r.why == if Reaches(t, |old(Output())|) then NoRoom else BadDist
    {
      hide Grown;
      var ok;
      if t.Literal? {
        ok := Reserve(1);
        if !ok {
          return Bad(NoRoom);
        }
        PutByte(t.b);
      } else {
        var len, dist := MatchLength(t), MatchDist(t);
        if zout < dist {
          return Bad(BadDist);
        }
        ok := Reserve(len);
        if !ok {
          return Bad(NoRoom);
        }
        if dist == 1 {
          CopyRun(len);
        } else {
          CopyMatch(dist, len);
        }
      }
      r := Ok(Filled([], 0), 0);
    }

    /** `stbi__parse_huffman_block`, on a block whose loop ends. */
    method ParseHuffmanBlock(tl: Table, td: Table, ghost ll: seq<nat>, ghost dl: seq<nat>) returns (e: Outcome)
      requires Valid() && Represents(tl, ll) && Represents(td, dl)
      requires ReadBlock(ll, dl, Stream(), State(), alloc, memory) != Bad(Endless)
      modifies this, buf
      ensures Valid() && (buf == old(buf) || fresh(buf))
      ensures Agrees(e, ReadBlock(ll, dl, old(Stream()), old(State()), alloc, memory), old(Stream()), old(pos))
    {
      hide Represents, ReadToken, ReadBlock, Shr, Stream, Reaches, Apply, Grown, ValidIn, ValidOut, TokenLength;
      ghost var x0, p0 := Stream(), pos;
      ghost var whole := ReadBlock(ll, dl, x0, State(), alloc, memory);
      ShrNone(x0);
      while true
        invariant Valid() && (buf == old(buf) || fresh(buf))
        invariant pos >= p0 && Stream() == Shr(x0, pos - p0)
        invariant whole == More(pos - p0, ReadBlock(ll, dl, Stream(), State(), alloc, memory)) != Bad(Endless)
        decreases Cap(buf.Length, alloc) - zout, Stream()
      {
        ghost var x, f, p := Stream(), State(), pos;
        BlockRound(ll, dl, x, f, alloc, memory);
        var t := ReadTokenFrom(tl, td, ll, dl);
        assert State() == f;
        if t.Bad? {
          return Failed(t.why);
        }
        ShrShr(x0, p - p0, t.bits);
        if t.value.EndOfBlock? {
          return Done;
        }
        var r := Emit(t.value);
        if r.Bad? {
          return Failed(r.why);
        }
        CapStep(f.limit, |State().out|, alloc);
        ShrLess(x, t.bits);
        assert |State().out| == |f.out| + TokenLength(t.value);
      }
    }

    // -------------------------------------------------------------- stored blocks

    /** Moves held bytes into the four header bytes, then reads the missing ones from the input. */
    method DrainHeader() returns (header: array<byte>)
      requires ValidIn() && pos % 8 == 0
      modifies `zbuffer, `numBits, `codeBuffer, `pos
      ensures ValidIn() && numBits == 0 && pos == old(pos) + 32
      ensures header.Length == 4 && fresh(header)
      ensures header[..] == TakeBytes(old(Stream()), 4)
      ensures Stream() == Shr(old(Stream()), 32)
    {
      hide Shl, Shr, Pow2, LE, Mask, Stream, ValidIn, HeaderFront, TakeBytes;
      header := new byte[4](_ => 0);
      ghost var y, p := Stream(), pos;
      var k := 0;
      ShrNone(y);
      NoFront(header[..], y);
      Aligned();
      while numBits > 0
        invariant ValidIn() && numBits % 8 == 0 && numBits + 8 * k <= 32
        invariant pos == p + 8 * k && Stream() == Shr(y, 8 * k) && HeaderFront(header[..], y, k)
        decreases numBits
      {
        ShrShr(y, 8 * k, 8);
        var b := LowByte();
        FrontStep(header[..], y, k, b);
        header[k] := b;
        Consume(8);
        k := k + 1;
      }
      while k < 4
        invariant ValidIn() && numBits == 0 && k <= 4
        invariant pos == p + 8 * k && Stream() == Shr(y, 8 * k) && HeaderFront(header[..], y, k)
        decreases 4 - k
      {
        ShrShr(y, 8 * k, 8);
        var b := NextByte();
        FrontStep(header[..], y, k, b);
        header[k] := b;
        k := k + 1;
      }
      WholeFront(header[..], y);
    }

    lemma {:induction false} Aligned()
      requires ValidIn() && pos % 8 == 0
      ensures numBits % 8 == 0 && numBits <= 32
    {
    }

    /** `code_buffer & 255`, with at least eight bits held. */
    method LowByte() returns (b: byte)
      requires ValidIn() && numBits >= 8
      ensures b == Stream() % 256
    {
      hide Shl, Shr, Pow2, LE, Mask;
      ConsumeHeld(codeBuffer, numBits, LE(input[zbuffer..]), 8);
      EightBits(codeBuffer, 0);
      EightBits(Stream(), 0);
      b := codeBuffer % 256;
    }

    /** `stbi__zget8` with no bits held. */
    method NextByte() returns (b: byte)
      requires ValidIn() && numBits == 0
      modifies `zbuffer, `pos
      ensures ValidIn() && pos == old(pos) + 8
      ensures b == old(Stream()) % 256 && Stream() == Shr(old(Stream()), 8)
    {
      hide LE, Shr;
      NoneHeld(codeBuffer, LE(input[zbuffer..]));
      EightBits(LE(input[zbuffer..]), 0);
      ShrShr(LE(input), pos, 8);
      b := Get8();
      NoneHeld(codeBuffer, LE(input[zbuffer..]));
      pos := pos + 8;
    }

    /** The bits held beyond whole bytes are those up to the next byte boundary. */
    lemma {:induction false} HeldBeyondByte()
      requires ValidIn()
      ensures numBits % 8 == Pad(pos)
    {
      PadOf(pos, numBits);
    }

    /** Discards the bits up to the next byte boundary. */
    method AlignToByte()
      requires ValidIn()
      modifies `zbuffer, `numBits, `codeBuffer, `pos
      ensures ValidIn() && pos == old(pos) + Pad(old(pos)) && Stream() == Shr(old(Stream()), Pad(old(pos)))
    {
      hide Shr, Mask, Stream, LE, ValidIn;
      ShrNone(Stream());
      HeldBeyondByte();
      if numBits % 8 != 0 {
        var discarded := Receive(numBits % 8);
      }
    }

    /** `stbi__parse_uncompressed_block` */
    method ParseUncompressedBlock() returns (e: Outcome)
      requires Valid()
      modifies this, buf
      ensures Valid() && (buf == old(buf) || fresh(buf))
      ensures Agrees(e, ReadStored(old(Stream()), old(pos), 8 * |input|, old(State()), alloc), old(Stream()), old(pos))
    {
      hide Shr, Mask, Stream, LE, Grown, TakeBytes, CanReserve, ValidOut;
      ghost var x, p := Stream(), pos;
      AlignToByte();
      ghost var y := Stream();
      var header := DrainHeader();
      HeaderNumbers(y, header[..]);
      var len := LowHigh(header[0], header[1]);
      var nlen := LowHigh(header[2], header[3]);
      if nlen != 0xFFFF - len {
        return Failed(ZlibCorrupt);
      }
      EndOfInput(p, header[..], len);
      if zbuffer + len > |input| {
        return Failed(ReadPastBuffer);
      }
      var ok := Reserve(len);
      if !ok {
        return Failed(NoRoom);
      }
      ShrShr(x, Pad(p), 32);
      ShrShr(x, Pad(p) + 32, 8 * len);
      CopyInput(len);
      e := Done;
    }

    /** `memcpy(a->zout, a->zbuffer, len)`, with no bits held. */
    method CopyInput(len: nat)
      requires Valid() && numBits == 0 && zbuffer + len <= |input| && 8 * zbuffer == pos
      requires zout + len <= buf.Length
      modifies `zbuffer, `zout, `pos, buf
      ensures Valid() && pos == old(pos) + 8 * len
      ensures Output() == old(Output()) + TakeBytes(old(Stream()), len)
      ensures Stream() == Shr(old(Stream()), 8 * len)
    {
      hide Shr, LE, TakeBytes;
      ghost var tail := input[zbuffer..];
      NoneHeld(codeBuffer, LE(tail));
      TakeInput(tail, len);
      SkipBytes(tail, len);
      ShrShr(LE(input), pos, 8 * len);
      assert tail[len..] == input[zbuffer + len..];
      forall i | 0 <= i < len {
        buf[zout + i] := input[zbuffer + i];
      }
      assert TakeBytes(LE(tail), len) == input[zbuffer..zbuffer + len];
      zout := zout + len;
      zbuffer := zbuffer + len;
      pos := pos + 8 * len;
      NoneHeld(codeBuffer, LE(input[zbuffer..]));
    }

    /** Once a header has been read whose two numbers agree, padding can only be followed by payload. */
    lemma {:induction false} EndOfInput(p: nat, header: seq<byte>, len: nat)
      requires ValidIn() && numBits == 0 && pos == p + Pad(p) + 32
      requires |header| == 4 && header == TakeBytes(Shr(Shr(LE(input), p), Pad(p)), 4)
      requires len == LowHigh(header[0], header[1]) && LowHigh(header[2], header[3]) == 0xFFFF - len
      ensures 8 * zbuffer <= pos && (8 * zbuffer < pos ==> len > 0 && zbuffer == |input|)
    {
      hide Shr, LE, TakeBytes;
      var q := (p + 7) / 8;
      assert p + Pad(p) == 8 * q;
      ShrShr(LE(input), p, Pad(p));
      HeaderNumbers(Shr(LE(input), 8 * q), header);
      HeaderBytes(input, q);
    }

    // -------------------------------------------------------------- code-length headers

    /** The 3-bit lengths of the code-length code, put in the order of its symbols. */
    method ReadCodeLengthSizes(hclen: nat) returns (sizes: seq<nat>)
      requires ValidIn() && hclen <= 19
      modifies `zbuffer, `numBits, `codeBuffer, `pos
      ensures ValidIn() && sizes == Scatter(ReadTriples(old(Stream()), hclen))
      ensures pos == old(pos) + 3 * hclen && Stream() == Shr(old(Stream()), 3 * hclen)
    {
      hide Shr, Mask, Stream, LE, ReadTriples, Scatter, ValidIn;
      var a := new nat[19](_ => 0);
      ghost var x, p := Stream(), pos;
      ghost var ts := ReadTriples(x, hclen);
      ShrNone(x);
      ScatterNone();
      assert ts[..0] == [] && a[..] == NO_SIZES;
      for i := 0 to hclen
        invariant ValidIn() && pos == p + 3 * i && Stream() == Shr(x, 3 * i)
        invariant a[..] == Scatter(ts[..i])
      {
        ghost var before := a[..];
        TripleAt(x, hclen, i);
        ShrShr(x, 3 * i, 3);
        var s := Receive(3);
        a[DEZIGZAG[i]] := s;
        ScatterStep(ts, i);
        assert a[..] == before[DEZIGZAG[i] := s];
      }
      assert ts[..hclen] == ts;
      sizes := a[..];
    }

    /** One operation of the run-length coded list: extends the first n lengths in place. */
    method ReadLengthOp(tc: Table, cl: seq<nat>, lencodes: array<nat>, n: nat, ntot: nat)
      returns (e: Outcome, m: nat)
      requires ValidIn() && Represents(tc, cl) && |cl| == 19 && n < ntot <= lencodes.Length
      modifies `zbuffer, `numBits, `codeBuffer, `pos, lencodes
      ensures ValidIn()
      ensures match ReadOp(cl, old(Stream()), ntot, old(lencodes[..n]))
              case Bad(why) => e == Failed(why)
              case Ok(ls, b) =>
                && e == Done && n < m <= ntot && lencodes[..m] == ls
                && pos == old(pos) + b && Stream() == Shr(old(Stream()), b)
    {
      hide Shr, Mask, Stream, LE, Lookup, Represents, ValidIn, ApplyRun;
      ghost var x, acc := Stream(), lencodes[..n];
      var d := DecodeSymbol(tc, cl);
      if d.BadCode? {
        return Failed(BadCodeLengths), n;
      }
      var c := d.value;
      if c < 16 {
        lencodes[n] := c;
        assert lencodes[..n + 1] == acc + [c];
        return Done, n + 1;
      }
      var width := RunBits(c);
      var ext := Receive(width);
      ShrShr(x, d.bits, width);
      var count := RunBase(c) + ext;
      if (c == 16 && n == 0) || ntot - n < count {
        return Failed(BadCodeLengths), n;
      }
      var fill := if c == 16 then lencodes[n - 1] else 0;
      Fill(lencodes, n, count, fill);
      m := n + count;
      RunFills(acc, ntot, c, ext, fill);
      e := Done;
    }

    /** `memset` */
    method Fill(lencodes: array<nat>, n: nat, count: nat, fill: nat)
      requires n + count <= lencodes.Length
      modifies lencodes
      ensures lencodes[..n + count] == old(lencodes[..n]) + seq(count, _ => fill)
    {
      forall i | n <= i < n + count {
        lencodes[i] := fill;
      }
    }

    /** The run-length coded list of ntot code lengths. */
    method ReadCodeLengths(tc: Table, cl: seq<nat>, ntot: nat) returns (e: Outcome, lens: seq<nat>)
      requires ValidIn() && Represents(tc, cl) && |cl| == 19 && ntot <= 320
      modifies `zbuffer, `numBits, `codeBuffer, `pos
      ensures ValidIn()
      ensures match ReadLengths(cl, old(Stream()), ntot, [])
              case Bad(why) => e == Failed(why)
              case Ok(ls, n) =>
                e == Done && lens == ls && pos == old(pos) + n && Stream() == Shr(old(Stream()), n)
    {
      hide Shr, Stream, LE, ReadOp, Represents;
      var lencodes := new nat[455](_ => 0);
      ghost var x, p := Stream(), pos;
      ghost var whole := ReadLengths(cl, x, ntot, []);
      ShrNone(x);
      var n := 0;
      while n < ntot
        invariant ValidIn() && n <= ntot && pos >= p && Stream() == Shr(x, pos - p)
        invariant whole == More(pos - p, ReadLengths(cl, Stream(), ntot, lencodes[..n]))
        decreases ntot - n
      {
        ghost var y, at := Stream(), pos - p;
        ghost var op := ReadOp(cl, y, ntot, lencodes[..n]);
        e, n := ReadLengthOp(tc, cl, lencodes, n, ntot);
        if e.Failed? {
          return e, [];
        }
        ShrShr(x, at, op.bits);
      }
      e, lens := Done, lencodes[..n];
    }

    /** The three counts in front of a code-length header. */
    method ReadCounts() returns (hlit: nat, hdist: nat, hclen: nat)
      requires ValidIn()
      modifies `zbuffer, `numBits, `codeBuffer, `pos
      ensures ValidIn() && pos == old(pos) + 14 && Stream() == Shr(old(Stream()), 14)
      ensures hlit == Mask(old(Stream()), 5) + 257 <= 288
      ensures hdist == Mask(Shr(old(Stream()), 5), 5) + 1 <= 32
      ensures hclen == Mask(Shr(old(Stream()), 10), 4) + 4 <= 19
    {
      hide Shr, Mask, Stream, LE;
      ghost var x := Stream();
      FieldBounds(x);
      hlit := Receive(5);
      ShrShr(x, 5, 5);
      hdist := Receive(5);
      ShrShr(x, 10, 4);
      hclen := Receive(4);
      hlit, hdist, hclen := hlit + 257, hdist + 1, hclen + 4;
    }

    /** `stbi__compute_huffman_codes` */
    method ComputeHuffmanCodes() returns (h: HeaderOutcome, ghost c: Codes)
      requires ValidIn()
      modifies `zbuffer, `numBits, `codeBuffer, `pos
      ensures ValidIn()
      ensures match ReadHeader(old(Stream()))
              case Bad(why) => h == Rejected(why)
              case Ok(codes, n) =>
                && h.Ready? && c == codes && Represents(h.tl, c.ll) && Represents(h.td, c.dl)
                && pos == old(pos) + n && Stream() == Shr(old(Stream()), n)
    {
      hide Shr, Mask, Stream, LE, ReadTriples, Scatter, ReadLengths, Represents, KraftHolds;
      ghost var x := Stream();
      c := Codes([], []);
      var hlit, hdist, hclen := ReadCounts();
      ShrShr(x, 14, 3 * hclen);
      var sizes := ReadCodeLengthSizes(hclen);
      var built := Build(sizes);
      if built.BadLengths? {
        return Rejected(BadCodeLengths), c;
      }
      ghost var r := ReadLengths(sizes, Stream(), hlit + hdist, []);
      var e, lens := ReadCodeLengths(built.table, sizes, hlit + hdist);
      if e.Failed? {
        return Rejected(e.why), c;
      }
      ShrShr(x, 14 + 3 * hclen, r.bits);
      var bl := Build(lens[..hlit]);
      if bl.BadLengths? {
        return Rejected(BadCodeLengths), c;
      }
      var bd := Build(lens[hlit..]);
      if bd.BadLengths? {
        return Rejected(BadCodeLengths), c;
      }
      c := Codes(lens[..hlit], lens[hlit..]);
      h := Ready(bl.table, bd.table);
    }

    // -------------------------------------------------------------- whole streams

    /** One block after its three header bits. */
    method ParseBody(ty: nat) returns (e: Outcome)
      requires Valid() && ty < 4
      requires ReadBody(ty, Stream(), pos, 8 * |input|, State(), alloc, memory) != Bad(Endless)
      modifies this, buf
      ensures Valid() && (buf == old(buf) || fresh(buf))
      ensures Agrees(e, ReadBody(ty, old(Stream()), old(pos), 8 * |input|, old(State()), alloc, memory),
                     old(Stream()), old(pos))
    {
      hide Shr, Mask, Stream, LE, ReadBlock, ReadHeader, ReadStored, Represents, FixedCodes, KraftHolds, Lengths;
      if ty == TYPE_STORED {
        e := ParseUncompressedBlock();
      } else if ty == TYPE_BAD {
        e := Failed(BadBlockType);
      } else if ty == TYPE_FIXED {
        var c := FixedCodes();
        FixedCodesOk();
        var bl := Build(c.ll);
        var bd := Build(c.dl);
        e := ParseHuffmanBlock(bl.table, bd.table, c.ll, c.dl);
      } else {
        ghost var x := Stream();
        var h, c := ComputeHuffmanCodes();
        if h.Rejected? {
          return Failed(h.why);
        }
        assert ReadHeader(x).Ok?;
        ghost var n := ReadHeader(x).bits;
        ghost var r := ReadBlock(c.ll, c.dl, Stream(), State(), alloc, memory);
        e := ParseHuffmanBlock(h.tl, h.td, c.ll, c.dl);
        if r.Ok? {
          ShrShr(x, n, r.bits);
        }
      }
    }

    /** The loop of `stbi__parse_zlib`, when those of its blocks end. */
    method ParseBlocks() returns (e: Outcome)
      requires Valid() && ReadBlocks(Stream(), pos, 8 * |input|, State(), alloc, memory) != Bad(Endless)
      modifies this, buf
      ensures Valid() && (buf == old(buf) || fresh(buf))
      ensures Agrees(e, ReadBlocks(old(Stream()), old(pos), 8 * |input|, old(State()), alloc, memory),
                     old(Stream()), old(pos))
    {
      hide Shr, Mask, Stream, LE, ReadBody, ReadBlocks, ValidIn, ValidOut;
      ghost var x0, p0 := Stream(), pos;
      ghost var whole := ReadBlocks(x0, p0, 8 * |input|, State(), alloc, memory);
      ShrNone(x0);
      while true
        invariant Valid() && (buf == old(buf) || fresh(buf))
        invariant pos >= p0 && Stream() == Shr(x0, pos - p0)
        invariant whole == More(pos - p0, ReadBlocks(Stream(), pos, 8 * |input|, State(), alloc, memory))
        invariant whole != Bad(Endless)
        decreases Stream()
      {
        ghost var x, p, f := Stream(), pos, State();
        BlocksRound(x, p, 8 * |input|, f, alloc, memory);
        var final := Receive(1);
        var ty := Receive(2);
        ShrShr(x, 1, 2);
        ShrShr(x0, p - p0, 3);
        TypeBound(Shr(x, 1));
        assert State() == f;
        ghost var r := ReadBody(ty, Stream(), pos, 8 * |input|, f, alloc, memory);
        e := ParseBody(ty);
        if e.Failed? {
          return;
        }
        ShrShr(x, 3, r.bits);
        ShrShr(x0, p - p0, 3 + r.bits);
        BodyUsesBits(x, p, 8 * |input|, f, alloc, memory);
        if final == 1 {
          return;
        }
      }
    }

    /** `stbi__parse_zlib_header` */
    method ParseZlibHeader() returns (ok: bool)
      requires ValidIn() && pos == 0 && numBits == 0
      modifies `zbuffer, `pos
      ensures ValidIn() && pos == 16 && Stream() == Shr(LE(input), 16)
      ensures ok == ZlibHeaderOk(ByteAt(input, 0), ByteAt(input, 1))
    {
      hide Shr, Stream, LE, ZlibHeaderOk;
      ShrNone(LE(input));
      ByteOfStream(input, 0);
      ByteOfStream(input, 1);
      ShrShr(LE(input), 8, 8);
      var cmf := NextByte();
      var flg := NextByte();
      ok := ZlibHeaderOk(cmf, flg);
    }

    /** `stbi__do_zlib`, on a fresh buffer and an input whose block loops end. */
    method DoZlib(parseHeader: bool) returns (e: Outcome)
      requires Valid() && pos == 0 && numBits == 0
      requires Inflate(input, parseHeader, State(), alloc, memory) != Bad(Endless)
      modifies this, buf
      ensures Valid()
      ensures match Inflate(input, parseHeader, old(State()), alloc, memory)
              case Bad(why) => e == Failed(why)
              case Ok(f, _) => e == Done && State() == f
    {
      hide Shr, Stream, LE, ReadBlocks, ZlibHeaderOk;
      ghost var f := State();
      ShrNone(LE(input));
      if parseHeader {
        var ok := ParseZlibHeader();
        if !ok {
          return Failed(BadZlibHeader);
        }
      }
      assert State() == f;
      e := ParseBlocks();
    }

    /** The outcome and the new state are what the reader of the stream prescribes. */
    ghost predicate Agrees(e: Outcome, r: Parsed<Filled>, x: nat, p: nat)
      reads this, buf
      requires Valid()
    {
      match r
      case Bad(why) => e == Failed(why)
      case Ok(f, n) => e == Done && State() == f && pos == p + n && Stream() == Shr(x, n)
    }
  }

  lemma {:induction false} RunFills(acc: seq<nat>, ntot: nat, c: nat, ext: nat, fill: nat)
    requires |acc| <= ntot && RunAllowed(acc, ntot, c, ext)
    requires fill == if c == 16 then acc[|acc| - 1] else 0
    ensures ApplyRun(acc, ntot, c, ext) == acc + seq(RunBase(c) + ext, _ => fill)
  {
  }

  lemma {:induction false} PadOf(pos: nat, held: nat)
    requires (pos + held) % 8 == 0
    ensures held % 8 == Pad(pos)
  {
  }

  lemma {:induction false} PrefixesCoded(lens: seq<nat>, i: nat, x: nat)
    requires Lengths(lens) && Prefixes(lens, i, x)
    ensures Coded(lens, i) && lens[i] <= MAX_BITS
  {
  }
}
