/**
 When the decoder's block loop ends, and when the output is determined by the input: the tables have entries for symbols
 without a meaning, one kind of which gives no bytes, and the other copies bytes that were never written.
 */
module Determined {
  import opened Bytes
  import opened Bits
  import opened Huffman
  import opened Deflate
  import opened DeflateStream

  // ---------------------------------------------------------------- the loop of a block

  /** What the loop of `stbi__parse_huffman_block` works on, until it returns. */
  datatype Loop = At(x: nat, f: Filled) | Over

  predicate LoopOk(s: Loop) {
    s.At? ==> |s.f.out| <= s.f.limit && s.f.limit > 0
  }

  /** One round of the loop. */
  ghost function Round(ll: seq<nat>, dl: seq<nat>, s: Loop, a: Alloc, mem: Memory): (r: Loop)
    requires LoopOk(s)
    ensures LoopOk(r)
  {
    match s
    case Over => Over
    case At(x, f) =>
      match ReadToken(ll, dl, x)
      case Bad(_) => Over
      case Ok(t, n) =>
        if t.EndOfBlock? || !Reaches(t, |f.out|) || !CanReserve(f.limit, |Apply(mem, f.out, t)|, a) then Over
        else At(Shr(x, n), Filled(Apply(mem, f.out, t), Grown(f.limit, |Apply(mem, f.out, t)|)))
  }

  ghost function Rounds(ll: seq<nat>, dl: seq<nat>, s: Loop, a: Alloc, mem: Memory, n: nat): (r: Loop)
    requires LoopOk(s)
    ensures LoopOk(r)
    decreases n
  {
    if n == 0 then s else Rounds(ll, dl, Round(ll, dl, s, a, mem), a, mem, n - 1)
  }

  lemma {:induction false} NothingCopied(mem: Memory, out: seq<byte>, t: Token)
    requires Reaches(t, |out|) && TokenLength(t) == 0
    ensures Apply(mem, out, t) == out
  {
  }

  /** A round either returns, changes nothing, or leaves what the rest of the block is read from. */
  lemma {:induction false} RoundRest(ll: seq<nat>, dl: seq<nat>, x: nat, f: Filled, a: Alloc, mem: Memory)
    requires |f.out| <= f.limit && f.limit > 0
    ensures var s := Round(ll, dl, At(x, f), a, mem);
            var whole := ReadBlock(ll, dl, x, f, a, mem);
            && (s.Over? ==> whole != Bad(Endless))
            && (s.At? && s == At(x, f) ==> whole == Bad(Endless))
            && (s.At? && s != At(x, f) ==>
                  && (whole == Bad(Endless) <==> ReadBlock(ll, dl, s.x, s.f, a, mem) == Bad(Endless))
                  && Cap(s.f.limit, a) <= Cap(f.limit, a) && |s.f.out| <= Cap(s.f.limit, a)
                  && (|s.f.out| > |f.out| || (|s.f.out| == |f.out| && s.x < x)))
  {
    hide ReadToken, ReadBlock, CanReserve, Shr, Grown, Reaches, Apply, TokenLength;
    BlockRound(ll, dl, x, f, a, mem);
    var r := ReadToken(ll, dl, x);
    if r.Ok? && !r.value.EndOfBlock? && Reaches(r.value, |f.out|) {
      var out := Apply(mem, f.out, r.value);
      ReadTokenErrors(ll, dl, x);
      ShrLess(x, r.bits);
      if CanReserve(f.limit, |out|, a) {
        CapStep(f.limit, |out|, a);
        if TokenLength(r.value) == 0 {
          NothingCopied(mem, f.out, r.value);
          NoGrowth(f.limit, |f.out|);
        }
      }
    } else {
      ReadTokenErrors(ll, dl, x);
    }
  }

  lemma {:induction false} ReadTokenErrors(ll: seq<nat>, dl: seq<nat>, x: nat)
    ensures ReadToken(ll, dl, x) != Bad(Endless)
  {
  }

  lemma {:induction false} GoesOn(ll: seq<nat>, dl: seq<nat>, x: nat, f: Filled, a: Alloc, mem: Memory, n: nat)
    requires |f.out| <= f.limit && f.limit > 0 && ReadBlock(ll, dl, x, f, a, mem) == Bad(Endless)
    ensures Rounds(ll, dl, At(x, f), a, mem, n).At?
    decreases n
  {
    hide Round, ReadBlock;
    if n > 0 {
      RoundRest(ll, dl, x, f, a, mem);
      var s := Round(ll, dl, At(x, f), a, mem);
      GoesOn(ll, dl, s.x, s.f, a, mem, n - 1);
    }
  }

  lemma {:induction false} Returns(ll: seq<nat>, dl: seq<nat>, x: nat, f: Filled, a: Alloc, mem: Memory)
    returns (n: nat)
    requires |f.out| <= f.limit && f.limit > 0 && ReadBlock(ll, dl, x, f, a, mem) != Bad(Endless)
    ensures Rounds(ll, dl, At(x, f), a, mem, n).Over?
    decreases Cap(f.limit, a) - |f.out|, x
  {
    hide Round, ReadBlock, Cap;
    RoundRest(ll, dl, x, f, a, mem);
    var s := Round(ll, dl, At(x, f), a, mem);
    if s.Over? {
      n := 1;
      assert Rounds(ll, dl, s, a, mem, 0).Over?;
    } else {
      var m := Returns(ll, dl, s.x, s.f, a, mem);
      n := m + 1;
    }
  }

  /** The loop of a block ends if and only if reading the block does not find that nothing changes. */
  lemma {:induction false} BlockEndsIff(ll: seq<nat>, dl: seq<nat>, x: nat, f: Filled, a: Alloc, mem: Memory)
    requires |f.out| <= f.limit && f.limit > 0
    ensures (exists n: nat :: Rounds(ll, dl, At(x, f), a, mem, n).Over?)
            <==> ReadBlock(ll, dl, x, f, a, mem) != Bad(Endless)
  {
    hide Rounds, ReadBlock;
    if ReadBlock(ll, dl, x, f, a, mem) != Bad(Endless) {
      var n := Returns(ll, dl, x, f, a, mem);
    } else {
      forall n: nat ensures !Rounds(ll, dl, At(x, f), a, mem, n).Over? {
        GoesOn(ll, dl, x, f, a, mem, n);
      }
    }
  }

  /** Past the end of the input, where every bit is 0, the loop goes on for ever exactly on a match without bytes. */
  lemma {:induction false} TruncatedIff(ll: seq<nat>, dl: seq<nat>, f: Filled, a: Alloc, mem: Memory)
    requires |f.out| <= f.limit && f.limit > 0
    ensures ReadBlock(ll, dl, 0, f, a, mem) == Bad(Endless) <==>
              var r := ReadToken(ll, dl, 0);
              r.Ok? && Reaches(r.value, |f.out|) && TokenLength(r.value) == 0
    decreases Cap(f.limit, a) - |f.out|
  {
    hide ReadToken, ReadBlock, CanReserve, Grown, Reaches, Apply, TokenLength;
    BlockRound(ll, dl, 0, f, a, mem);
    ReadTokenErrors(ll, dl, 0);
    var r := ReadToken(ll, dl, 0);
    if r.Ok? && !r.value.EndOfBlock? && Reaches(r.value, |f.out|) {
      ShrZero(r.bits);
      var out := Apply(mem, f.out, r.value);
      if CanReserve(f.limit, |out|, a) {
        if TokenLength(r.value) > 0 {
          CapStep(f.limit, |out|, a);
          TruncatedIff(ll, dl, Filled(out, Grown(f.limit, |out|)), a, mem);
        }
      } else if TokenLength(r.value) == 0 {
        RoomAsItIs(f.limit, |out|, a);
      }
    } else if r.Ok? && r.value.EndOfBlock? {
      EndReaches(|f.out|);
    }
  }

  lemma {:induction false} EndReaches(size: nat)
    ensures !Reaches(EndOfBlock, size)
  {
  }

  /** So the loop ends on every input if the code of zeros is not that of a match without bytes. */
  lemma {:induction false} AlwaysEnds(ll: seq<nat>, dl: seq<nat>, x: nat, f: Filled, a: Alloc, mem: Memory)
    requires |f.out| <= f.limit && f.limit > 0
    requires var r := ReadToken(ll, dl, 0); r.Ok? && r.value.Match? ==> r.value.lsym <= LAST_LENGTH
    ensures ReadBlock(ll, dl, x, f, a, mem) != Bad(Endless)
    decreases Cap(f.limit, a) - |f.out|, x
  {
    hide ReadToken, ReadBlock, CanReserve, Grown, Reaches, Apply, TokenLength;
    BlockRound(ll, dl, x, f, a, mem);
    ReadTokenErrors(ll, dl, x);
    var r := ReadToken(ll, dl, x);
    if r.Ok? && !r.value.EndOfBlock? && Reaches(r.value, |f.out|) {
      var out := Apply(mem, f.out, r.value);
      ShrLess(x, r.bits);
      EmptyIff(r.value);
      if CanReserve(f.limit, |out|, a) && !(TokenLength(r.value) == 0 && Shr(x, r.bits) == x) {
        CapStep(f.limit, |out|, a);
        AlwaysEnds(ll, dl, Shr(x, r.bits), Filled(out, Grown(f.limit, |out|)), a, mem);
      }
    }
  }

  lemma {:induction false} EmptyIff(t: Token)
    requires t.Match? ==> 257 <= t.lsym
    ensures TokenLength(t) == 0 ==> t.Match? && t.lsym > LAST_LENGTH
  {
  }

  /** A block with the fixed codes always ends: their code of zeros is the end mark. */
  lemma {:induction false} FixedEnds(x: nat, f: Filled, a: Alloc, mem: Memory)
    requires |f.out| <= f.limit && f.limit > 0
    ensures ReadBlock(FixedCodes().ll, FixedCodes().dl, x, f, a, mem) != Bad(Endless)
  {
    hide ReadBlock, FixedCodes, ReadToken;
    FixedZeros();
    AlwaysEnds(FixedCodes().ll, FixedCodes().dl, x, f, a, mem);
  }

  lemma {:induction false} FixedZeros()
    ensures ReadToken(FixedCodes().ll, FixedCodes().dl, 0) == Ok(EndOfBlock, 7)
  {
    hide KraftHolds, Lengths, Rev, Lookup, Prefixes;
    var ll := FixedCodes().ll;
    FixedCodesOk();
    FixedMark(ll);
    LookupDecodes(ll, 0, Symbol(END_OF_BLOCK, 7));
  }

  lemma {:induction false} FixedMark(ll: seq<nat>)
    requires ll == FixedCodes().ll
    ensures Prefixes(ll, END_OF_BLOCK, 0) && ll[END_OF_BLOCK] == 7
  {
    hide Count, CountIn, FirstCode, Rev;
    RevZero(7);
    NoneShort(ll, 288);
    FirstIsZero(ll, 7);
    CountNone(ll, 7, 256);
  }

  lemma {:induction false} RevZero(n: nat)
    ensures Rev(0, n) == 0
  {
    if n > 0 {
      RevZero(n - 1);
      ShrZero(n - 1);
    }
  }

  lemma {:induction false} CountNone(lens: seq<nat>, s: nat, n: nat)
    requires n <= |lens| && forall i :: 0 <= i < n ==> lens[i] != s
    ensures CountIn(lens, s, n) == 0
  {
    if n > 0 {
      CountNone(lens, s, n - 1);
    }
  }

  lemma {:induction false} NoneShort(lens: seq<nat>, n: nat)
    requires n == |lens| && forall i :: 0 <= i < n ==> lens[i] >= 7
    ensures forall s :: 1 <= s < 7 ==> Count(lens, s) == 0
  {
    forall s | 1 <= s < 7 ensures Count(lens, s) == 0 {
      CountNone(lens, s, n);
    }
  }

  lemma {:induction false} FirstIsZero(lens: seq<nat>, s: nat)
    requires 1 <= s && forall u :: 1 <= u < s ==> Count(lens, u) == 0
    ensures FirstCode(lens, s) == 0
  {
    if s > 1 {
      FirstIsZero(lens, s - 1);
    }
  }

  // ---------------------------------------------------------------- tokens

  /** With the codes of a block no symbol is looked up beyond the tables. */
  lemma {:induction false} WithinTables(ll: seq<nat>, dl: seq<nat>, x: nat)
    requires |ll| <= FIXED_LENGTHS && |dl| <= FIXED_DISTS
    requires ReadToken(ll, dl, x).Ok? && ReadToken(ll, dl, x).value.Match?
    ensures var t := ReadToken(ll, dl, x).value;
            t.lsym - 257 < |LENGTH_BASE| == |LENGTH_EXTRA| && t.dsym < |DIST_BASE| == |DIST_EXTRA|
  {
    hide Shr, Mask, Rev;
  }

  /** The codes of a dynamic block are of that size. */
  lemma {:induction false} HeaderSizes(x: nat)
    requires ReadHeader(x).Ok?
    ensures |ReadHeader(x).value.ll| <= FIXED_LENGTHS && |ReadHeader(x).value.dl| <= FIXED_DISTS
  {
    hide Shr, Mask, KraftHolds, Scatter, ReadTriples;
    FieldBounds(x);
  }

  /** A match that copies bytes never written. */
  predicate CopiesUnwritten(t: Token) {
    t.Match? && 257 <= t.lsym && MatchDist(t) == 0 && MatchLength(t) > 0
  }

  /** That is a match by distance symbol 30 or 31 and a length symbol of the standard. */
  lemma {:induction false} CopiesUnwrittenIff(dl: seq<nat>, t: Token)
    requires MatchOk(dl, t)
    ensures CopiesUnwritten(t) <==> t.dsym > LAST_DIST && t.lsym <= LAST_LENGTH
  {
  }

  /** No token copies bytes never written. */
  predicate AllWritten(ts: seq<Token>) {
    forall i :: 0 <= i < |ts| ==> !CopiesUnwritten(ts[i])
  }

  lemma {:induction false} TokensDetermine(g: Memory, h: Memory, out: seq<byte>, ts: seq<Token>)
    requires AllReach(|out|, ts) && AllWritten(ts)
    ensures Expand(g, out, ts) == Expand(h, out, ts)
    decreases |ts|
  {
    hide CopyBack;
    if ts != [] {
      var t := ts[0];
      assert !CopiesUnwritten(t);
      if t.Match? {
        SameCopy(g, h, out, MatchDist(t), MatchLength(t));
      }
      assert Apply(g, out, t) == Apply(h, out, t);
      TokensDetermine(g, h, Apply(g, out, t), ts[1..]);
    }
  }

  lemma {:induction false} SameCopy(g: Memory, h: Memory, out: seq<byte>, dist: nat, len: nat)
    requires dist <= |out| && (dist > 0 || len == 0)
    ensures CopyBack(g, out, dist, len) == CopyBack(h, out, dist, len)
    decreases len
  {
    if len > 0 {
      SameCopy(g, h, out + [out[|out| - dist]], dist, len - 1);
    }
  }

  /** A byte that was never written is part of the output. */
  lemma {:induction false} TokensLeaveOpen(g: Memory, a: seq<byte>, h: Memory, b: seq<byte>, ts: seq<Token>, i: nat)
    requires |a| == |b| && AllReach(|a|, ts) && i < |ts| && CopiesUnwritten(ts[i])
    requires forall k :: g(k) != h(k)
    ensures Expand(g, a, ts) != Expand(h, b, ts)
    decreases |ts|
  {
    hide CopyBack;
    var a', b' := Apply(g, a, ts[0]), Apply(h, b, ts[0]);
    if i > 0 {
      TokensLeaveOpen(g, a', h, b', ts[1..], i - 1);
    } else {
      CopyBackBytes(g, a, 0, MatchLength(ts[0]));
      CopyBackBytes(h, b, 0, MatchLength(ts[0]));
      assert a'[|a|] == g(|a|) && b'[|a|] == h(|a|);
      ExpandKeeps(g, a', ts[1..]);
      ExpandKeeps(h, b', ts[1..]);
    }
  }

  /** The tokens determine the output if and only if none of them copies bytes never written. */
  lemma {:induction false} DeterminedIff(out: seq<byte>, ts: seq<Token>)
    requires AllReach(|out|, ts)
    ensures (forall g: Memory, h: Memory :: Expand(g, out, ts) == Expand(h, out, ts))
            <==> AllWritten(ts)
  {
    hide Expand, CopiesUnwritten;
    if AllWritten(ts) {
      forall g: Memory, h: Memory ensures Expand(g, out, ts) == Expand(h, out, ts) {
        TokensDetermine(g, h, out, ts);
      }
    } else {
      var i :| 0 <= i < |ts| && CopiesUnwritten(ts[i]);
      var g: Memory, h: Memory := _ => 0, _ => 1;
      TokensLeaveOpen(g, out, h, out, ts, i);
    }
  }

  // ---------------------------------------------------------------- whole inputs

  /** What was read of one block, and in how many bits; the bytes of a stored block are literals. */
  datatype Piece = Piece(ts: seq<Token>, bits: nat)

  function Literals(data: seq<byte>): (ts: seq<Token>)
    ensures |ts| == |data|
  {
    seq(|data|, i requires 0 <= i < |data| => Literal(data[i]))
  }

  lemma {:induction false} LiteralsNext(data: seq<byte>)
    requires data != []
    ensures Literals(data)[0] == Literal(data[0]) && Literals(data)[1..] == Literals(data[1..])
  {
  }

  lemma {:induction false} LiteralsExpand(mem: Memory, out: seq<byte>, data: seq<byte>)
    ensures AllReach(|out|, Literals(data)) && Expand(mem, out, Literals(data)) == out + data
    decreases |data|
  {
    hide Literals;
    if data == [] {
      assert Literals(data) == [] && out + data == out;
    } else {
      LiteralsNext(data);
      LiteralsExpand(mem, out + [data[0]], data[1..]);
      assert out + [data[0]] + data[1..] == out + data;
    }
  }

  /** The body of a block of the given type reads as these tokens. */
  ghost predicate BodyReads(ty: nat, x: nat, pos: nat, total: nat, b: Piece) {
    if ty == TYPE_STORED then
      var y := Shr(x, Pad(pos));
      var len := Mask(y, 16);
      && Mask(Shr(y, 16), 16) == 0xFFFF - len
      && pos + Pad(pos) + 32 + 8 * len <= total
      && b == Piece(Literals(TakeBytes(Shr(y, 32), len)), Pad(pos) + 32 + 8 * len)
    else if ty == TYPE_BAD then false
    else if ty == TYPE_FIXED then Opens(FixedCodes().ll, FixedCodes().dl, x, b.ts, b.bits)
    else
      match ReadHeader(x)
      case Bad(_) => false
      case Ok(c, n) => n <= b.bits && Opens(c.ll, c.dl, Shr(x, n), b.ts, b.bits - n)
  }

  /** The blocks from x on, up to the one marked final, read as these pieces. */
  ghost predicate InputReads(x: nat, pos: nat, total: nat, bs: seq<Piece>)
    decreases |bs|
  {
    && bs != [] && BodyReads(Mask(Shr(x, 1), 2), Shr(x, 3), pos + 3, total, bs[0])
    && (Mask(x, 1) == 1 <==> |bs| == 1)
    && (|bs| > 1 ==> InputReads(Shr(x, 3 + bs[0].bits), pos + 3 + bs[0].bits, total, bs[1..]))
  }

  function AllTokens(bs: seq<Piece>): (ts: seq<Token>) {
    if bs == [] then [] else bs[0].ts + AllTokens(bs[1..])
  }

  function AllBits(bs: seq<Piece>): (n: nat) {
    if bs == [] then 0 else 3 + bs[0].bits + AllBits(bs[1..])
  }

  lemma {:induction false} ExpandConcat(mem: Memory, out: seq<byte>, a: seq<Token>, b: seq<Token>)
    requires AllReach(|out|, a)
    ensures AllReach(|out|, a + b) <==> AllReach(|Expand(mem, out, a)|, b)
    ensures AllReach(|out|, a + b) ==> Expand(mem, out, a + b) == Expand(mem, Expand(mem, out, a), b)
    decreases |a|
  {
    hide Apply, Reaches;
    if a == [] {
      assert a + b == b;
    } else {
      assert (a + b)[0] == a[0] && (a + b)[1..] == a[1..] + b;
      ExpandConcat(mem, Apply(mem, out, a[0]), a[1..], b);
    }
  }

  lemma {:induction false} BodyDecodes(ty: nat, x: nat, pos: nat, total: nat, b: Piece, f: Filled, a: Alloc,
                                       mem: Memory)
    requires BodyReads(ty, x, pos, total, b) && AllReach(|f.out|, b.ts)
    requires |f.out| <= f.limit && f.limit > 0 && CanReserve(f.limit, |Expand(mem, f.out, b.ts)|, a)
    ensures var out := Expand(mem, f.out, b.ts);
            ReadBody(ty, x, pos, total, f, a, mem) == Ok(Filled(out, Grown(f.limit, |out|)), b.bits)
  {
    hide ReadBlock, ReadHeader, Opens, Expand, Shr, Mask, TakeBytes, FixedCodes, Grown, CanReserve, AllReach, Literals;
    if ty == TYPE_STORED {
      var y := Shr(x, Pad(pos));
      LiteralsExpand(mem, f.out, TakeBytes(Shr(y, 32), Mask(y, 16)));
    } else if ty == TYPE_FIXED {
      OpensDecodes(FixedCodes().ll, FixedCodes().dl, x, b.ts, b.bits, f, a, mem);
    } else {
      var c, n := ReadHeader(x).value, ReadHeader(x).bits;
      OpensDecodes(c.ll, c.dl, Shr(x, n), b.ts, b.bits - n, f, a, mem);
    }
  }

  lemma {:induction false} BodyRead(ty: nat, x: nat, pos: nat, total: nat, f: Filled, a: Alloc, mem: Memory)
    returns (b: Piece)
    requires |f.out| <= f.limit && f.limit > 0 && ReadBody(ty, x, pos, total, f, a, mem).Ok?
    ensures BodyReads(ty, x, pos, total, b) && AllReach(|f.out|, b.ts)
    ensures CanReserve(f.limit, |Expand(mem, f.out, b.ts)|, a)
  {
    hide ReadBlock, ReadHeader, Opens, Expand, Shr, Mask, TakeBytes, FixedCodes, Grown, CanReserve, AllReach, Literals;
    if ty == TYPE_STORED {
      var y := Shr(x, Pad(pos));
      var data := TakeBytes(Shr(y, 32), Mask(y, 16));
      LiteralsExpand(mem, f.out, data);
      b := Piece(Literals(data), Pad(pos) + 32 + 8 * Mask(y, 16));
    } else if ty == TYPE_FIXED {
      var ts := DecodesOpens(FixedCodes().ll, FixedCodes().dl, x, f, a, mem);
      b := Piece(ts, ReadBlock(FixedCodes().ll, FixedCodes().dl, x, f, a, mem).bits);
    } else {
      var c, n := ReadHeader(x).value, ReadHeader(x).bits;
      var ts := DecodesOpens(c.ll, c.dl, Shr(x, n), f, a, mem);
      b := Piece(ts, n + ReadBlock(c.ll, c.dl, Shr(x, n), f, a, mem).bits);
    }
  }

  lemma {:induction false} InputDecodes(x: nat, pos: nat, total: nat, bs: seq<Piece>, f: Filled, a: Alloc, mem: Memory)
    requires InputReads(x, pos, total, bs) && AllReach(|f.out|, AllTokens(bs))
    requires |f.out| <= f.limit && f.limit > 0 && CanReserve(f.limit, |Expand(mem, f.out, AllTokens(bs))|, a)
    ensures var out := Expand(mem, f.out, AllTokens(bs));
            ReadBlocks(x, pos, total, f, a, mem) == Ok(Filled(out, Grown(f.limit, |out|)), AllBits(bs))
    decreases |bs|
  {
    hide ReadBody, ReadBlocks, BodyReads, Expand, Shr, Mask, Grown, CanReserve, AllReach;
    var b, rest := bs[0], AllTokens(bs[1..]);
    var ty, y := Mask(Shr(x, 1), 2), Shr(x, 3);
    FrontReach(|f.out|, b.ts, rest);
    ExpandConcat(mem, f.out, b.ts, rest);
    var out := Expand(mem, f.out, b.ts);
    var whole := Expand(mem, f.out, AllTokens(bs));
    ReserveEarlier(f.limit, |out|, |whole|, a);
    BodyDecodes(ty, y, pos + 3, total, b, f, a, mem);
    BlocksRound(x, pos, total, f, a, mem);
    if |bs| > 1 {
      InputDecodes(Shr(x, 3 + b.bits), pos + 3 + b.bits, total, bs[1..], Filled(out, Grown(f.limit, |out|)), a, mem);
    } else {
      assert bs[1..] == [] && rest == [] && b.ts + rest == b.ts;
      assert AllBits(bs[1..]) == 0;
    }
  }

  lemma {:induction false} FrontReach(size: nat, a: seq<Token>, b: seq<Token>)
    requires AllReach(size, a + b)
    ensures AllReach(size, a)
    decreases |a|
  {
    if a != [] {
      assert (a + b)[0] == a[0] && (a + b)[1..] == a[1..] + b;
      FrontReach(size + TokenLength(a[0]), a[1..], b);
    }
  }

  lemma {:induction false} InputRead(x: nat, pos: nat, total: nat, f: Filled, a: Alloc, mem: Memory)
    returns (bs: seq<Piece>)
    requires |f.out| <= f.limit && f.limit > 0 && ReadBlocks(x, pos, total, f, a, mem).Ok?
    ensures InputReads(x, pos, total, bs) && AllReach(|f.out|, AllTokens(bs))
    ensures CanReserve(f.limit, |Expand(mem, f.out, AllTokens(bs))|, a)
    decreases x
  {
    hide ReadBody, ReadBlocks, BodyReads, Expand, Shr, Mask, Grown, CanReserve, AllReach;
    var ty, y := Mask(Shr(x, 1), 2), Shr(x, 3);
    BlocksRound(x, pos, total, f, a, mem);
    var b := BodyRead(ty, y, pos + 3, total, f, a, mem);
    BodyDecodes(ty, y, pos + 3, total, b, f, a, mem);
    BodyUsesBits(x, pos, total, f, a, mem);
    var out := Expand(mem, f.out, b.ts);
    if Mask(x, 1) == 1 {
      bs := [b];
      assert bs[1..] == [] && AllTokens(bs) == b.ts + [] == b.ts;
    } else {
      var g := Filled(out, Grown(f.limit, |out|));
      var rest := InputRead(Shr(x, 3 + b.bits), pos + 3 + b.bits, total, g, a, mem);
      bs := [b] + rest;
      assert bs[1..] == rest && rest != [];
      ExpandConcat(mem, f.out, b.ts, AllTokens(rest));
      ReserveLater(f.limit, |out|, |Expand(mem, out, AllTokens(rest))|, a);
    }
  }

  lemma {:induction false} OneBlock(ll: seq<nat>, dl: seq<nat>, x: nat, ts: seq<Token>, n: nat, us: seq<Token>, m: nat)
    requires Opens(ll, dl, x, ts, n) && Opens(ll, dl, x, us, m)
    ensures ts == us && n == m
    decreases |ts|
  {
    hide ReadToken;
    if ts != [] {
      var k := ReadToken(ll, dl, x).bits;
      OneBlock(ll, dl, Shr(x, k), ts[1..], n - k, us[1..], m - k);
      assert ts == [ts[0]] + ts[1..] && us == [us[0]] + us[1..];
    }
  }

  lemma {:induction false} OneBody(ty: nat, x: nat, pos: nat, total: nat, b: Piece, c: Piece)
    requires BodyReads(ty, x, pos, total, b) && BodyReads(ty, x, pos, total, c)
    ensures b == c
  {
    hide Opens, ReadHeader, Shr, Mask, TakeBytes, FixedCodes, Literals;
    if ty == TYPE_FIXED {
      OneBlock(FixedCodes().ll, FixedCodes().dl, x, b.ts, b.bits, c.ts, c.bits);
    } else if ty != TYPE_STORED {
      var codes, n := ReadHeader(x).value, ReadHeader(x).bits;
      OneBlock(codes.ll, codes.dl, Shr(x, n), b.ts, b.bits - n, c.ts, c.bits - n);
    }
  }

  /** There is one way to read an input. */
  lemma {:induction false} OneReading(x: nat, pos: nat, total: nat, bs: seq<Piece>, cs: seq<Piece>)
    requires InputReads(x, pos, total, bs) && InputReads(x, pos, total, cs)
    ensures bs == cs
    decreases |bs|
  {
    hide BodyReads, Shr, Mask;
    OneBody(Mask(Shr(x, 1), 2), Shr(x, 3), pos + 3, total, bs[0], cs[0]);
    if |bs| > 1 {
      OneReading(Shr(x, 3 + bs[0].bits), pos + 3 + bs[0].bits, total, bs[1..], cs[1..]);
      assert bs == [bs[0]] + bs[1..] && cs == [cs[0]] + cs[1..];
    } else {
      assert bs == [bs[0]] && cs == [cs[0]];
    }
  }

  // ---------------------------------------------------------------- legal tokens

  lemma {:induction false} TokenIn(ll: seq<nat>, dl: seq<nat>, ts: seq<Token>, i: nat)
    requires TokensOk(ll, dl, ts) && i < |ts|
    ensures TokenOk(ll, dl, ts[i])
  {
    hide TokenOk;
    if i > 0 {
      TokenIn(ll, dl, ts[1..], i - 1);
    }
  }

  /** In a piece that was read, only these matches copy bytes never written. */
  predicate Odd(t: Token) {
    t.Match? && t.dsym > LAST_DIST && t.lsym <= LAST_LENGTH
  }

  lemma {:induction false} PieceOdd(ty: nat, x: nat, pos: nat, total: nat, b: Piece, i: nat)
    requires BodyReads(ty, x, pos, total, b) && i < |b.ts|
    ensures CopiesUnwritten(b.ts[i]) <==> Odd(b.ts[i])
  {
    hide ReadHeader, Opens, Shr, Mask, TakeBytes, FixedCodes, CopiesUnwritten, TokensOk, KraftHolds, Lengths;
    if ty == TYPE_STORED {
      NotOdd(b.ts[i]);
    } else if ty == TYPE_FIXED {
      FixedCodesOk();
      OpenOdd(FixedCodes().ll, FixedCodes().dl, x, b.ts, b.bits, i);
    } else {
      var c, n := ReadHeader(x).value, ReadHeader(x).bits;
      OpenOdd(c.ll, c.dl, Shr(x, n), b.ts, b.bits - n, i);
    }
  }

  lemma {:induction false} NotOdd(t: Token)
    requires !t.Match?
    ensures !CopiesUnwritten(t) && !Odd(t)
  {
  }

  lemma {:induction false} OpenOdd(ll: seq<nat>, dl: seq<nat>, x: nat, ts: seq<Token>, n: nat, i: nat)
    requires Lengths(ll) && KraftHolds(ll) && Lengths(dl) && KraftHolds(dl)
    requires Opens(ll, dl, x, ts, n) && i < |ts|
    ensures CopiesUnwritten(ts[i]) <==> Odd(ts[i])
  {
    hide Opens, TokensOk, CopiesUnwritten, Lengths, KraftHolds;
    OpensWritten(ll, dl, x, ts, n);
    TokenIn(ll, dl, ts, i);
    if ts[i].Match? {
      CopiesUnwrittenIff(dl, ts[i]);
    } else {
      NotOdd(ts[i]);
    }
  }

  /** None of the pieces holds such a match. */
  predicate NoneOdd(bs: seq<Piece>) {
    forall k :: 0 <= k < |bs| ==> forall i :: 0 <= i < |bs[k].ts| ==> !Odd(bs[k].ts[i])
  }

  lemma {:induction false} NoneOddIff(x: nat, pos: nat, total: nat, bs: seq<Piece>)
    requires InputReads(x, pos, total, bs)
    ensures NoneOdd(bs) <==> AllWritten(AllTokens(bs))
    decreases |bs|
  {
    hide BodyReads, CopiesUnwritten, Odd, Shr, Mask, NoneOdd, AllWritten;
    var b, rest := bs[0], AllTokens(bs[1..]);
    PieceOddIff(Mask(Shr(x, 1), 2), Shr(x, 3), pos + 3, total, b);
    NoneOddSplit(bs);
    if |bs| > 1 {
      NoneOddIff(Shr(x, 3 + b.bits), pos + 3 + b.bits, total, bs[1..]);
    } else {
      assert bs[1..] == [] && rest == [];
      NothingOdd();
    }
    SplitTokens(b.ts, rest);
  }

  lemma {:induction false} NothingOdd()
    ensures NoneOdd([]) && AllWritten([])
  {
  }

  lemma {:induction false} PieceOddIff(ty: nat, x: nat, pos: nat, total: nat, b: Piece)
    requires BodyReads(ty, x, pos, total, b)
    ensures AllWritten(b.ts) <==> forall i :: 0 <= i < |b.ts| ==> !Odd(b.ts[i])
  {
    hide BodyReads, CopiesUnwritten, Odd;
    forall i | 0 <= i < |b.ts| ensures CopiesUnwritten(b.ts[i]) <==> Odd(b.ts[i]) {
      PieceOdd(ty, x, pos, total, b, i);
    }
  }

  lemma {:induction false} NoneOddSplit(bs: seq<Piece>)
    requires bs != []
    ensures NoneOdd(bs) <==> (forall i :: 0 <= i < |bs[0].ts| ==> !Odd(bs[0].ts[i])) && NoneOdd(bs[1..])
  {
    hide Odd;
    assert forall k :: 1 <= k < |bs| ==> bs[k] == bs[1..][k - 1];
    if (forall i :: 0 <= i < |bs[0].ts| ==> !Odd(bs[0].ts[i])) && NoneOdd(bs[1..]) {
      forall k | 0 <= k < |bs| ensures forall i :: 0 <= i < |bs[k].ts| ==> !Odd(bs[k].ts[i]) {
        assert k > 0 ==> bs[k] == bs[1..][k - 1];
      }
    }
  }

  lemma {:induction false} SplitTokens(a: seq<Token>, b: seq<Token>)
    ensures AllWritten(a + b) <==> AllWritten(a) && AllWritten(b)
  {
    hide CopiesUnwritten;
    assert forall i :: 0 <= i < |a| ==> (a + b)[i] == a[i];
    assert forall i :: 0 <= i < |b| ==> (a + b)[|a| + i] == b[i];
  }

  // ---------------------------------------------------------------- main result

  /** Where the blocks of an input begin. */
  function Start(withHeader: bool): (pos: nat) {
    if withHeader then 16 else 0
  }

  /**
   An input that the decoder accepts is accepted whatever the buffer held, and read as the same blocks; its output is
   the same whatever the buffer held if and only if none of them holds a match by distance symbol 30 or 31 and a length
   symbol of the standard.
   */
  lemma {:induction false} InputDeterminedIff(input: seq<byte>, withHeader: bool, f: Filled, a: Alloc, mem: Memory)
    returns (bs: seq<Piece>)
    requires |f.out| <= f.limit && f.limit > 0 && Inflate(input, withHeader, f, a, mem).Ok?
    ensures InputReads(Shr(LE(input), Start(withHeader)), Start(withHeader), 8 * |input|, bs)
    ensures AllReach(|f.out|, AllTokens(bs))
    ensures forall g: Memory :: Inflate(input, withHeader, f, a, g).Ok?
                                && Inflate(input, withHeader, f, a, g).value.out == Expand(g, f.out, AllTokens(bs))
    ensures (forall g: Memory, h: Memory :: Inflate(input, withHeader, f, a, g) == Inflate(input, withHeader, f, a, h))
            <==> NoneOdd(bs)
  {
    hide ReadBlocks, InputReads, Expand, AllReach, Shr, LE, CanReserve, Grown, AllTokens, NoneOdd, AllBits;
    hide ZlibHeaderOk, AllWritten;
    var pos := Start(withHeader);
    var x := Shr(LE(input), pos);
    ShrNone(LE(input));
    bs := InputRead(x, pos, 8 * |input|, f, a, mem);
    var ts := AllTokens(bs);
    forall g: Memory
      ensures Inflate(input, withHeader, f, a, g) ==
              Ok(Filled(Expand(g, f.out, ts), Grown(f.limit, |Expand(mem, f.out, ts)|)), AllBits(bs))
    {
      InputDecodes(x, pos, 8 * |input|, bs, f, a, g);
    }
    DeterminedIff(f.out, ts);
    NoneOddIff(x, pos, 8 * |input|, bs);
    if forall g: Memory, h: Memory :: Inflate(input, withHeader, f, a, g) == Inflate(input, withHeader, f, a, h) {
      forall g: Memory, h: Memory ensures Expand(g, f.out, ts) == Expand(h, f.out, ts) {
        assert Inflate(input, withHeader, f, a, g) == Inflate(input, withHeader, f, a, h);
      }
    }
    if forall g: Memory, h: Memory :: Expand(g, f.out, ts) == Expand(h, f.out, ts) {
      forall g: Memory, h: Memory
        ensures Inflate(input, withHeader, f, a, g) == Inflate(input, withHeader, f, a, h)
      {
        assert Expand(g, f.out, ts) == Expand(h, f.out, ts);
      }
    }
  }
}
