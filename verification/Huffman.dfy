/**
 The canonical Huffman code of section 3.2.2 of RFC 1951, and the decoding tables that
 `stbi__zbuild_huffman` derives from a list of code lengths.

 A code of s bits is drawn left-aligned in 16 bits: it owns the numbers whose top s bits are
 the code. The codes of all symbols, shortest first and in symbol order within a length,
 tile an interval that starts at 0; every property of the tables follows from that picture.
 */
module Huffman {
  import opened Bits

  const MAX_BITS: nat := 15
  const FAST_BITS: nat := 9
  const FAST_SIZE: nat := 512
  const MAX_SYMBOLS: nat := 288
  const SENTINEL: nat := 0x10000

  /** The code-length lists that reach the builder. */
  predicate Lengths(lens: seq<nat>) {
    |lens| <= MAX_SYMBOLS && forall i :: 0 <= i < |lens| ==> lens[i] <= MAX_BITS
  }

  // ---------------------------------------------------------------- the canonical code

  /** Number of symbols below n whose code has s bits. */
  function CountIn(lens: seq<nat>, s: nat, n: nat): (r: nat)
    requires n <= |lens|
    ensures r <= n
  {
    if n == 0 then 0 else CountIn(lens, s, n - 1) + if lens[n - 1] == s then 1 else 0
  }

  function Count(lens: seq<nat>, s: nat): (r: nat)
    ensures r <= |lens|
  {
    CountIn(lens, s, |lens|)
  }

  /** Smallest code of s bits: step 2 of section 3.2.2 of RFC 1951. */
  function FirstCode(lens: seq<nat>, s: nat): (r: nat)
    requires s >= 1
  {
    if s == 1 then 0 else 2 * (FirstCode(lens, s - 1) + Count(lens, s - 1))
  }

  /** The code of symbol i: step 3 of section 3.2.2 of RFC 1951. */
  function Code(lens: seq<nat>, i: nat): (r: nat)
    requires i < |lens| && lens[i] > 0
  {
    FirstCode(lens, lens[i]) + CountIn(lens, lens[i], i)
  }

  /** The code of symbol i is the next thing in the bit stream x, most significant bit first. */
  predicate Prefixes(lens: seq<nat>, i: nat, x: nat) {
    i < |lens| && lens[i] > 0 && Rev(x, lens[i]) == Code(lens, i)
  }

  /** Symbol i owns the left-aligned 16-bit number k. */
  predicate Covers(lens: seq<nat>, i: nat, k: nat) {
    i < |lens| && 0 < lens[i] <= MAX_BITS && Shr(k, 16 - lens[i]) == Code(lens, i)
  }

  /** End of the left-aligned interval that the codes of at most s bits occupy. */
  function Limit(lens: seq<nat>, s: nat): (r: nat)
    requires s <= MAX_BITS
  {
    if s == 0 then 0 else Shl(FirstCode(lens, s) + Count(lens, s), 16 - s)
  }

  /** The Kraft sum over the first n symbols, in units of 2^-15. */
  function KraftIn(lens: seq<nat>, n: nat): (r: nat)
    requires Lengths(lens) && n <= |lens|
  {
    if n == 0 then 0
    else KraftIn(lens, n - 1) + if lens[n - 1] == 0 then 0 else Pow2(MAX_BITS - lens[n - 1])
  }

  /** The Kraft sum is at most 1. */
  predicate KraftHolds(lens: seq<nat>)
    requires Lengths(lens)
  {
    KraftIn(lens, |lens|) <= Pow2(MAX_BITS)
  }

  lemma {:induction false} CountMono(lens: seq<nat>, s: nat, m: nat, n: nat)
    requires m <= n <= |lens|
    ensures CountIn(lens, s, m) <= CountIn(lens, s, n)
    ensures m < n && lens[m] == s ==> CountIn(lens, s, m) < CountIn(lens, s, n)
  {
    if m < n {
      CountMono(lens, s, m, n - 1);
    }
  }

  /** Codes of s bits begin where the shorter ones end. */
  lemma {:induction false} LimitStep(lens: seq<nat>, s: nat)
    requires 1 <= s <= MAX_BITS
    ensures Shl(FirstCode(lens, s), 16 - s) == Limit(lens, s - 1)
    ensures Limit(lens, s) == Limit(lens, s - 1) + Shl(Count(lens, s), 16 - s)
  {
    ShlAdd(FirstCode(lens, s), Count(lens, s), 16 - s);
    if s > 1 {
      var x := FirstCode(lens, s - 1) + Count(lens, s - 1);
      ShlAdd(x, x, 16 - s);
      assert Shl(x, 17 - s) == 2 * Shl(x, 16 - s);
    }
  }

  lemma {:induction false} LimitMono(lens: seq<nat>, s: nat, t: nat)
    requires s <= t <= MAX_BITS
    ensures Limit(lens, s) <= Limit(lens, t)
  {
    if s < t {
      LimitMono(lens, s, t - 1);
      LimitStep(lens, t);
    }
  }

  /** The limit counted length by length, over the first n symbols only. */
  function LimitIn(lens: seq<nat>, s: nat, n: nat): (r: nat)
    requires s <= MAX_BITS && n <= |lens|
  {
    if s == 0 then 0 else LimitIn(lens, s - 1, n) + Shl(CountIn(lens, s, n), 16 - s)
  }

  lemma {:induction false} LimitInAll(lens: seq<nat>, s: nat)
    requires s <= MAX_BITS
    ensures LimitIn(lens, s, |lens|) == Limit(lens, s)
  {
    if s > 0 {
      LimitInAll(lens, s - 1);
      LimitStep(lens, s);
    }
  }

  lemma {:induction false} LimitInStep(lens: seq<nat>, s: nat, n: nat)
    requires s <= MAX_BITS && n < |lens|
    ensures LimitIn(lens, s, n + 1) ==
            LimitIn(lens, s, n) + if 1 <= lens[n] <= s then Pow2(16 - lens[n]) else 0
  {
    if s > 0 {
      LimitInStep(lens, s - 1, n);
      ShlAdd(CountIn(lens, s, n), 1, 16 - s);
    }
  }

  /** Summing by symbol and by length agree: the codes end at twice the Kraft sum. */
  lemma {:induction false} KraftIsLimit(lens: seq<nat>, n: nat)
    requires Lengths(lens) && n <= |lens|
    ensures LimitIn(lens, MAX_BITS, n) == 2 * KraftIn(lens, n)
  {
    if n == 0 {
      LimitInZero(lens, MAX_BITS);
    } else {
      KraftIsLimit(lens, n - 1);
      LimitInStep(lens, MAX_BITS, n - 1);
      if lens[n - 1] > 0 {
        assert Pow2(16 - lens[n - 1]) == 2 * Pow2(MAX_BITS - lens[n - 1]);
      }
    }
  }

  lemma {:induction false} LimitInZero(lens: seq<nat>, s: nat)
    requires s <= MAX_BITS
    ensures LimitIn(lens, s, 0) == 0
  {
    if s > 0 {
      LimitInZero(lens, s - 1);
    }
  }

  lemma {:induction false} KraftIffLimit(lens: seq<nat>)
    requires Lengths(lens)
    ensures Limit(lens, MAX_BITS) == 2 * KraftIn(lens, |lens|)
    ensures KraftHolds(lens) <==> Limit(lens, MAX_BITS) <= Pow2(16)
  {
    LimitInAll(lens, MAX_BITS);
    KraftIsLimit(lens, |lens|);
    assert Pow2(16) == 2 * Pow2(15);
  }

  lemma {:induction false} Pow2Left(s: nat)
    requires s <= 16
    ensures Shl(Pow2(s), 16 - s) == Pow2(16)
  {
    ShlShl(1, s, 16 - s);
  }

  /** The builder's per-length test: codes of s bits fit in s bits. */
  lemma {:induction false} LengthFits(lens: seq<nat>, s: nat)
    requires 1 <= s <= MAX_BITS
    ensures FirstCode(lens, s) + Count(lens, s) <= Pow2(s) <==> Limit(lens, s) <= Pow2(16)
  {
    Pow2Left(s);
    ShlStrict(Pow2(s), FirstCode(lens, s) + Count(lens, s), 16 - s);
  }

  lemma {:induction false} CodeBound(lens: seq<nat>, i: nat)
    requires Lengths(lens) && KraftHolds(lens)
    requires i < |lens| && lens[i] > 0
    ensures Code(lens, i) < FirstCode(lens, lens[i]) + Count(lens, lens[i]) <= Pow2(lens[i])
  {
    KraftIffLimit(lens);
    LimitMono(lens, lens[i], MAX_BITS);
    LengthFits(lens, lens[i]);
    CountMono(lens, lens[i], i, |lens|);
  }

  // ---------------------------------------------------------------- tiling

  lemma {:induction false} PrefixesIsCovers(lens: seq<nat>, i: nat, x: nat)
    requires Lengths(lens)
    ensures Prefixes(lens, i, x) <==> Covers(lens, i, Rev(x, 16))
  {
    if i < |lens| && lens[i] > 0 {
      RevShr(x, 16, lens[i]);
    }
  }

  /** A number owned by an s-bit code lies between the limits for s - 1 and s. */
  lemma {:induction false} CoverRange(lens: seq<nat>, i: nat, k: nat)
    requires Lengths(lens) && Covers(lens, i, k)
    ensures Limit(lens, lens[i] - 1) <= k < Limit(lens, lens[i])
  {
    var s := lens[i];
    CountMono(lens, s, i, |lens|);
    LimitStep(lens, s);
    ShrOrder(k, FirstCode(lens, s), 16 - s);
    ShrOrder(k, FirstCode(lens, s) + Count(lens, s), 16 - s);
  }

  /** No number has two owners: the code is prefix-free. */
  lemma {:induction false} CoverUnique(lens: seq<nat>, i: nat, j: nat, k: nat)
    requires Lengths(lens) && Covers(lens, i, k) && Covers(lens, j, k)
    ensures i == j
  {
    CoverRange(lens, i, k);
    CoverRange(lens, j, k);
    if lens[i] < lens[j] {
      LimitMono(lens, lens[i], lens[j] - 1);
    } else if lens[j] < lens[i] {
      LimitMono(lens, lens[j], lens[i] - 1);
    } else if i < j {
      CountMono(lens, lens[i], i, j);
    } else if j < i {
      CountMono(lens, lens[i], j, i);
    }
  }

  /** The symbol with rank r among those of s bits. */
  lemma {:induction false} NthOfLength(lens: seq<nat>, s: nat, n: nat, r: nat) returns (i: nat)
    requires n <= |lens| && r < CountIn(lens, s, n)
    ensures i < n && lens[i] == s && CountIn(lens, s, i) == r
  {
    if lens[n - 1] == s && CountIn(lens, s, n - 1) == r {
      i := n - 1;
    } else {
      i := NthOfLength(lens, s, n - 1, r);
    }
  }

  /** A number between the limits for s - 1 and s is owned by an s-bit code. */
  lemma {:induction false} CoverAt(lens: seq<nat>, s: nat, k: nat) returns (i: nat)
    requires 1 <= s <= MAX_BITS
    requires Limit(lens, s - 1) <= k < Limit(lens, s)
    ensures Covers(lens, i, k) && lens[i] == s
    ensures Code(lens, i) - FirstCode(lens, s) < Count(lens, s)
  {
    LimitStep(lens, s);
    var c := Shr(k, 16 - s);
    ShrOrder(k, FirstCode(lens, s), 16 - s);
    ShrOrder(k, FirstCode(lens, s) + Count(lens, s), 16 - s);
    i := NthOfLength(lens, s, |lens|, c - FirstCode(lens, s));
  }

  lemma {:induction false} CoverBelow(lens: seq<nat>, s: nat, k: nat) returns (i: nat)
    requires s <= MAX_BITS && k < Limit(lens, s)
    ensures Covers(lens, i, k) && lens[i] <= s
  {
    if s > 1 && k < Limit(lens, s - 1) {
      i := CoverBelow(lens, s - 1, k);
    } else {
      i := CoverAt(lens, s, k);
    }
  }

  /** The codes tile exactly the numbers below twice the Kraft sum, each owned once. */
  lemma {:induction false} CodesTile(lens: seq<nat>, k: nat)
    requires Lengths(lens)
    ensures k < 2 * KraftIn(lens, |lens|) <==> exists i: nat :: Covers(lens, i, k)
    ensures forall i: nat, j: nat :: Covers(lens, i, k) && Covers(lens, j, k) ==> i == j
  {
    KraftIffLimit(lens);
    if k < Limit(lens, MAX_BITS) {
      var i := CoverBelow(lens, MAX_BITS, k);
    }
    forall i: nat | Covers(lens, i, k) ensures k < Limit(lens, MAX_BITS) {
      CoverRange(lens, i, k);
      LimitMono(lens, lens[i], MAX_BITS);
    }
    forall i: nat, j: nat | Covers(lens, i, k) && Covers(lens, j, k) ensures i == j {
      CoverUnique(lens, i, j, k);
    }
  }

  /** Two codes that both open the same bit stream are the same code. */
  lemma {:induction false} PrefixFree(lens: seq<nat>, i: nat, j: nat, x: nat)
    requires Lengths(lens) && Prefixes(lens, i, x) && Prefixes(lens, j, x)
    ensures i == j
  {
    PrefixesIsCovers(lens, i, x);
    PrefixesIsCovers(lens, j, x);
    CoverUnique(lens, i, j, Rev(x, 16));
  }

  // ---------------------------------------------------------------- the tables

  /** `stbi__zhuffman` */
  datatype Table = Table(fast: seq<nat>, firstcode: seq<nat>, maxcode: seq<nat>,
                         firstsymbol: seq<nat>, size: seq<nat>, value: seq<nat>)

  /** Number of symbols with fewer than s bits, over the first n symbols. */
  function BaseIn(lens: seq<nat>, s: nat, n: nat): (r: nat)
    requires n <= |lens|
  {
    if s <= 1 then 0 else BaseIn(lens, s - 1, n) + CountIn(lens, s - 1, n)
  }

  /** Position of symbol i in `size` and `value`, which are sorted by code. */
  function Slot(lens: seq<nat>, i: nat): (r: nat)
    requires i < |lens|
  {
    BaseIn(lens, lens[i], |lens|) + CountIn(lens, lens[i], i)
  }

  lemma {:induction false} BaseInStep(lens: seq<nat>, s: nat, n: nat)
    requires n < |lens|
    ensures BaseIn(lens, s, n + 1) == BaseIn(lens, s, n) + if 1 <= lens[n] < s then 1 else 0
  {
    if s > 1 {
      BaseInStep(lens, s - 1, n);
    }
  }

  lemma {:induction false} BaseInBound(lens: seq<nat>, s: nat, n: nat)
    requires n <= |lens|
    ensures BaseIn(lens, s, n) <= n
  {
    if n > 0 {
      BaseInBound(lens, s, n - 1);
      BaseInStep(lens, s, n - 1);
    } else {
      BaseInNone(lens, s);
    }
  }

  lemma {:induction false} BaseInNone(lens: seq<nat>, s: nat)
    ensures BaseIn(lens, s, 0) == 0
  {
    if s > 1 {
      BaseInNone(lens, s - 1);
    }
  }

  lemma {:induction false} BaseMono(lens: seq<nat>, s: nat, t: nat)
    requires s <= t
    ensures BaseIn(lens, s, |lens|) <= BaseIn(lens, t, |lens|)
  {
    if s < t {
      BaseMono(lens, s, t - 1);
    }
  }

  lemma {:induction false} SlotBound(lens: seq<nat>, i: nat)
    requires Lengths(lens) && i < |lens| && lens[i] > 0
    ensures Slot(lens, i) < BaseIn(lens, lens[i] + 1, |lens|) <= |lens|
  {
    CountMono(lens, lens[i], i, |lens|);
    BaseInBound(lens, lens[i] + 1, |lens|);
  }

  lemma {:induction false} SlotUnique(lens: seq<nat>, i: nat, j: nat)
    requires Lengths(lens)
    requires i < |lens| && j < |lens| && lens[i] > 0 && lens[j] > 0 && i != j
    ensures Slot(lens, i) != Slot(lens, j)
  {
    SlotBound(lens, i);
    SlotBound(lens, j);
    if lens[i] < lens[j] {
      BaseMono(lens, lens[i] + 1, lens[j]);
    } else if lens[j] < lens[i] {
      BaseMono(lens, lens[j] + 1, lens[i]);
    } else if i < j {
      CountMono(lens, lens[i], i, j);
    } else {
      CountMono(lens, lens[i], j, i);
    }
  }

  /** Entry b of the fast table for the 9 stream bits j, once symbols below n are entered. */
  ghost predicate FastEntry(lens: seq<nat>, n: nat, j: nat, b: nat)
    requires n <= |lens|
  {
    if b == 0 then
      forall i :: 0 <= i < n && lens[i] <= FAST_BITS ==> !Prefixes(lens, i, j)
    else
      var i := b % FAST_SIZE;
      i < n && Prefixes(lens, i, j) && lens[i] == b / FAST_SIZE <= FAST_BITS
  }

  ghost predicate FastTable(lens: seq<nat>, n: nat, fast: seq<nat>)
    requires n <= |lens|
  {
    |fast| == FAST_SIZE && forall j :: 0 <= j < FAST_SIZE ==> FastEntry(lens, n, j, fast[j])
  }

  ghost predicate SlotTable(lens: seq<nat>, n: nat, size: seq<nat>, value: seq<nat>)
    requires Lengths(lens) && n <= |lens|
  {
    |size| == MAX_SYMBOLS && |value| == MAX_SYMBOLS &&
    forall i :: 0 <= i < n && lens[i] > 0 ==>
      Slot(lens, i) < MAX_SYMBOLS && size[Slot(lens, i)] == lens[i] && value[Slot(lens, i)] == i
  }

  ghost predicate CodeRanges(lens: seq<nat>, firstcode: seq<nat>, maxcode: seq<nat>, firstsymbol: seq<nat>)
  {
    && |firstcode| == 16 && |maxcode| == 17 && |firstsymbol| == 16
    && maxcode[16] == SENTINEL
    && forall s :: 1 <= s <= MAX_BITS ==>
      && firstcode[s] == FirstCode(lens, s)
      && maxcode[s] == Limit(lens, s)
      && firstsymbol[s] == BaseIn(lens, s, |lens|)
  }

  /** The table decodes the canonical code of lens. */
  ghost predicate Represents(t: Table, lens: seq<nat>) {
    && Lengths(lens) && KraftHolds(lens)
    && CodeRanges(lens, t.firstcode, t.maxcode, t.firstsymbol)
    && SlotTable(lens, |lens|, t.size, t.value)
    && FastTable(lens, |lens|, t.fast)
  }

  // ---------------------------------------------------------------- the builder

  datatype BuildResult = Built(table: Table) | BadLengths

  method CountSizes(sizelist: seq<nat>) returns (sizes: seq<nat>)
    requires Lengths(sizelist)
    ensures |sizes| == 17 && sizes[0] == 0
    ensures forall s :: 1 <= s <= MAX_BITS ==> sizes[s] == Count(sizelist, s)
  {
    var a := new nat[17](_ => 0);
    for i := 0 to |sizelist|
      invariant forall s :: 0 <= s <= MAX_BITS ==> a[s] == CountIn(sizelist, s, i)
    {
      a[sizelist[i]] := a[sizelist[i]] + 1;
    }
    a[0] := 0;
    sizes := a[..];
  }

  /** The assignments made for lengths below n. */
  ghost predicate RangesBelow(lens: seq<nat>, n: nat, firstcode: seq<nat>, maxcode: seq<nat>, firstsymbol: seq<nat>)
    requires n <= 16
  {
    && |firstcode| == 16 && |maxcode| == 17 && |firstsymbol| == 16
    && forall s :: 1 <= s < n ==>
      && firstcode[s] == FirstCode(lens, s)
      && maxcode[s] == Limit(lens, s)
      && firstsymbol[s] == BaseIn(lens, s, |lens|)
  }

  /** The builder's two tests on one length, and what passing or failing them says of the Kraft sum. */
  lemma {:induction false} LengthTests(lens: seq<nat>, s: nat)
    requires Lengths(lens) && 1 <= s <= MAX_BITS
    ensures Count(lens, s) > Pow2(s) ==> !KraftHolds(lens)
    ensures Count(lens, s) != 0 && FirstCode(lens, s) + Count(lens, s) > Pow2(s) ==> !KraftHolds(lens)
    ensures Limit(lens, s - 1) <= Pow2(16)
            && (Count(lens, s) == 0 || FirstCode(lens, s) + Count(lens, s) <= Pow2(s)) ==>
              Limit(lens, s) <= Pow2(16)
  {
    KraftIffLimit(lens);
    LengthFits(lens, s);
    LimitStep(lens, s);
    LimitMono(lens, s, MAX_BITS);
  }

  lemma {:induction false} RangesStep(lens: seq<nat>, n: nat, fc: seq<nat>, mc: seq<nat>, fs: seq<nat>)
    requires 1 <= n < 16 && RangesBelow(lens, n, fc, mc, fs)
    ensures RangesBelow(lens, n + 1, fc[n := FirstCode(lens, n)], mc[n := Limit(lens, n)],
                        fs[n := BaseIn(lens, n, |lens|)])
  {
  }

  method CheckSizes(ghost lens: seq<nat>, sizes: seq<nat>) returns (ok: bool)
    requires Lengths(lens) && |sizes| == 17
    requires forall s :: 1 <= s <= MAX_BITS ==> sizes[s] == Count(lens, s)
    ensures !ok ==> !KraftHolds(lens)
  {
    for i := 1 to 16 {
      if sizes[i] > Pow2(i) {
        LengthTests(lens, i);
        return false;
      }
    }
    ok := true;
  }

  method AssignCodes(ghost lens: seq<nat>, sizes: seq<nat>)
    returns (ok: bool, firstcode: seq<nat>, maxcode: seq<nat>, firstsymbol: seq<nat>)
    requires Lengths(lens) && |sizes| == 17
    requires forall s :: 1 <= s <= MAX_BITS ==> sizes[s] == Count(lens, s)
    ensures ok <==> KraftHolds(lens)
    ensures ok ==> CodeRanges(lens, firstcode, maxcode, firstsymbol)
  {
    hide KraftHolds, CountIn, Shl;
    var fc := new nat[16](_ => 0);
    var mc := new nat[17](_ => 0);
    var fs := new nat[16](_ => 0);
    firstcode, maxcode, firstsymbol := [], [], [];
    var code, k := 0, 0;
    for i := 1 to 16
      invariant code == FirstCode(lens, i) && k == BaseIn(lens, i, |lens|)
      invariant Limit(lens, i - 1) <= Pow2(16)
      invariant RangesBelow(lens, i, fc[..], mc[..], fs[..])
    {
      ghost var f0, m0, s0 := fc[..], mc[..], fs[..];
      LengthTests(lens, i);
      fc[i] := code;
      fs[i] := k;
      code := code + sizes[i];
      if sizes[i] != 0 && code - 1 >= Pow2(i) {
        return false, firstcode, maxcode, firstsymbol;
      }
      mc[i] := Shl(code, 16 - i);
      RangesStep(lens, i, f0, m0, s0);
      assert fc[..] == f0[i := FirstCode(lens, i)] && mc[..] == m0[i := Limit(lens, i)] && fs[..] == s0[i := k];
      code := 2 * code;
      k := k + sizes[i];
    }
    KraftIffLimit(lens);
    mc[16] := SENTINEL;
    ok, firstcode, maxcode, firstsymbol := true, fc[..], mc[..], fs[..];
  }

  /** Enters one short code at every index whose low s bits are the reversed code. */
  method FillFast(fast: array<nat>, s: nat, r: nat, fastv: nat)
    requires fast.Length == FAST_SIZE && s <= FAST_BITS && r < Pow2(s)
    requires forall j :: 0 <= j < FAST_SIZE && Mask(j, s) == r ==> fast[j] == 0
    modifies fast
    ensures forall j :: 0 <= j < FAST_SIZE ==> fast[j] == if Mask(j, s) == r then fastv else old(fast[j])
  {
    var j := r;
    MaskSmall(r, s);
    forall j' | 0 <= j' < r ensures Mask(j', s) != r {
      if Mask(j', s) == r {
        MaskEqualGap(j', r, s);
      }
    }
    while j < FAST_SIZE
      invariant Mask(j, s) == r
      invariant forall j' :: 0 <= j' < FAST_SIZE ==>
        fast[j'] == if Mask(j', s) == r && j' < j then fastv else old(fast[j'])
      invariant forall j' :: j' >= j && j' < FAST_SIZE ==> fast[j'] == old(fast[j'])
      decreases FAST_SIZE - j
    {
      fast[j] := fastv;
      forall j' | j < j' < j + Pow2(s) ensures Mask(j', s) != r {
        if Mask(j', s) == r {
          MaskEqualGap(j, j', s);
        }
      }
      MaskAddPow(j, s);
      j := j + Pow2(s);
    }
  }

  /** What entering symbol n does to one fast-table entry; an entry is never entered twice. */
  lemma {:induction false} FastStep(lens: seq<nat>, n: nat, j: nat, b: nat)
    requires Lengths(lens) && KraftHolds(lens) && n < |lens| && FastEntry(lens, n, j, b)
    ensures !(0 < lens[n] <= FAST_BITS) ==> FastEntry(lens, n + 1, j, b)
    ensures 0 < lens[n] <= FAST_BITS ==>
            if Mask(j, lens[n]) == Rev(Code(lens, n), lens[n])
            then b == 0 && FastEntry(lens, n + 1, j, FAST_SIZE * lens[n] + n)
            else FastEntry(lens, n + 1, j, b)
  {
    hide Mask, Rev, Code, KraftHolds;
    if 0 < lens[n] <= FAST_BITS {
      CodeBound(lens, n);
      RevIff(j, Code(lens, n), lens[n]);
      assert Prefixes(lens, n, j) <==> Mask(j, lens[n]) == Rev(Code(lens, n), lens[n]);
      if Prefixes(lens, n, j) && b != 0 {
        PrefixFree(lens, n, b % FAST_SIZE, j);
      }
    }
  }

  /** Codes to hand out next, once symbols below n have theirs. */
  ghost predicate NextCodes(lens: seq<nat>, n: nat, next: seq<nat>)
    requires n <= |lens|
  {
    |next| == 16 && forall s :: 1 <= s <= MAX_BITS ==> next[s] == FirstCode(lens, s) + CountIn(lens, s, n)
  }

  lemma {:induction false} NextStep(lens: seq<nat>, n: nat, next: seq<nat>)
    requires Lengths(lens) && n < |lens| && NextCodes(lens, n, next)
    ensures lens[n] == 0 ==> NextCodes(lens, n + 1, next)
    ensures lens[n] > 0 ==> next[lens[n]] == Code(lens, n)
    ensures lens[n] > 0 ==> NextCodes(lens, n + 1, next[lens[n] := next[lens[n]] + 1])
  {
  }

  method FillTables(sizelist: seq<nat>, firstcode: seq<nat>, ghost maxcode: seq<nat>, firstsymbol: seq<nat>)
    returns (fast: seq<nat>, size: seq<nat>, value: seq<nat>)
    requires Lengths(sizelist) && KraftHolds(sizelist)
    requires CodeRanges(sizelist, firstcode, maxcode, firstsymbol)
    ensures FastTable(sizelist, |sizelist|, fast)
    ensures SlotTable(sizelist, |sizelist|, size, value)
  {
    hide KraftHolds, BaseIn, Limit, Prefixes, FirstCode;
    var f := new nat[FAST_SIZE](_ => 0);
    var sz, vl := new nat[MAX_SYMBOLS], new nat[MAX_SYMBOLS];
    var next := new nat[16](s requires 0 <= s < 16 => firstcode[s]);
    for i := 0 to |sizelist|
      invariant NextCodes(sizelist, i, next[..])
      invariant FastTable(sizelist, i, f[..])
      invariant SlotTable(sizelist, i, sz[..], vl[..])
    {
      var s := sizelist[i];
      ghost var next0 := next[..];
      NextStep(sizelist, i, next0);
      EnterShort(sizelist, i, f, next[s]);
      assert next[..] == next0;
      if s != 0 {
        EnterSlot(sizelist, i, sz, vl, next[s] - firstcode[s] + firstsymbol[s]);
        next[s] := next[s] + 1;
        assert next[..] == next0[s := next0[s] + 1];
      }
    }
    fast, size, value := f[..], sz[..], vl[..];
  }

  /** Enters symbol i at position c of the tables sorted by code. */
  method EnterSlot(lens: seq<nat>, i: nat, size: array<nat>, value: array<nat>, c: nat)
    requires Lengths(lens) && i < |lens| && lens[i] > 0 && c == Slot(lens, i)
    requires size != value && SlotTable(lens, i, size[..], value[..])
    modifies size, value
    ensures SlotTable(lens, i + 1, size[..], value[..])
  {
    hide Slot;
    SlotBound(lens, i);
    forall i' | 0 <= i' < i && lens[i'] > 0 ensures Slot(lens, i') != c {
      SlotUnique(lens, i', i);
    }
    size[c] := lens[i];
    value[c] := i;
  }

  /** Enters symbol i, whose code is given, into the fast table if the code is short. */
  method EnterShort(lens: seq<nat>, i: nat, fast: array<nat>, code: nat)
    requires Lengths(lens) && KraftHolds(lens) && i < |lens|
    requires lens[i] > 0 ==> code == Code(lens, i)
    requires fast.Length == FAST_SIZE
    requires FastTable(lens, i, fast[..])
    modifies fast
    ensures FastTable(lens, i + 1, fast[..])
  {
    var s := lens[i];
    ghost var was := fast[..];
    forall j | 0 <= j < FAST_SIZE
      ensures !(0 < s <= FAST_BITS) ==> FastEntry(lens, i + 1, j, was[j])
      ensures 0 < s <= FAST_BITS ==>
              if Mask(j, s) == Rev(code, s) then was[j] == 0 && FastEntry(lens, i + 1, j, FAST_SIZE * s + i)
              else FastEntry(lens, i + 1, j, was[j])
    {
      FastStep(lens, i, j, was[j]);
    }
    if s != 0 && s <= FAST_BITS {
      BitReverseIsRev(code, s);
      RevBound(code, s);
      FillFast(fast, s, BitReverse(code, s), FAST_SIZE * s + i);
    }
  }

  /** `stbi__zbuild_huffman`: succeeds exactly on the Kraft inequality. */
  method Build(sizelist: seq<nat>) returns (r: BuildResult)
    requires Lengths(sizelist)
    ensures r.Built? <==> KraftHolds(sizelist)
    ensures r.Built? ==> Represents(r.table, sizelist)
  {
    var sizes := CountSizes(sizelist);
    var ok := CheckSizes(sizelist, sizes);
    if !ok {
      return BadLengths;
    }
    var firstcode, maxcode, firstsymbol;
    ok, firstcode, maxcode, firstsymbol := AssignCodes(sizelist, sizes);
    if !ok {
      return BadLengths;
    }
    var fast, size, value := FillTables(sizelist, firstcode, maxcode, firstsymbol);
    r := Built(Table(fast, firstcode, maxcode, firstsymbol, size, value));
  }

  // ---------------------------------------------------------------- decoding

  datatype Decoded = Symbol(value: nat, bits: nat) | BadCode

  /** The outcome the code prescribes for the bit stream x. */
  ghost predicate DecodesTo(lens: seq<nat>, x: nat, d: Decoded) {
    match d
    case Symbol(i, s) => Prefixes(lens, i, x) && s == lens[i]
    case BadCode => forall i: nat :: !Prefixes(lens, i, x)
  }

  lemma {:induction false} DecodesUnique(lens: seq<nat>, x: nat, d: Decoded, e: Decoded)
    requires Lengths(lens) && DecodesTo(lens, x, d) && DecodesTo(lens, x, e)
    ensures d == e
  {
    if d.Symbol? && e.Symbol? {
      PrefixFree(lens, d.value, e.value, x);
    }
  }

  /** Only the next 16 bits matter. */
  lemma {:induction false} DecodesMask(lens: seq<nat>, x: nat, m: nat, d: Decoded)
    requires Lengths(lens) && m >= 16
    ensures DecodesTo(lens, x, d) <==> DecodesTo(lens, Mask(x, m), d)
  {
    forall i | 0 <= i < |lens| ensures Prefixes(lens, i, x) <==> Prefixes(lens, i, Mask(x, m)) {
      RevOfMask(x, lens[i], m);
    }
  }

  /** With no entry in the fast table, no short code opens the stream. */
  lemma {:induction false} NoShortCode(t: Table, lens: seq<nat>, x: nat)
    requires Represents(t, lens) && Mask(x, FAST_BITS) < FAST_SIZE
    requires t.fast[Mask(x, FAST_BITS)] == 0
    ensures Rev(x, 16) >= Limit(lens, FAST_BITS)
  {
    var k := Rev(x, 16);
    if k < Limit(lens, FAST_BITS) {
      var i := CoverBelow(lens, FAST_BITS, k);
      PrefixesIsCovers(lens, i, x);
      RevOfMask(x, lens[i], FAST_BITS);
      assert FastEntry(lens, |lens|, Mask(x, FAST_BITS), 0);
      assert Prefixes(lens, i, Mask(x, FAST_BITS));
    }
  }

  /** `stbi__zhuffman_decode_slowpath`; buffer holds at least the next 16 stream bits. */
  method DecodeSlow(t: Table, buffer: nat, ghost lens: seq<nat>) returns (d: Decoded)
    requires Represents(t, lens) && Rev(buffer, 16) >= Limit(lens, FAST_BITS)
    ensures DecodesTo(lens, buffer, d)
  {
    var k := BitReverse(buffer, 16);
    BitReverseIsRev(buffer, 16);
    RevBound(buffer, 16);
    Pow2Left(16);
    var s := FAST_BITS + 1;
    assert Pow2(16) == SENTINEL by { Pow2Is16(); }
    while k >= t.maxcode[s]
      invariant FAST_BITS < s <= 16
      invariant k >= Limit(lens, s - 1)
      decreases 16 - s
    {
      s := s + 1;
    }
    if s == 16 {
      forall i: nat ensures !Prefixes(lens, i, buffer) {
        if Prefixes(lens, i, buffer) {
          PrefixesIsCovers(lens, i, buffer);
          CoverRange(lens, i, k);
          LimitMono(lens, lens[i], MAX_BITS);
        }
      }
      return BadCode;
    }
    ghost var i := CoverAt(lens, s, k);
    PrefixesIsCovers(lens, i, buffer);
    SlotBound(lens, i);
    var b := Shr(k, 16 - s) - t.firstcode[s] + t.firstsymbol[s];
    assert b == Slot(lens, i);
    assert t.size[b] == s;
    d := Symbol(t.value[b], s);
  }

  lemma {:induction false} Pow2Is16()
    ensures Pow2(16) == SENTINEL && Pow2(9) == FAST_SIZE
  {
    ShlSmall(1);
    ShlShl(1, 8, 8);
    ShlSmall(256);
    assert Shl(1, 9) == 2 * Shl(1, 8);
  }

  /** `stbi__zhuffman_decode`, after the refill: one table lookup, then the slow path. */
  method Decode(t: Table, buffer: nat, ghost lens: seq<nat>) returns (d: Decoded)
    requires Represents(t, lens)
    ensures DecodesTo(lens, buffer, d)
  {
    MaskBound(buffer, FAST_BITS);
    Pow2Is16();
    var b := t.fast[Mask(buffer, FAST_BITS)];
    if b != 0 {
      assert FastEntry(lens, |lens|, Mask(buffer, FAST_BITS), b);
      RevOfMask(buffer, lens[b % FAST_SIZE], FAST_BITS);
      return Symbol(b % FAST_SIZE, b / FAST_SIZE);
    }
    NoShortCode(t, lens, buffer);
    d := DecodeSlow(t, buffer, lens);
  }
}
