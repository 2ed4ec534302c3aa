/** The block bitmap of a cache (core/cache.c): one bit per block, most significant bit of byte 0 first,
    a set bit meaning "block in use". Blocks of one value are consecutive. */
module Bitmap {
  import opened Wrappers

  /** What the search answers when there is no free run. */
  const NO_BLOCK: nat := 0xffff_ffff_ffff_ffff

  // ---------------------------------------------------------------- bits of one byte

  /** The byte whose only set bit is number p counted from the most significant one; 0 for p == 8. */
  function MaskAt(p: nat): bv8
    requires p <= 8
  {
    if p == 0 then 0x80 else if p == 1 then 0x40 else if p == 2 then 0x20 else if p == 3 then 0x10
    else if p == 4 then 0x08 else if p == 5 then 0x04 else if p == 6 then 0x02 else if p == 7 then 0x01
    else 0
  }

  predicate BitOf(b: bv8, p: nat)
    requires p < 8
  {
    b & MaskAt(p) != 0
  }

  lemma MaskAtIsAShift(p: nat)
    requires p < 8
    ensures MaskAt(p) == 1 << (7 - p)
    ensures MaskAt(p) >> 1 == MaskAt(p + 1)
  {}

  lemma OnesShiftedRight(f: nat, p: nat)
    requires f < 8 && p < 8
    ensures BitOf(0xff >> f, p) <==> f <= p
  {}

  lemma OnesShiftedLeft(t: nat, p: nat)
    requires t < 8 && p < 8
    ensures BitOf(0xff << t, p) <==> p <= 7 - t
  {}

  lemma LowBitsDropped(m: bv8, t: nat, p: nat)
    requires t < 8 && p < 8
    ensures BitOf((m >> t) << t, p) <==> BitOf(m, p) && p <= 7 - t
  {}

  lemma UnderMask(b: bv8, m: bv8, x: bv8)
    requires x & (x - 1) == 0
    ensures (b | m) & x == 0 <==> b & x == 0 && m & x == 0
    ensures (b & !m) & x == 0 <==> b & x == 0 || m & x != 0 || x == 0
  {}

  lemma ByteOps(b: bv8, m: bv8, p: nat)
    requires p < 8
    ensures BitOf(b | m, p) <==> BitOf(b, p) || BitOf(m, p)
    ensures BitOf(b & !m, p) <==> BitOf(b, p) && !BitOf(m, p)
    ensures BitOf(0xff, p) && !BitOf(0, p)
  {
    UnderMask(b, m, MaskAt(p));
  }

  /** Eight equal bits make equal bytes. */
  lemma ByteIsItsBits(a: bv8, b: bv8)
    requires forall p: nat :: p < 8 ==> BitOf(a, p) == BitOf(b, p)
    ensures a == b
  {
    assert BitOf(a, 0) == BitOf(b, 0) && BitOf(a, 1) == BitOf(b, 1);
    assert BitOf(a, 2) == BitOf(b, 2) && BitOf(a, 3) == BitOf(b, 3);
    assert BitOf(a, 4) == BitOf(b, 4) && BitOf(a, 5) == BitOf(b, 5);
    assert BitOf(a, 6) == BitOf(b, 6) && BitOf(a, 7) == BitOf(b, 7);
  }

  // ---------------------------------------------------------------- bits of the map

  /** Block k is in use. */
  predicate Bit(bm: seq<bv8>, k: nat)
    requires k < 8 * |bm|
  {
    BitOf(bm[k / 8], k % 8)
  }

  /** The whole map as a sequence of booleans, one per block. */
  ghost function Bits(bm: seq<bv8>): (bits: seq<bool>)
    ensures |bits| == 8 * |bm|
  {
    seq(8 * |bm|, k requires 0 <= k < 8 * |bm| => Bit(bm, k))
  }

  lemma BitUnderMask(bm: seq<bv8>, j: nat, p: nat)
    requires j < |bm| && p < 8
    ensures Bits(bm)[8 * j + p] <==> bm[j] & MaskAt(p) != 0
  {}

  /** How many blocks a value of len bytes takes. */
  function NeededBlocks(len: nat, blocksize: nat): (n: nat)
    requires blocksize > 0
    ensures len > 0 <==> n > 0
    ensures len <= blocksize ==> n <= 1
  {
    if len == 0 then 0 else if len <= blocksize then 1 else 1 + NeededBlocks(len - blocksize, blocksize)
  }

  /** It is the quotient rounded up. */
  lemma {:induction false} NeededBlocksIsCeiling(len: nat, blocksize: nat)
    requires blocksize > 0
    ensures NeededBlocks(len, blocksize) == len / blocksize + if len % blocksize > 0 then 1 else 0
  {
    if len > blocksize {
      NeededBlocksIsCeiling(len - blocksize, blocksize);
      DivStep(len, blocksize);
    } else if len == blocksize {
      DivStep(len, blocksize);
    }
  }

  lemma DivStep(a: nat, b: nat)
    requires 0 < b <= a
    ensures a / b == (a - b) / b + 1 && a % b == (a - b) % b
  {
    assert a == b * (a / b) + a % b;
    assert a - b == b * ((a - b) / b) + (a - b) % b;
    Quotients(b, a / b, a % b, (a - b) / b + 1, (a - b) % b);
  }

  lemma Quotients(b: nat, q: int, r: int, q': int, r': int)
    requires 0 <= r < b && 0 <= r' < b && b * q + r == b * q' + r'
    ensures q == q' && r == r'
  {
    if q < q' {
      Larger(b, q, q');
    } else if q' < q {
      Larger(b, q', q);
    }
  }

  lemma Larger(b: nat, q: int, q': int)
    requires q + 1 <= q'
    ensures b * q + b <= b * q'
  {
    var d := q' - q - 1;
    assert q' == q + 1 + d;
    assert b * q' == b * (q + 1) + b * d;
  }

  method BlocksFor(len: nat, blocksize: nat) returns (needed: nat)
    requires blocksize > 0
    ensures needed == NeededBlocks(len, blocksize)
  {
    needed := len / blocksize;
    if len % blocksize > 0 { needed := needed + 1; }
    NeededBlocksIsCeiling(len, blocksize);
  }

  /** after differs from before exactly by having the bits [index, index + n) all equal to value. */
  ghost predicate Painted(before: seq<bv8>, after: seq<bv8>, index: nat, n: nat, value: bool) {
    && |after| == |before|
    && forall k: nat :: k < 8 * |before| ==>
         (Bit(after, k) == if index <= k < index + n then value else Bit(before, k))
  }

  ghost predicate PaintedBits(b0: seq<bool>, b1: seq<bool>, index: nat, n: nat, value: bool) {
    && |b1| == |b0|
    && forall k :: 0 <= k < |b0| ==> b1[k] == if index <= k < index + n then value else b0[k]
  }

  lemma PaintedMap(before: seq<bv8>, after: seq<bv8>, index: nat, n: nat, value: bool)
    requires Painted(before, after, index, n, value)
    ensures PaintedBits(Bits(before), Bits(after), index, n, value)
  {
    hide Bit;
  }

  /** memset(&bm[from], value, count) */
  method Memset(bm: array<bv8>, from: nat, count: nat, value: bv8)
    requires from + count <= bm.Length
    modifies bm
    ensures forall q :: 0 <= q < bm.Length ==>
                          bm[q] == if from <= q < from + count then value else old(bm[q])
  {
    for i := from to from + count
      invariant forall q :: 0 <= q < bm.Length ==> bm[q] == if from <= q < i then value else old(bm[q])
    {
      bm[i] := value;
    }
  }

  /** The mask of the first byte touched by a range, as the mark and unmark code build it. */
  method FirstMask(firstBit: nat, lastBit: nat, single: bool) returns (mask: bv8)
    requires firstBit < 8 && lastBit < 8
    ensures forall p: nat :: p < 8 ==> (BitOf(mask, p) <==> firstBit <= p && (single ==> p <= lastBit))
  {
    mask := 0xff >> firstBit;
    forall p: nat | p < 8
      ensures BitOf(mask, p) <==> firstBit <= p
    {
      OnesShiftedRight(firstBit, p);
    }
    if single {
      forall p: nat | p < 8
        ensures BitOf((mask >> (7 - lastBit)) << (7 - lastBit), p) <==> BitOf(mask, p) && p <= lastBit
      {
        LowBitsDropped(mask, 7 - lastBit, p);
      }
      mask := mask >> (7 - lastBit);
      mask := mask << (7 - lastBit);
    }
  }

  /** b2 is b1 with the bits of the mask all equal to value. */
  ghost predicate PaintedByte(b1: bv8, b2: bv8, mask: bv8, value: bool) {
    forall p: nat :: p < 8 ==> BitOf(b2, p) == if BitOf(mask, p) then value else BitOf(b1, p)
  }

  /** bm[q] |= mask, or bm[q] &= ~mask */
  method PaintByte(bm: array<bv8>, q: nat, mask: bv8, value: bool)
    requires q < bm.Length
    modifies bm
    ensures PaintedByte(old(bm[q]), bm[q], mask, value)
    ensures forall r :: 0 <= r < bm.Length && r != q ==> bm[r] == old(bm[r])
  {
    forall p: nat | p < 8
      ensures BitOf(bm[q] | mask, p) <==> BitOf(bm[q], p) || BitOf(mask, p)
      ensures BitOf(bm[q] & !mask, p) <==> BitOf(bm[q], p) && !BitOf(mask, p)
    {
      ByteOps(bm[q], mask, p);
    }
    bm[q] := if value then bm[q] | mask else bm[q] & !mask;
  }

  /** What painting comes to byte by byte, with fm and lm the masks of the first and the last byte. */
  ghost predicate PaintedBytes(before: seq<bv8>, after: seq<bv8>, first: nat, last: nat,
                               fm: bv8, lm: bv8, value: bool)
  {
    && |after| == |before| && first <= last < |before|
    && PaintedByte(before[first], after[first], fm, value)
    && (first < last ==> PaintedByte(before[last], after[last], lm, value))
    && (forall q :: first < q < last ==> after[q] == if value then 0xff else 0)
    && (forall q :: 0 <= q < |before| && (q < first || last < q) ==> after[q] == before[q])
  }

  lemma PaintedByBytes(before: seq<bv8>, after: seq<bv8>, first: nat, firstBit: nat, last: nat, lastBit: nat,
                       fm: bv8, lm: bv8, value: bool)
    requires PaintedBytes(before, after, first, last, fm, lm, value)
    requires firstBit < 8 && lastBit < 8 && 8 * first + firstBit <= 8 * last + lastBit
    requires forall p: nat :: p < 8 ==> (BitOf(fm, p) <==> firstBit <= p && (first == last ==> p <= lastBit))
    requires forall p: nat :: p < 8 ==> (BitOf(lm, p) <==> p <= lastBit)
    ensures Painted(before, after, 8 * first + firstBit, 8 * last + lastBit + 1 - (8 * first + firstBit), value)
  {
    forall k: nat | k < 8 * |before|
      ensures Bit(after, k) == if 8 * first + firstBit <= k <= 8 * last + lastBit then value else Bit(before, k)
    {
      ByteOps(0, 0, k % 8);
    }
  }

  /** The common body of cache_mark_blocks (value is true) and cache_unmark_blocks (value is false). */
  method PaintBlocks(bm: array<bv8>, index: nat, needed: nat, value: bool)
    requires needed > 0 && index + needed <= 8 * bm.Length
    modifies bm
    ensures Painted(old(bm[..]), bm[..], index, needed, value)
  {
    var firstByte, firstBit := index / 8, index % 8;
    var lastByte, lastBit := (index + needed - 1) / 8, (index + needed - 1) % 8;
    var neededBytes := lastByte - firstByte + 1;
    ghost var before := bm[..];

    var fm := FirstMask(firstBit, lastBit, neededBytes == 1);
    PaintByte(bm, firstByte, fm, value);
    var mask: bv8 := 0xff << (7 - lastBit);
    forall p: nat | p < 8
      ensures BitOf(mask, p) <==> p <= lastBit
    {
      OnesShiftedLeft(7 - lastBit, p);
    }
    if neededBytes > 1 {
      PaintByte(bm, lastByte, mask, value);
    }
    if neededBytes > 2 {
      Memset(bm, firstByte + 1, neededBytes - 2, if value then 0xff else 0);
    }
    PaintedByBytes(before, bm[..], firstByte, firstBit, lastByte, lastBit, fm, mask, value);
  }

  /** cache_mark_blocks */
  method MarkBlocks(bm: array<bv8>, index: nat, len: nat, blocksize: nat) returns (needed: nat)
    requires blocksize > 0 && len > 0
    requires index + NeededBlocks(len, blocksize) <= 8 * bm.Length
    modifies bm
    ensures needed == NeededBlocks(len, blocksize)
    ensures Painted(old(bm[..]), bm[..], index, needed, true)
  {
    needed := BlocksFor(len, blocksize);
    PaintBlocks(bm, index, needed, true);
  }

  /** cache_unmark_blocks */
  method UnmarkBlocks(bm: array<bv8>, index: nat, len: nat, blocksize: nat)
    requires blocksize > 0 && len > 0
    requires index + NeededBlocks(len, blocksize) <= 8 * bm.Length
    modifies bm
    ensures Painted(old(bm[..]), bm[..], index, NeededBlocks(len, blocksize), false)
  {
    var needed := BlocksFor(len, blocksize);
    PaintBlocks(bm, index, needed, false);
  }

  /** Unmarking a range that was clear before it was marked gives back the very bytes. */
  lemma UnmarkUndoesMark(b0: seq<bv8>, b1: seq<bv8>, b2: seq<bv8>, index: nat, n: nat)
    requires index + n <= 8 * |b0| && ClearRun(Bits(b0), index, n)
    requires Painted(b0, b1, index, n, true) && Painted(b1, b2, index, n, false)
    ensures b2 == b0
  {
    forall q | 0 <= q < |b0|
      ensures b2[q] == b0[q]
    {
      forall p: nat | p < 8
        ensures BitOf(b2[q], p) == BitOf(b0[q], p)
      {
        var k := 8 * q + p;
        assert k / 8 == q && k % 8 == p;
        assert Bit(b1, k) == if index <= k < index + n then true else Bit(b0, k);
        assert index <= k < index + n ==> !Bits(b0)[k];
        assert Bit(b2, k) == if index <= k < index + n then false else Bit(b1, k);
      }
      ByteIsItsBits(b2[q], b0[q]);
    }
  }

  // ---------------------------------------------------------------- the free-run search

  /** n consecutive free blocks start at p. */
  ghost predicate ClearRun(bits: seq<bool>, p: nat, n: nat) {
    && p + n <= |bits|
    && forall k: nat :: p <= k < p + n ==> !bits[k]
  }

  /** The lowest p with a free run of n blocks inside [lo, hi). */
  ghost function FirstRun(bits: seq<bool>, lo: nat, hi: nat, n: nat): Option<nat>
    decreases hi - lo
  {
    if lo + n > hi || lo >= hi then None
    else if ClearRun(bits, lo, n) then Some(lo)
    else FirstRun(bits, lo + 1, hi, n)
  }

  /** Where the second round of the search ends: the hint rounded up to a whole byte. */
  function RoundUp(hint: nat): nat {
    if hint % 8 > 0 then 8 * (hint / 8 + 1) else hint
  }

  /** The reference search: first fit from the hint to the end, then first fit from 0 to the end of
      the hint's byte. */
  ghost function Search(bits: seq<bool>, hint: nat, n: nat): Option<nat> {
    var r := FirstRun(bits, hint, |bits|, n);
    if r.Some? then r else FirstRun(bits, 0, RoundUp(hint), n)
  }

  lemma {:induction false} FirstRunIs(bits: seq<bool>, lo: nat, hi: nat, n: nat, p: nat)
    requires n > 0 && lo <= p && p + n <= hi && ClearRun(bits, p, n)
    requires forall q: nat :: lo <= q < p ==> !ClearRun(bits, q, n)
    ensures FirstRun(bits, lo, hi, n) == Some(p)
    decreases p - lo
  {
    if lo < p {
      FirstRunIs(bits, lo + 1, hi, n, p);
    }
  }

  lemma {:induction false} FirstRunIsNone(bits: seq<bool>, lo: nat, hi: nat, n: nat)
    requires n > 0
    requires forall q: nat :: lo <= q && q + n <= hi ==> !ClearRun(bits, q, n)
    ensures FirstRun(bits, lo, hi, n) == None
    decreases hi - lo
  {
    if lo + n <= hi {
      FirstRunIsNone(bits, lo + 1, hi, n);
    }
  }

  lemma {:induction false} FirstRunFinds(bits: seq<bool>, lo: nat, hi: nat, n: nat)
    requires n > 0
    ensures match FirstRun(bits, lo, hi, n)
            case Some(p) => lo <= p && p + n <= hi && ClearRun(bits, p, n) &&
                            (forall q: nat :: lo <= q < p ==> !ClearRun(bits, q, n))
            case None => forall q: nat :: lo <= q && q + n <= hi ==> !ClearRun(bits, q, n)
    decreases hi - lo
  {
    if lo + n <= hi && !ClearRun(bits, lo, n) {
      FirstRunFinds(bits, lo + 1, hi, n);
    }
  }

  /** Exactly which free runs the search can see. */
  lemma SearchSucceedsIff(bits: seq<bool>, hint: nat, n: nat)
    requires n > 0
    ensures Search(bits, hint, n).Some? <==>
            exists p: nat :: ClearRun(bits, p, n) && (hint <= p || p + n <= RoundUp(hint))
    ensures Search(bits, hint, n).Some? ==> ClearRun(bits, Search(bits, hint, n).value, n)
    ensures Search(bits, 0, n).Some? <==> exists p: nat :: ClearRun(bits, p, n)
  {
    FirstRunFinds(bits, hint, |bits|, n);
    FirstRunFinds(bits, 0, RoundUp(hint), n);
    FirstRunFinds(bits, 0, |bits|, n);
  }

  /** And which of them it takes: the lowest from the hint on, and only if there is none the lowest in the bytes up to
      the one of the hint. */
  lemma SearchIsFirstFit(bits: seq<bool>, hint: nat, n: nat)
    requires n > 0
    ensures var up := 8 * ((hint + 7) / 8);
            match Search(bits, hint, n)
            case Some(p) =>
              && ClearRun(bits, p, n)
              && (forall q: nat :: hint <= q && ClearRun(bits, q, n) ==> hint <= p <= q)
              && (p < hint ==> p + n <= up && forall q: nat :: q < p ==> !ClearRun(bits, q, n))
            case None => forall q: nat :: ClearRun(bits, q, n) ==> q < hint && q + n > up
  {
    FirstRunFinds(bits, hint, |bits|, n);
    FirstRunFinds(bits, 0, RoundUp(hint), n);
    hide FirstRun;
    assert RoundUp(hint) == 8 * ((hint + 7) / 8);
    forall q: nat | hint <= q && ClearRun(bits, q, n)
      ensures FirstRun(bits, hint, |bits|, n).Some? && FirstRun(bits, hint, |bits|, n).value <= q
    {}
  }

  lemma ClearRunInside(bits: seq<bool>, p: nat, n: nat)
    requires ClearRun(bits, p, n)
    ensures p + n <= |bits|
  {}

  lemma SearchInside(bits: seq<bool>, hint: nat, n: nat)
    requires n > 0 && |bits| < NO_BLOCK
    ensures Search(bits, hint, n).Some? ==> Search(bits, hint, n).value < NO_BLOCK
  {
    SearchSucceedsIff(bits, hint, n);
  }

  /** A free run that crosses a byte-aligned hint is missed, although it is the only one. */
  lemma StraddlingRunIsMissed()
    ensures var bits := Bits([0xf0, 0x0f]); ClearRun(bits, 4, 8) && Search(bits, 8, 8) == None
  {
    var bm: seq<bv8> := [0xf0, 0x0f];
    var bits := Bits(bm);
    assert bits[0] && bits[12];
    assert !ClearRun(bits, 8, 8) && !ClearRun(bits, 0, 8);
    FirstRunIsNone(bits, 8, 16, 8);
    FirstRunIsNone(bits, 0, 8, 8);
  }

  /** The scan of [lo, cur) has seen no run of n; its last `found` blocks are free and (base, baseBit)
      says where they start. */
  ghost predicate Scanned(bits: seq<bool>, lo: nat, cur: nat, n: nat, found: nat, base: nat, baseBit: nat) {
    && cur <= |bits| && lo + found <= cur && found < n
    && (forall k: nat :: cur - found <= k < cur ==> !bits[k])
    && (forall q: nat :: lo <= q < cur - found ==> !ClearRun(bits, q, n))
    && (if found == 0 then base == NO_BLOCK else base < NO_BLOCK && base * 8 + baseBit == cur - found)
  }

  lemma UsedBlock(bits: seq<bool>, lo: nat, cur: nat, n: nat, found: nat, base: nat, baseBit: nat)
    requires Scanned(bits, lo, cur, n, found, base, baseBit) && cur < |bits| && bits[cur]
    ensures Scanned(bits, lo, cur + 1, n, 0, NO_BLOCK, 0)
  {
    forall q: nat | lo <= q < cur + 1
      ensures !ClearRun(bits, q, n)
    {
      if q >= cur - found {
        assert q <= cur < q + n;
      }
    }
  }

  lemma RoundIsOver(bits: seq<bool>, lo: nat, hi: nat, n: nat, found: nat, base: nat, baseBit: nat)
    requires Scanned(bits, lo, hi, n, found, base, baseBit)
    ensures FirstRun(bits, lo, hi, n) == None
  {
    FirstRunIsNone(bits, lo, hi, n);
  }

  /** The inner loop of the search: the bits of byte j from `start` on, under a mask that shifts right. */
  method ScanByte(bm: array<bv8>, j: nat, start: nat, ghost lo: nat, needed: nat, found0: nat, base0: nat,
                  baseBit0: nat)
    returns (done: bool, found: nat, base: nat, baseBit: nat)
    requires j < bm.Length < NO_BLOCK && start < 8
    requires Scanned(Bits(bm[..]), lo, 8 * j + start, needed, found0, base0, baseBit0)
    ensures !done ==> Scanned(Bits(bm[..]), lo, 8 * (j + 1), needed, found, base, baseBit)
    ensures done ==> FirstRun(Bits(bm[..]), lo, 8 * (j + 1), needed) == Some(base * 8 + baseBit)
  {
    hide Bits;
    ghost var bits := Bits(bm[..]);
    done, found, base, baseBit := false, found0, base0, baseBit0;
    var num, bitPos := bm[j], start;
    MaskAtIsAShift(start);
    var i: bv8 := 1 << (7 - start);
    while i > 0
      invariant start <= bitPos <= 8 && i == MaskAt(bitPos)
      invariant Scanned(bits, lo, 8 * j + bitPos, needed, found, base, baseBit)
      decreases 8 - bitPos
    {
      MaskAtIsAShift(bitPos);
      ghost var cur := 8 * j + bitPos;
      BitUnderMask(bm[..], j, bitPos);
      if num & i != 0 {
        UsedBlock(bits, lo, cur, needed, found, base, baseBit);
        found, base, baseBit := 0, NO_BLOCK, 0;
      } else {
        if base == NO_BLOCK {
          base, baseBit := j, bitPos;
        }
        found := found + 1;
        if found == needed {
          FirstRunIs(bits, lo, 8 * (j + 1), needed, cur + 1 - needed);
          done := true;
          return;
        }
      }
      i := i >> 1;
      bitPos := bitPos + 1;
    }
  }

  lemma FirstRunWiden(bits: seq<bool>, lo: nat, mid: nat, hi: nat, n: nat)
    requires n > 0 && mid <= hi && FirstRun(bits, lo, mid, n).Some?
    ensures FirstRun(bits, lo, hi, n) == FirstRun(bits, lo, mid, n)
  {
    FirstRunFinds(bits, lo, mid, n);
    FirstRunIs(bits, lo, hi, n, FirstRun(bits, lo, mid, n).value);
  }

  /** uwsgi_cache_find_free_blocks: the byte-by-byte scan with a moving mask, a wrap and a partial
      first byte computes the reference search. */
  method FindFreeBlocks(bm: array<bv8>, hint: nat, len: nat, blocksize: nat) returns (r: nat)
    requires blocksize > 0 && len > 0
    requires 8 * bm.Length < NO_BLOCK
    requires hint == 0 || hint < 8 * bm.Length
    ensures r == match Search(Bits(bm[..]), hint, NeededBlocks(len, blocksize)) case Some(p) => p case None => NO_BLOCK
  {
    hide Bits, FirstRun;
    var needed := BlocksFor(len, blocksize);
    var bitmapByte, bitmapBit := 0, 0;
    if hint > 0 {
      bitmapByte, bitmapBit := hint / 8, hint % 8;
    }
    var base, baseBit, found := NO_BLOCK, 0, 0;
    var needToScan := bm.Length;
    if bitmapBit > 0 { needToScan := needToScan + 1; }
    var j := bitmapByte;

    // the round being scanned is [hint, total) at first, then [0, 8 * tail), the hint rounded up
    ghost var bits, total := Bits(bm[..]), 8 * bm.Length;
    ghost var tail := bitmapByte + if bitmapBit > 0 then 1 else 0;
    assert 8 * tail == RoundUp(hint);
    ghost var lo, cur: nat, second := hint, hint, false;
    while needToScan > 0
      invariant 0 <= needToScan && 0 <= j && (needToScan > 0 ==> j < bm.Length)
      invariant !second ==> lo == hint && bitmapBit == hint % 8 && bitmapByte <= j && (needToScan > 0 || total == 0)
      invariant !second ==> needToScan == bm.Length - j + tail && cur == (if j == bitmapByte then hint else 8 * j)
      invariant second ==> lo == bitmapBit == 0 && FirstRun(bits, hint, total, needed) == None
      invariant second ==> cur == 8 * (tail - needToScan) && (needToScan > 0 ==> cur == 8 * j)
      invariant Scanned(bits, lo, cur, needed, found, base, baseBit)
    {
      var bitPos := if j == bitmapByte then bitmapBit else 0;
      var done;
      done, found, base, baseBit := ScanByte(bm, j, bitPos, lo, needed, found, base, baseBit);
      if done {
        FirstRunWiden(bits, lo, 8 * (j + 1), if second then 8 * tail else total, needed);
        return base * 8 + baseBit;
      }
      j, cur := j + 1, 8 * (j + 1);
      needToScan := needToScan - 1;
      if j >= bm.Length {
        RoundIsOver(bits, lo, cur, needed, found, base, baseBit);
        if !second {
          lo, cur, second := 0, 0, true;
        }
        j, found, base, baseBit := 0, 0, NO_BLOCK, 0;
        bitmapBit := 0;
      }
    }
    if second {
      RoundIsOver(bits, 0, cur, needed, found, base, baseBit);
    } else {
      FirstRunIsNone(bits, 0, 0, needed);
    }
    r := NO_BLOCK;
  }
}
