/** Bitmaps in 64-bit cells (src/common/bitmap.h), as cache_alloc and cache_free keep
them in disk blocks of 4096 bits. */
module Bitmap {
  import opened Basics
  import opened Bytes
  import opened WriteAheadLog

  const BIT_PER_BLOCK := 4096

  /** n with bit k set to b */
  function WithBit(n: nat, k: nat, b: bool): nat
    decreases k
  {
    if k == 0 then n - n % 2 + (if b then 1 else 0) else n % 2 + 2 * WithBit(n / 2, k - 1, b)
  }

  lemma {:induction false} WithBitAt(n: nat, k: nat, b: bool, j: nat)
    ensures Bit(WithBit(n, k, b), j) == if j == k then b else Bit(n, j)
    decreases k
  {
    if k > 0 {
      var m := WithBit(n / 2, k - 1, b);
      assert (n % 2 + 2 * m) / 2 == m;
      if j > 0 {
        WithBitAt(n / 2, k - 1, b, j - 1);
      }
    } else if j > 0 {
      assert WithBit(n, 0, b) / 2 == n / 2;
    }
  }

  lemma {:induction false} WithBitBound(n: nat, k: nat, b: bool, w: nat)
    requires n < Pow2(w) && k < w
    ensures WithBit(n, k, b) < Pow2(w)
    decreases k
  {
    if k == 0 {
    } else {
      WithBitBound(n / 2, k - 1, b, w - 1);
    }
  }

  lemma {:induction false} Pow2Bytes(k: nat)
    ensures Pow2(8 * k) == Pow256(k)
  {
    if k == 0 {
    } else {
      Pow2Bytes(k - 1);
      var n := 8 * (k - 1);
      assert Pow2(n + 1) == 2 * Pow2(n) && Pow2(n + 2) == 2 * Pow2(n + 1);
      assert Pow2(n + 3) == 2 * Pow2(n + 2) && Pow2(n + 4) == 2 * Pow2(n + 3);
      assert Pow2(n + 5) == 2 * Pow2(n + 4) && Pow2(n + 6) == 2 * Pow2(n + 5);
      assert Pow2(n + 7) == 2 * Pow2(n + 6) && Pow2(n + 8) == 2 * Pow2(n + 7);
    }
  }

  /** bitmap_get on a bitmap block */
  predicate Get(d: Data, index: nat)
    requires index < BIT_PER_BLOCK
  {
    Bit(WordAt(d, 8, index / 64), index % 64)
  }

  /** bitmap_set (`b`) and bitmap_clear (`!b`) on a bitmap block */
  function Put(d: Data, index: nat, b: bool): Data
    requires index < BIT_PER_BLOCK
  {
    PutWord(d, 8, index / 64, WithBit(WordAt(d, 8, index / 64), index % 64, b))
  }

  lemma SameBit(i: nat, j: nat)
    ensures i == j <==> i / 64 == j / 64 && i % 64 == j % 64
  {
    assert i == 64 * (i / 64) + i % 64 && j == 64 * (j / 64) + j % 64;
  }

  lemma CellBound(d: Data, c: nat, o: nat, b: bool)
    requires c < 64 && o < 64
    ensures WithBit(WordAt(d, 8, c), o, b) < Pow256(8)
  {
    ToFrom(d[c * 8..c * 8 + 8]);
    Pow2Bytes(8);
    WithBitBound(WordAt(d, 8, c), o, b, 64);
  }

  /** Setting or clearing a bit changes that bit and no other. */
  lemma PutGet(d: Data, i: nat, b: bool, j: nat)
    requires i < BIT_PER_BLOCK && j < BIT_PER_BLOCK
    ensures Get(Put(d, i, b), j) == if i == j then b else Get(d, j)
  {
    var c, o := i / 64, i % 64;
    var n := WordAt(d, 8, c);
    SameBit(i, j);
    CellBound(d, c, o, b);
    PutWordAt(d, 8, c, WithBit(n, o, b), j / 64);
    WithBitAt(n, o, b, j % 64);
  }

  // ---- The bitmap of a disk ----

  /** The bitmap blocks that cache_alloc visits are home blocks. */
  ghost predicate BitmapOk(sb: SuperBlock) {
    forall b: nat | sb.bitmapStart <= b <= sb.bitmapStart + sb.numBlocks / BIT_PER_BLOCK :: HomeBlock(sb, b)
  }

  /** Block `no` is marked as used in the bitmap of `v`. */
  ghost predicate Marked(sb: SuperBlock, v: Disk, no: nat)
    requires BitmapOk(sb) && |v| == sb.numBlocks && no < sb.numBlocks
  {
    BitmapBlock(sb, no);
    Get(v[sb.bitmapStart + no / BIT_PER_BLOCK], no % BIT_PER_BLOCK)
  }

  lemma BitmapBlock(sb: SuperBlock, no: nat)
    requires BitmapOk(sb) && no < sb.numBlocks
    ensures HomeBlock(sb, sb.bitmapStart + no / BIT_PER_BLOCK)
  {
    var i := no / BIT_PER_BLOCK;
    assert 0 <= i <= sb.numBlocks / BIT_PER_BLOCK;
    assert HomeBlock(sb, sb.bitmapStart + i);
  }

  /** `v` with the bit of block `no` set or cleared. */
  ghost function Mark(sb: SuperBlock, v: Disk, no: nat, used: bool): (r: Disk)
    requires BitmapOk(sb) && |v| == sb.numBlocks && no < sb.numBlocks
    ensures |r| == |v|
  {
    BitmapBlock(sb, no);
    var i := sb.bitmapStart + no / BIT_PER_BLOCK;
    v[i := Put(v[i], no % BIT_PER_BLOCK, used)]
  }

  lemma SameMark(i: nat, j: nat)
    ensures i == j <==> i / BIT_PER_BLOCK == j / BIT_PER_BLOCK && i % BIT_PER_BLOCK == j % BIT_PER_BLOCK
  {
    assert i == BIT_PER_BLOCK * (i / BIT_PER_BLOCK) + i % BIT_PER_BLOCK;
    assert j == BIT_PER_BLOCK * (j / BIT_PER_BLOCK) + j % BIT_PER_BLOCK;
  }

  /** Marking a block changes its mark and no other. */
  lemma MarkMarked(sb: SuperBlock, v: Disk, no: nat, used: bool, m: nat)
    requires BitmapOk(sb) && |v| == sb.numBlocks && no < sb.numBlocks && m < sb.numBlocks
    ensures Marked(sb, Mark(sb, v, no, used), m) == if m == no then used else Marked(sb, v, m)
  {
    BitmapBlock(sb, no);
    BitmapBlock(sb, m);
    SameMark(no, m);
    if no / BIT_PER_BLOCK == m / BIT_PER_BLOCK {
      PutGet(v[sb.bitmapStart + no / BIT_PER_BLOCK], no % BIT_PER_BLOCK, used, m % BIT_PER_BLOCK);
    }
  }

  lemma {:induction false} NoBit(k: nat)
    ensures !Bit(0, k)
  {
    if k == 0 {
    } else {
      NoBit(k - 1);
    }
  }

  /** Nothing is marked on a disk of zeros. */
  lemma ZerosUnmarked(sb: SuperBlock, v: Disk, m: nat)
    requires BitmapOk(sb) && |v| == sb.numBlocks && m < sb.numBlocks
    requires forall b, i | 0 <= b < |v| && 0 <= i < BLOCK_SIZE :: v[b][i] == 0
    ensures !Marked(sb, v, m)
  {
    BitmapBlock(sb, m);
    var d, c := v[sb.bitmapStart + m / BIT_PER_BLOCK], m % BIT_PER_BLOCK / 64;
    FromZeros(d[c * 8..c * 8 + 8]);
    NoBit(m % BIT_PER_BLOCK % 64);
  }

  /** The marks are those of the first `n` blocks. */
  ghost predicate FirstMarked(sb: SuperBlock, v: Disk, n: nat)
    requires BitmapOk(sb) && |v| == sb.numBlocks
  {
    forall m: nat {:trigger Marked(sb, v, m)} | m < sb.numBlocks :: Marked(sb, v, m) <==> m < n
  }

  lemma MarkNext(sb: SuperBlock, v: Disk, i: nat)
    requires BitmapOk(sb) && |v| == sb.numBlocks && i < sb.numBlocks && FirstMarked(sb, v, i)
    ensures FirstMarked(sb, Mark(sb, v, i, true), i + 1)
  {
    forall m: nat | m < sb.numBlocks
      ensures Marked(sb, Mark(sb, v, i, true), m) <==> m < i + 1
    {
      MarkMarked(sb, v, i, true, m);
    }
  }

  /** The marks that mkfs sets on a blank disk. */
  method MarkFirst(sb: SuperBlock, v: Disk, n: nat) returns (r: Disk)
    requires BitmapOk(sb) && |v| == sb.numBlocks && n <= sb.numBlocks && FirstMarked(sb, v, 0)
    ensures |r| == |v| && FirstMarked(sb, r, n)
    ensures forall b: nat | b < |v| && b < sb.bitmapStart :: r[b] == v[b]
  {
    r := v;
    for i := 0 to n
      invariant |r| == |v| && FirstMarked(sb, r, i)
      invariant forall b: nat | b < |v| && b < sb.bitmapStart :: r[b] == v[b]
    {
      MarkNext(sb, r, i);
      BitmapBlock(sb, i);
      var b := sb.bitmapStart + i / BIT_PER_BLOCK;
      r := r[b := Put(r[b], i % BIT_PER_BLOCK, true)];
    }
  }

  ghost predicate SetBelow(d: Data, index: nat)
    requires index <= BIT_PER_BLOCK
  {
    forall j | 0 <= j < index :: Get(d, j)
  }

  ghost predicate MarkedBelow(sb: SuperBlock, v: Disk, n: nat)
    requires BitmapOk(sb) && |v| == sb.numBlocks
  {
    forall m: nat | m < sb.numBlocks && m < n :: Marked(sb, v, m)
  }

  /** Block `no` exists and is not marked. */
  ghost predicate Clear(sb: SuperBlock, v: Disk, no: nat)
    requires BitmapOk(sb) && |v| == sb.numBlocks
  {
    no < sb.numBlocks && !Marked(sb, v, no)
  }

  /** The bit at which the scan of bitmap block `i` ends. */
  function ScanEnd(sb: SuperBlock, i: nat): nat {
    if i == sb.numBlocks / BIT_PER_BLOCK then sb.numBlocks % BIT_PER_BLOCK else BIT_PER_BLOCK
  }

  /** What a scan of bitmap block `i` that stops at bit `index` says about the blocks. */
  lemma Scanned(sb: SuperBlock, v: Disk, i: nat, index: nat)
    requires BitmapOk(sb) && |v| == sb.numBlocks && i <= sb.numBlocks / BIT_PER_BLOCK
    requires HomeBlock(sb, sb.bitmapStart + i) && index <= ScanEnd(sb, i) <= BIT_PER_BLOCK
    requires SetBelow(v[sb.bitmapStart + i], index)
    requires MarkedBelow(sb, v, i * BIT_PER_BLOCK)
    ensures MarkedBelow(sb, v, i * BIT_PER_BLOCK + index)
    ensures index == ScanEnd(sb, i) ==> MarkedBelow(sb, v, (i + 1) * BIT_PER_BLOCK)
    ensures index < ScanEnd(sb, i) && !Get(v[sb.bitmapStart + i], index) ==> Clear(sb, v, i * BIT_PER_BLOCK + index)
  {
    forall m: nat | m < sb.numBlocks && i * BIT_PER_BLOCK <= m < i * BIT_PER_BLOCK + index
      ensures Marked(sb, v, m)
    {
      assert m / BIT_PER_BLOCK == i && m % BIT_PER_BLOCK == m - i * BIT_PER_BLOCK;
    }
  }

  /** The inner loop of cache_alloc. */
  method FirstClear(d: Data, end: nat) returns (index: nat)
    requires end <= BIT_PER_BLOCK
    ensures index <= end && (index < end ==> !Get(d, index))
    ensures SetBelow(d, index)
  {
    index := 0;
    while index < end
      invariant index <= end && SetBelow(d, index)
    {
      if !Get(d, index) {
        return;
      }
      index := index + 1;
    }
  }

  /** The search of cache_alloc. */
  method FindFree(sb: SuperBlock, v: Disk) returns (found: bool, no: nat)
    requires BitmapOk(sb) && |v| == sb.numBlocks
    ensures found ==> Clear(sb, v, no) && MarkedBelow(sb, v, no)
    ensures !found ==> MarkedBelow(sb, v, sb.numBlocks)
  {
    var last := sb.numBlocks / BIT_PER_BLOCK;
    for i := 0 to last + 1
      invariant MarkedBelow(sb, v, i * BIT_PER_BLOCK)
    {
      assert HomeBlock(sb, sb.bitmapStart + i);
      var end := ScanEnd(sb, i);
      var index := FirstClear(v[sb.bitmapStart + i], end);
      Scanned(sb, v, i, index);
      if index < end {
        return true, i * BIT_PER_BLOCK + index;
      }
    }
    return false, 0;
  }
}
