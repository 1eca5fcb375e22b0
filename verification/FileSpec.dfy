/** What a file holds, and what writing to it does (src/fs/inode.c:355-529), on values. */
module FileSpec {
  import opened Basics
  import opened Bytes
  import opened WriteAheadLog

  const INODE_NUM_DIRECT := 12
  const INODE_MAX_BLOCKS := 140
  const INODE_MAX_BYTES := 71680
  const ADDRESS_LIMIT := 0x1_0000_0000

  /** The fields of `InodeEntry` that say where the bytes are. */
  datatype Entry = Entry(numBytes: nat, addrs: seq<nat>, indirect: nat)

  function BlocksFor(n: nat): nat { (n + BLOCK_SIZE - 1) / BLOCK_SIZE }

  // ---- Where the blocks are ----

  /** The first `|s|` block addresses of the file are `s`. */
  ghost predicate AddressedBy(v: Disk, e: Entry, s: seq<nat>) {
    && |e.addrs| == INODE_NUM_DIRECT && |s| <= INODE_MAX_BLOCKS
    && (forall i | 0 <= i < |s| && i < INODE_NUM_DIRECT :: e.addrs[i] == s[i])
    && (|s| > INODE_NUM_DIRECT ==> e.indirect < |v| && IndirectIs(v[e.indirect], s))
  }

  /** Address `i` of the file in its indirect block (get_addrs). */
  function Slot(d: Data, i: nat): nat
    requires INODE_NUM_DIRECT <= i < INODE_MAX_BLOCKS
  {
    WordAt(d, 4, i - INODE_NUM_DIRECT)
  }

  function PutSlot(d: Data, i: nat, a: nat): Data
    requires INODE_NUM_DIRECT <= i < INODE_MAX_BLOCKS
  {
    PutWord(d, 4, i - INODE_NUM_DIRECT, a)
  }

  lemma PutSlotAt(d: Data, i: nat, a: nat)
    requires INODE_NUM_DIRECT <= i < INODE_MAX_BLOCKS && a < ADDRESS_LIMIT
    ensures forall j | INODE_NUM_DIRECT <= j < INODE_MAX_BLOCKS :: Slot(PutSlot(d, i, a), j) == if i == j then a else Slot(d, j)
  {
    forall j | INODE_NUM_DIRECT <= j < INODE_MAX_BLOCKS
      ensures Slot(PutSlot(d, i, a), j) == if i == j then a else Slot(d, j)
    {
      PutWordAt(d, 4, i - INODE_NUM_DIRECT, a, j - INODE_NUM_DIRECT);
    }
  }

  /** Every byte is zero, as in a block just allocated. */
  ghost predicate Blank(d: Data) { forall i | 0 <= i < BLOCK_SIZE :: d[i] == 0 }

  lemma BlankSlots(d: Data)
    requires Blank(d)
    ensures ZeroWordsFrom(d, 0)
  {
    forall j | INODE_NUM_DIRECT <= j < INODE_MAX_BLOCKS
      ensures Slot(d, j) == 0
    {
      var i := j - INODE_NUM_DIRECT;
      FromZeros(d[i * 4..i * 4 + 4]);
    }
  }

  ghost predicate IndirectIs(d: Data, s: seq<nat>)
    requires |s| <= INODE_MAX_BLOCKS
  {
    forall i | INODE_NUM_DIRECT <= i < |s| :: Slot(d, i) == s[i]
  }

  /** The file `e` lies in the blocks `s` and its indirect block, all of them in use, all
      different, none of them `foreign`. */
  ghost predicate FileOk(first: nat, v: Disk, used: set<nat>, e: Entry, s: seq<nat>, foreign: set<nat>) {
    && AddressedBy(v, e, s)
    && (forall i | 0 <= i < |s| :: s[i] in used && first <= s[i] < |v| && s[i] !in foreign)
    && (forall i, j | 0 <= i < j < |s| :: s[i] != s[j])
    && (|s| > INODE_NUM_DIRECT ==> e.indirect != 0)
    && (e.indirect != 0 ==> e.indirect in used && first <= e.indirect < |v| && e.indirect !in s && e.indirect !in foreign)
    && foreign <= used
  }

  /** The blocks that belong to the file. */
  ghost function Owned(e: Entry, s: seq<nat>): set<nat> {
    Elems(s) + if e.indirect == 0 then {} else {e.indirect}
  }

  /** The blocks that inode_map takes the file to have (inode.c:367-372). */
  function CountedBlocks(e: Entry): nat
    requires |e.addrs| == INODE_NUM_DIRECT
  {
    var n := if e.numBytes == 0 then 0 else (e.numBytes - 1) / BLOCK_SIZE + 1;
    if e.addrs[0] != 0 && n == 0 then 1 else n
  }

  /** The file between operations: it has just the blocks that its size calls for. */
  ghost predicate Settled(v: Disk, e: Entry, s: seq<nat>) {
    && |s| == BlocksFor(e.numBytes) && ZeroFrom(v, e, |s|)
    && (e.indirect != 0 <==> |s| > INODE_NUM_DIRECT)
  }

  /** No address is recorded beyond the first `n`. */
  ghost predicate ZeroFrom(v: Disk, e: Entry, n: nat) {
    && (forall i | n <= i < |e.addrs| :: e.addrs[i] == 0)
    && (e.indirect != 0 ==> e.indirect < |v| && ZeroWordsFrom(v[e.indirect], n))
  }

  ghost predicate ZeroWordsFrom(d: Data, n: nat) {
    forall i | n <= i < INODE_MAX_BLOCKS && INODE_NUM_DIRECT <= i :: Slot(d, i) == 0
  }

  // ---- What the file holds ----

  ghost predicate Readable(v: Disk, s: seq<nat>, n: nat) {
    n <= |s| * BLOCK_SIZE && forall i | 0 <= i < |s| :: s[i] < |v|
  }

  ghost function ByteAt(v: Disk, s: seq<nat>, p: nat): byte
    requires p < |s| * BLOCK_SIZE && forall i | 0 <= i < |s| :: s[i] < |v|
  {
    v[s[p / BLOCK_SIZE]][p % BLOCK_SIZE]
  }

  ghost function Content(v: Disk, s: seq<nat>, n: nat): (c: seq<byte>)
    requires Readable(v, s, n)
    ensures |c| == n
  {
    seq(n, p requires 0 <= p < n => ByteAt(v, s, p))
  }

  // ---- What a write leaves ----

  /** The blocks of the file that inode_map counts at the start of a write, and the ones
      that the write needs in all. */
  function Counted(length: nat): nat { if length == 0 then 1 else BlocksFor(length) }
  function Needed(offset: nat, count: nat): nat { BlocksFor(offset + count) }

  /** 0 + 1 + ... + (m - 1) */
  function Triangle(m: int): nat { if m <= 0 then 0 else m - 1 + Triangle(m - 1) }

  lemma TriangleZero(m: int)
    ensures Triangle(m) == 0 <==> m <= 1
  {
  }

  /** The blocks that a write loses: each time that it grows the file, all those beyond the
      ones counted are replaced. */
  function LostBlocks(length: nat, offset: nat, count: nat): nat { Triangle(Needed(offset, count) - Counted(length)) }

  lemma LostCount(length: nat, offset: nat, count: nat, n: nat)
    requires offset <= length && n == BlocksFor(Max(length, offset + count))
    ensures Triangle(n - Counted(length)) == LostBlocks(length, offset, count)
  {
  }

  /** Position `p` of the new contents is lost: it was written to a block that a later
      step of the same write has replaced by a fresh one. */
  predicate Lost(length: nat, offset: nat, count: nat, p: nat) {
    offset <= p < offset + count && Counted(length) <= p / BLOCK_SIZE && p / BLOCK_SIZE + 1 < Needed(offset, count)
  }

  /** Byte `p` of the contents after the first `m` bytes of `src` have been written. */
  function WriteByte(was: seq<byte>, offset: nat, src: seq<byte>, m: nat, p: nat): byte
    requires offset <= |was| && m <= |src| && p < Max(|was|, offset + m)
  {
    if Lost(|was|, offset, m, p) then 0
    else if offset <= p < offset + m then src[p - offset]
    else was[p]
  }

  /** The contents after inode_write of `src` at `offset`. */
  function WriteResult(was: seq<byte>, offset: nat, src: seq<byte>): (r: seq<byte>)
    requires offset <= |was|
    ensures |r| == Max(|was|, offset + |src|)
  {
    seq(Max(|was|, offset + |src|), p requires 0 <= p < Max(|was|, offset + |src|) => WriteByte(was, offset, src, |src|, p))
  }

  /** The contents that a write is meant to leave. */
  function Splice(was: seq<byte>, offset: nat, src: seq<byte>): seq<byte>
    requires offset <= |was|
  {
    was[..offset] + src + (if offset + |src| < |was| then was[offset + |src|..] else [])
  }

  /** A write does what it is meant to, exactly when it grows the file by at most one
      block beyond those counted at its start (for an empty file, one more), or the
      bytes it loses are zero. */
  lemma WriteExact(was: seq<byte>, offset: nat, src: seq<byte>)
    requires offset <= |was|
    ensures WriteResult(was, offset, src) == Splice(was, offset, src) <==>
      (forall p | offset <= p < offset + |src| && Lost(|was|, offset, |src|, p) :: src[p - offset] == 0)
    ensures Needed(offset, |src|) <= Counted(|was|) + 1 ==> WriteResult(was, offset, src) == Splice(was, offset, src)
  {
    var r, t := WriteResult(was, offset, src), Splice(was, offset, src);
    assert |r| == |t|;
    forall p | 0 <= p < |r| && !Lost(|was|, offset, |src|, p)
      ensures r[p] == t[p]
    {
    }
    if p :| offset <= p < offset + |src| && Lost(|was|, offset, |src|, p) && src[p - offset] != 0 {
      assert r[p] == 0 && t[p] == src[p - offset];
    } else {
      assert r == t;
    }
  }

  /** Growth by more than that loses data for some source of the same length. */
  lemma GrowthLoses(was: seq<byte>, offset: nat, count: nat) returns (src: seq<byte>)
    requires offset <= |was| && Needed(offset, count) > Counted(|was|) + 1
    ensures |src| == count && WriteResult(was, offset, src) != Splice(was, offset, src)
  {
    src := seq(count, _ => 1);
    var p := Counted(|was|) * BLOCK_SIZE;
    assert offset <= p;
    assert p / BLOCK_SIZE == Counted(|was|);
    assert Lost(|was|, offset, count, p);
    WriteExact(was, offset, src);
  }

  /** Reading what was written. */
  lemma ReadBack(was: seq<byte>, offset: nat, src: seq<byte>)
    requires offset <= |was| && Needed(offset, |src|) <= Counted(|was|) + 1
    ensures WriteResult(was, offset, src)[offset..offset + |src|] == src
  {
    WriteExact(was, offset, src);
  }

  // ---- One step of a write ----

  /** After `m` bytes of the write, the file in blocks `s` holds what it should. */
  ghost predicate Written(v: Disk, s: seq<nat>, was: seq<byte>, offset: nat, src: seq<byte>, m: nat)
    requires offset <= |was| && m <= |src|
  {
    && Readable(v, s, Max(|was|, offset + m))
    && forall p | 0 <= p < Max(|was|, offset + m) :: ByteAt(v, s, p) == WriteByte(was, offset, src, m, p)
  }

  /** The state of inode_write after `m` bytes. */
  ghost predicate Progress(first: nat, v: Disk, used: set<nat>, e: Entry, s: seq<nat>, foreign: set<nat>, was: seq<byte>, offset: nat, src: seq<byte>, m: nat) {
    && offset <= |was| && m <= |src| && e.numBytes == |was|
    && FileOk(first, v, used, e, s, foreign) && ZeroFrom(v, e, |s|) && (e.indirect != 0 <==> |s| > INODE_NUM_DIRECT)
    && |s| == BlocksFor(Max(|was|, offset + m)) && Written(v, s, was, offset, src, m)
    && (0 < m < |src| ==> (offset + m) % BLOCK_SIZE == 0)
  }

  /** `bytes` copied into `d` at position `at`. */
  function Patch(d: Data, at: nat, bytes: seq<byte>): Data
    requires at + |bytes| <= BLOCK_SIZE
  {
    d[..at] + bytes + d[at + |bytes|..]
  }

  /** The number of bytes that the step of a copy loop at position `i` of a copy up to
      `end` handles. */
  function Chunk(i: nat, end: nat): nat
    requires i < end
  {
    if i / BLOCK_SIZE == end / BLOCK_SIZE then end - i else BLOCK_SIZE - i % BLOCK_SIZE
  }

  lemma ChunkFits(i: nat, end: nat)
    requires i < end
    ensures 0 < Chunk(i, end) && i + Chunk(i, end) <= end && i % BLOCK_SIZE + Chunk(i, end) <= BLOCK_SIZE
  {
  }

  /** A step ends at the end of a block, or of the copy. */
  lemma ChunkEnds(i: nat, end: nat)
    requires i < end
    ensures i + Chunk(i, end) == end || (i + Chunk(i, end)) % BLOCK_SIZE == 0
    ensures BlocksFor(i + Chunk(i, end)) == i / BLOCK_SIZE + 1
  {
  }

  /** The blocks `t` of the file in `v'` after inode_map for block `k`, when it counted
      `have` blocks: nothing new, or fresh blocks from `have` on. */
  ghost predicate Mapped(v: Disk, s: seq<nat>, v': Disk, t: seq<nat>, have: nat, k: nat) {
    && have <= |s| && k < |t| && |v| == |v'|
    && (forall j | 0 <= j < |t| :: t[j] < |v|) && (forall j | 0 <= j < |s| :: s[j] < |v|)
    && (forall i, j | 0 <= i < j < |t| :: t[i] != t[j])
    && if k < have then
         t == s && forall j | 0 <= j < |s| :: v'[s[j]] == v[s[j]]
       else
         && |t| == k + 1 && s[..have] == t[..have]
         && (forall j | 0 <= j < have :: v'[s[j]] == v[s[j]])
         && forall j | have <= j < |t| :: Blank(v'[t[j]])
  }

  /** `m` bytes have been written, and inode_map has been called for the next `c`. */
  ghost predicate MidWrite(v: Disk, s: seq<nat>, v': Disk, t: seq<nat>, have: nat, was: seq<byte>, offset: nat, src: seq<byte>, m: nat, c: nat) {
    && offset <= |was| && m < |src| && Written(v, s, was, offset, src, m)
    && (m > 0 ==> (offset + m) % BLOCK_SIZE == 0)
    && |s| == BlocksFor(Max(|was|, offset + m))
    && have == (if |was| == 0 then (if |s| == 0 then 0 else 1) else BlocksFor(|was|))
    && Mapped(v, s, v', t, have, (offset + m) / BLOCK_SIZE)
    && c == Chunk(offset + m, offset + |src|) && m + c <= |src| && (offset + m) % BLOCK_SIZE + c <= BLOCK_SIZE
  }

  lemma StepByte(v: Disk, s: seq<nat>, v': Disk, t: seq<nat>, have: nat, was: seq<byte>, offset: nat, src: seq<byte>, m: nat, c: nat, p: nat)
    requires MidWrite(v, s, v', t, have, was, offset, src, m, c)
    requires p < Max(|was|, offset + m + c) && p / BLOCK_SIZE < |t|
    requires !(offset + m <= p < offset + m + c)
    ensures v'[t[p / BLOCK_SIZE]][p % BLOCK_SIZE] == WriteByte(was, offset, src, m + c, p)
  {
    var i, k, q := offset + m, (offset + m) / BLOCK_SIZE, p / BLOCK_SIZE;
    ChunkEnds(i, offset + |src|);
    if q < have {
      assert p < Max(|was|, i) && t[q] == s[q];
      assert ByteAt(v, s, p) == WriteByte(was, offset, src, m, p);
    } else {
      assert q < k;
      assert Lost(|was|, offset, m + c, p);
    }
  }

  lemma MappedLength(v: Disk, s: seq<nat>, v': Disk, t: seq<nat>, have: nat, length: nat, offset: nat, m: nat, c: nat, end: nat)
    requires offset <= length && offset + m < end && c == Chunk(offset + m, end)
    requires m > 0 ==> (offset + m) % BLOCK_SIZE == 0
    requires |s| == BlocksFor(Max(length, offset + m))
    requires have == if length == 0 then (if |s| == 0 then 0 else 1) else BlocksFor(length)
    requires Mapped(v, s, v', t, have, (offset + m) / BLOCK_SIZE)
    ensures |t| == BlocksFor(Max(length, offset + m + c))
  {
    ChunkEnds(offset + m, end);
  }

  lemma PatchAt(d: Data, at: nat, bytes: seq<byte>, x: nat)
    requires at + |bytes| <= BLOCK_SIZE && x < BLOCK_SIZE
    ensures Patch(d, at, bytes)[x] == if at <= x < at + |bytes| then bytes[x - at] else d[x]
  {
  }

  lemma PatchedByte(was: seq<byte>, offset: nat, src: seq<byte>, m: nat, c: nat, p: nat)
    requires offset <= |was| && m < |src| && c == Chunk(offset + m, offset + |src|) && m + c <= |src|
    requires offset + m <= p < offset + m + c
    ensures p / BLOCK_SIZE == (offset + m) / BLOCK_SIZE && p % BLOCK_SIZE == (offset + m) % BLOCK_SIZE + (p - offset - m)
    ensures WriteByte(was, offset, src, m + c, p) == src[m..m + c][p - offset - m]
  {
    ChunkFits(offset + m, offset + |src|);
  }

  lemma StepAnyByte(v: Disk, s: seq<nat>, v': Disk, t: seq<nat>, have: nat, was: seq<byte>, offset: nat, src: seq<byte>, m: nat, c: nat, w: Disk, p: nat)
    requires MidWrite(v, s, v', t, have, was, offset, src, m, c)
    requires var no := t[(offset + m) / BLOCK_SIZE]; w == v'[no := Patch(v'[no], (offset + m) % BLOCK_SIZE, src[m..m + c])]
    requires p < Max(|was|, offset + m + c) && p / BLOCK_SIZE < |t|
    ensures w[t[p / BLOCK_SIZE]][p % BLOCK_SIZE] == WriteByte(was, offset, src, m + c, p)
  {
    var k, q := (offset + m) / BLOCK_SIZE, p / BLOCK_SIZE;
    if offset + m <= p < offset + m + c {
      PatchedByte(was, offset, src, m, c, p);
      PatchAt(v'[t[k]], (offset + m) % BLOCK_SIZE, src[m..m + c], p % BLOCK_SIZE);
    } else {
      StepByte(v, s, v', t, have, was, offset, src, m, c, p);
      if q == k {
        PatchAt(v'[t[k]], (offset + m) % BLOCK_SIZE, src[m..m + c], p % BLOCK_SIZE);
      }
    }
  }

  lemma StepWritten(v: Disk, s: seq<nat>, v': Disk, t: seq<nat>, have: nat, was: seq<byte>, offset: nat, src: seq<byte>, m: nat, c: nat)
    requires MidWrite(v, s, v', t, have, was, offset, src, m, c)
    ensures |t| == BlocksFor(Max(|was|, offset + m + c))
    ensures var no := t[(offset + m) / BLOCK_SIZE];
      Written(v'[no := Patch(v'[no], (offset + m) % BLOCK_SIZE, src[m..m + c])], t, was, offset, src, m + c)
  {
    var i, k := offset + m, (offset + m) / BLOCK_SIZE;
    MappedLength(v, s, v', t, have, |was|, offset, m, c, offset + |src|);
    var w := v'[t[k] := Patch(v'[t[k]], i % BLOCK_SIZE, src[m..m + c])];
    forall p | 0 <= p < Max(|was|, i + c)
      ensures ByteAt(w, t, p) == WriteByte(was, offset, src, m + c, p)
    {
      assert p / BLOCK_SIZE < |t|;
      StepAnyByte(v, s, v', t, have, was, offset, src, m, c, w, p);
    }
  }

  lemma WrittenAll(v: Disk, s: seq<nat>, was: seq<byte>, offset: nat, src: seq<byte>)
    requires offset <= |was| && Written(v, s, was, offset, src, |src|)
    ensures Content(v, s, Max(|was|, offset + |src|)) == WriteResult(was, offset, src)
  {
  }

  lemma WrittenNone(v: Disk, s: seq<nat>, was: seq<byte>, offset: nat, src: seq<byte>)
    requires offset <= |was| && Readable(v, s, |was|) && Content(v, s, |was|) == was
    ensures Written(v, s, was, offset, src, 0)
  {
    forall p | 0 <= p < |was|
      ensures ByteAt(v, s, p) == WriteByte(was, offset, src, 0, p)
    {
      assert ByteAt(v, s, p) == Content(v, s, |was|)[p];
    }
  }

  /** A piece of a block is a piece of the file. */
  lemma ReadChunk(v: Disk, s: seq<nat>, n: nat, i: nat, c: nat)
    requires Readable(v, s, n) && i + c <= n && i % BLOCK_SIZE + c <= BLOCK_SIZE && i / BLOCK_SIZE < |s|
    ensures v[s[i / BLOCK_SIZE]][i % BLOCK_SIZE..i % BLOCK_SIZE + c] == Content(v, s, n)[i..i + c]
  {
    var a, b := v[s[i / BLOCK_SIZE]][i % BLOCK_SIZE..i % BLOCK_SIZE + c], Content(v, s, n)[i..i + c];
    forall x | 0 <= x < c
      ensures a[x] == b[x]
    {
      assert (i + x) / BLOCK_SIZE == i / BLOCK_SIZE && (i + x) % BLOCK_SIZE == i % BLOCK_SIZE + x;
    }
  }
}
