/** Block allocation and the file layer (src/fs/cache.c:450-500, src/fs/inode.c:246-529)
over the blocks as the cache shows them. */
module FileSystem {
  import opened Basics
  import opened Bytes
  import opened WriteAheadLog
  import opened FileSpec
  import opened InodeTable
  import Bitmap

  /** The log, the inode blocks, the bitmap and the data blocks follow each other, and block
      numbers fit in 32 bits. */
  ghost predicate Geometry(sb: SuperBlock, first: nat) {
    && Bitmap.BitmapOk(sb) && 0 < first <= sb.numBlocks < ADDRESS_LIMIT
    && sb.logStart + sb.numLogBlocks <= sb.inodeStart
    && sb.inodeStart + sb.numInodes / INODE_PER_BLOCK < sb.bitmapStart
    && sb.bitmapStart + sb.numBlocks / Bitmap.BIT_PER_BLOCK < first
  }

  /** The bitmap of `v` marks exactly the blocks `used`, all reserved ones among them. */
  ghost predicate Bits(sb: SuperBlock, first: nat, v: Disk, used: set<nat>)
    requires Geometry(sb, first)
  {
    && |v| == sb.numBlocks
    && (forall b <- used :: b < sb.numBlocks)
    && (forall b: nat | b < first :: b in used)
    && forall m: nat {:trigger Bitmap.Marked(sb, v, m)} | m < sb.numBlocks :: Bitmap.Marked(sb, v, m) <==> m in used
  }

  /** The effect of marking block `no`. */
  lemma MarkBits(sb: SuperBlock, first: nat, v: Disk, used: set<nat>, no: nat, on: bool)
    requires Geometry(sb, first) && Bits(sb, first, v, used) && no < sb.numBlocks && (on || first <= no)
    ensures Bits(sb, first, Bitmap.Mark(sb, v, no, on), if on then used + {no} else used - {no})
    ensures forall b | 0 <= b < sb.bitmapStart || first <= b < sb.numBlocks :: Bitmap.Mark(sb, v, no, on)[b] == v[b]
  {
    Bitmap.BitmapBlock(sb, no);
    forall m: nat | m < sb.numBlocks
      ensures Bitmap.Marked(sb, Bitmap.Mark(sb, v, no, on), m) <==> m in if on then used + {no} else used - {no}
    {
      Bitmap.MarkMarked(sb, v, no, on, m);
    }
  }

  /** Data blocks do not bear on the bitmap. */
  lemma DataBits(sb: SuperBlock, first: nat, v: Disk, used: set<nat>, no: nat, d: Data)
    requires Geometry(sb, first) && Bits(sb, first, v, used) && first <= no < sb.numBlocks
    ensures Bits(sb, first, v[no := d], used)
  {
    forall m: nat | m < sb.numBlocks
      ensures Bitmap.Marked(sb, v[no := d], m) <==> m in used
    {
      Bitmap.BitmapBlock(sb, m);
      assert Bitmap.Marked(sb, v, m) <==> m in used;
    }
  }

  /** Nor do the blocks before it. */
  lemma MetaBits(sb: SuperBlock, first: nat, v: Disk, used: set<nat>, no: nat, d: Data)
    requires Geometry(sb, first) && Bits(sb, first, v, used) && no < sb.bitmapStart
    ensures Bits(sb, first, v[no := d], used)
  {
    forall m: nat | m < sb.numBlocks
      ensures Bitmap.Marked(sb, v[no := d], m) <==> m in used
    {
      Bitmap.BitmapBlock(sb, m);
      assert Bitmap.Marked(sb, v, m) <==> m in used;
    }
  }

  lemma BelowUsed(sb: SuperBlock, first: nat, v: Disk, used: set<nat>, n: nat)
    requires Geometry(sb, first) && Bits(sb, first, v, used) && Bitmap.MarkedBelow(sb, v, n) && n <= sb.numBlocks
    ensures forall m: nat | m < n :: m in used
  {
    forall m: nat | m < n
      ensures m in used
    {
      assert Bitmap.Marked(sb, v, m);
    }
  }

  // ---- One more block for a file ----

  /** The data blocks of `bs` are the same in `v` and `v'`. */
  ghost predicate Kept(v: Disk, v': Disk, first: nat, bs: set<nat>) {
    |v| == |v'| && forall b: nat | first <= b < |v| && b in bs :: v'[b] == v[b]
  }

  /** `a` was free, and is now in use and blank. */
  ghost predicate Fresh(v: Disk, v': Disk, first: nat, used: set<nat>, a: nat) {
    first <= a < |v| && a !in used && Kept(v, v', first, used) && Blank(v'[a])
  }

  lemma Shorten(first: nat, v: Disk, used: set<nat>, e: Entry, s: seq<nat>, foreign: set<nat>, n: nat)
    requires FileOk(first, v, used, e, s, foreign) && n <= |s|
    ensures FileOk(first, v, used, e, s[..n], foreign)
  {
  }

  /** addrs[i] = a */
  lemma AddDirect(first: nat, v: Disk, v': Disk, used: set<nat>, e: Entry, s: seq<nat>, foreign: set<nat>, a: nat)
    requires FileOk(first, v, used, e, s, foreign) && Fresh(v, v', first, used, a) && |s| < INODE_NUM_DIRECT
    ensures FileOk(first, v', used + {a}, Entry(e.numBytes, e.addrs[|s| := a], e.indirect), s + [a], foreign)
  {
  }

  /** indirect = a */
  lemma AddIndirectBlock(first: nat, v: Disk, v': Disk, used: set<nat>, e: Entry, s: seq<nat>, foreign: set<nat>, a: nat)
    requires FileOk(first, v, used, e, s, foreign) && Fresh(v, v', first, used, a)
    requires |s| <= INODE_NUM_DIRECT && e.indirect == 0 && 0 < first
    ensures FileOk(first, v', used + {a}, Entry(e.numBytes, e.addrs, a), s, foreign)
  {
  }

  /** indirect->addrs[i] = a */
  lemma AddIndirect(first: nat, v: Disk, v': Disk, used: set<nat>, e: Entry, s: seq<nat>, foreign: set<nat>, a: nat)
    requires FileOk(first, v, used, e, s, foreign) && Fresh(v, v', first, used, a)
    requires INODE_NUM_DIRECT <= |s| < INODE_MAX_BLOCKS && e.indirect != 0 && |v| < ADDRESS_LIMIT
    ensures e.indirect < |v'| && FileOk(first, v'[e.indirect := PutSlot(v'[e.indirect], |s|, a)], used + {a}, e, s + [a], foreign)
  {
    PutSlotAt(v'[e.indirect], |s|, a);
  }

  /** `s` has grown to `t` by blank blocks that were free before. */
  ghost predicate Extended(used: set<nat>, v': Disk, used': set<nat>, s: seq<nat>, t: seq<nat>) {
    && s <= t && used' == used + Elems(t[|s|..])
    && forall i | |s| <= i < |t| :: t[i] !in used && t[i] < |v'| && Blank(v'[t[i]])
  }

  lemma ExtendedNone(v: Disk, used: set<nat>, s: seq<nat>)
    ensures Extended(used, v, used, s, s)
  {
    assert s[|s|..] == [];
  }

  lemma ExtendedMore(first: nat, used0: set<nat>, v: Disk, used: set<nat>, v': Disk, s: seq<nat>, t: seq<nat>, a: nat)
    requires Extended(used0, v, used, s, t) && Fresh(v, v', first, used, a)
    requires forall i | |s| <= i < |t| :: first <= t[i]
    ensures Extended(used0, v', used + {a}, s, t + [a])
  {
    assert (t + [a])[|s|..] == t[|s|..] + [a];
  }

  /** The file with blocks `s` and entry `e` has grown to `t` and `e'`: by blank blocks that
      were free, marking no others, and leaving the contents of all blocks in use alone. */
  ghost predicate Grown(first: nat, v: Disk, used: set<nat>, e: Entry, s: seq<nat>, v': Disk, used': set<nat>, e': Entry, t: seq<nat>) {
    && s <= t && used <= used' && used' == used + Owned(e', t)
    && (forall i | |s| <= i < |t| :: t[i] !in used && t[i] < |v'| && Blank(v'[t[i]]))
    && Kept(v, v', first, used - {e.indirect})
    && e'.numBytes == e.numBytes
    && (if e.indirect != 0 then e'.indirect == e.indirect else e'.indirect == 0 || e'.indirect !in used)
  }

  lemma GrownDirect(first: nat, v: Disk, used: set<nat>, e: Entry, s: seq<nat>, v': Disk, used': set<nat>, e': Entry, t: seq<nat>, foreign: set<nat>)
    requires FileOk(first, v, used, e, s, foreign) && used <= used' && Kept(v, v', first, used)
    requires Extended(used, v', used', s, t) && e'.numBytes == e.numBytes && e'.indirect == e.indirect
    ensures Grown(first, v, used, e, s, v', used', e', t)
  {
    assert used + Elems(t[|s|..]) == used + Owned(e', t) by {
      assert t == s + t[|s|..];
      assert forall x <- s :: x in used;
    }
  }

  /** Filling the direct addresses, then having an indirect block, then filling that. */
  lemma GrownIndirect(first: nat, v: Disk, used: set<nat>, e: Entry, s: seq<nat>,
                      v1: Disk, used1: set<nat>, t1: seq<nat>, v2: Disk, used2: set<nat>, e2: Entry,
                      v3: Disk, used3: set<nat>, t: seq<nat>, foreign: set<nat>)
    requires FileOk(first, v, used, e, s, foreign) && FileOk(first, v2, used2, e2, t1, foreign)
    requires used <= used1 <= used2 <= used3 && e2.numBytes == e.numBytes && e2.indirect != 0
    requires Extended(used, v1, used1, s, t1) && Kept(v, v1, first, used)
    requires Kept(v1, v2, first, used1) && used2 == used1 + {e2.indirect}
    requires if e.indirect != 0 then e2.indirect == e.indirect else e2.indirect !in used1
    requires Extended(used2, v3, used3, t1, t) && Kept(v2, v3, first, used2 - {e2.indirect})
    ensures Grown(first, v, used, e, s, v3, used3, e2, t)
  {
    assert t == s + t1[|s|..] + t[|t1|..];
    forall i | |s| <= i < |t|
      ensures t[i] !in used && t[i] < |v3| && Blank(v3[t[i]])
    {
      if i < |t1| {
        assert t[i] == t1[i];
      }
    }
    assert used3 == used + Owned(e2, t) by {
      assert forall x <- s :: x in used;
    }
  }

  // ---- Writing ----

  lemma CountedIs(first: nat, v: Disk, used: set<nat>, e: Entry, s: seq<nat>, foreign: set<nat>, was: seq<byte>, offset: nat, src: seq<byte>, m: nat)
    requires 0 < first && Progress(first, v, used, e, s, foreign, was, offset, src, m)
    ensures CountedBlocks(e) == if |was| == 0 then (if |s| == 0 then 0 else 1) else BlocksFor(|was|)
    ensures CountedBlocks(e) <= |s|
  {
  }

  /** Where the loop of inode_write has to grow the file, the file ends at that point. */
  lemma GrowsAtEnd(length: nat, offset: nat, m: nat, n: nat, have: nat)
    requires offset <= length && n == BlocksFor(Max(length, offset + m)) && (m > 0 ==> (offset + m) % BLOCK_SIZE == 0)
    requires have == if length == 0 then (if n == 0 then 0 else 1) else BlocksFor(length)
    requires have <= (offset + m) / BLOCK_SIZE
    ensures n == (offset + m) / BLOCK_SIZE && (have == Counted(length) || n == 0)
  {
  }

  /** What inode_map leaves, called for block `k`. */
  ghost predicate MapOutcome(first: nat, v: Disk, used: set<nat>, e: Entry, s: seq<nat>, v': Disk, used': set<nat>, e': Entry, t: seq<nat>, foreign: set<nat>, k: nat)
    requires |e.addrs| == INODE_NUM_DIRECT && CountedBlocks(e) <= |s|
  {
    if k < CountedBlocks(e) then
      v' == v && used' == used && e' == e && t == s
    else
      && FileOk(first, v', used', e', t, foreign) && ZeroFrom(v', e', |t|) && |t| == k + 1
      && Grown(first, v, used, e, s[..CountedBlocks(e)], v', used', e', t)
      && (e'.indirect != 0 ==> |t| > INODE_NUM_DIRECT || e.indirect != 0)
  }

  lemma MapMaps(first: nat, v: Disk, used: set<nat>, e: Entry, s: seq<nat>, foreign: set<nat>, v': Disk, used': set<nat>, e': Entry, t: seq<nat>, k: nat)
    requires 0 < first && FileOk(first, v, used, e, s, foreign) && CountedBlocks(e) <= |s|
    requires MapOutcome(first, v, used, e, s, v', used', e', t, foreign, k)
    ensures Mapped(v, s, v', t, CountedBlocks(e), k) && Kept(v, v', first, foreign)
  {
    var have := CountedBlocks(e);
    if have <= k {
      assert s[..have] == t[..have];
      forall j | 0 <= j < have
        ensures v'[s[j]] == v[s[j]]
      {
        assert s[j] != e.indirect;
      }
    }
  }

  /** Copying data into block `k` of the file. */
  lemma PatchFile(first: nat, v: Disk, used: set<nat>, e: Entry, s: seq<nat>, foreign: set<nat>, k: nat, d: Data)
    requires FileOk(first, v, used, e, s, foreign) && ZeroFrom(v, e, |s|) && k < |s|
    ensures FileOk(first, v[s[k] := d], used, e, s, foreign) && ZeroFrom(v[s[k] := d], e, |s|)
    ensures Kept(v, v[s[k] := d], first, foreign)
  {
  }

  lemma ChunkDone(first: nat, v: Disk, used: set<nat>, e: Entry, s: seq<nat>, foreign: set<nat>, was: seq<byte>, offset: nat, src: seq<byte>, m: nat,
                  v': Disk, used': set<nat>, e': Entry, t: seq<nat>, c: nat, d: Data, w: Disk)
    requires 0 < first && m < |src| && Progress(first, v, used, e, s, foreign, was, offset, src, m)
    requires CountedBlocks(e) <= |s| && MapOutcome(first, v, used, e, s, v', used', e', t, foreign, (offset + m) / BLOCK_SIZE)
    requires c == Chunk(offset + m, offset + |src|) && m + c <= |src| && (offset + m) % BLOCK_SIZE + c <= BLOCK_SIZE
    requires (offset + m) / BLOCK_SIZE < |t|
    requires var no := t[(offset + m) / BLOCK_SIZE]; no < |v'| && d == Patch(v'[no], (offset + m) % BLOCK_SIZE, src[m..m + c]) && w == v'[no := d]
    ensures Progress(first, w, used', e', t, foreign, was, offset, src, m + c)
    ensures Kept(v, w, first, foreign)
  {
    CountedIs(first, v, used, e, s, foreign, was, offset, src, m);
    MapMaps(first, v, used, e, s, foreign, v', used', e', t, (offset + m) / BLOCK_SIZE);
    StepWritten(v, s, v', t, CountedBlocks(e), was, offset, src, m, c);
    PatchFile(first, v', used', e', t, foreign, (offset + m) / BLOCK_SIZE, d);
    ChunkEnds(offset + m, offset + |src|);
  }

  /** Since the start of a write the file has only gained blocks, each of them free before. */
  ghost predicate Since(used0: set<nat>, e0: Entry, s0: seq<nat>, used: set<nat>, e: Entry, t: seq<nat>) {
    && used0 <= used && s0 <= t && (forall i | |s0| <= i < |t| :: t[i] !in used0)
    && (if e0.indirect != 0 then e.indirect == e0.indirect else e.indirect == 0 || e.indirect !in used0)
  }

  /** `gone` are the blocks taken since then that it does not own, because it had to give
      them up: as many as a file of `|t|` blocks has lost that counted `c`. */
  ghost predicate GivenUp(gone: set<nat>, used0: set<nat>, used: set<nat>, e: Entry, t: seq<nat>, c: nat) {
    && (forall x {:trigger x in gone} :: x in gone <==> x in used && x !in used0 && x !in Owned(e, t))
    && |gone| == Triangle(|t| - c)
  }

  lemma SinceStep(first: nat, used0: set<nat>, e0: Entry, s0: seq<nat>, v: Disk, used: set<nat>, e: Entry, s: seq<nat>, foreign: set<nat>,
                  v': Disk, used': set<nat>, e': Entry, t: seq<nat>, k: nat)
    requires 0 < first && FileOk(first, v, used, e, s, foreign) && CountedBlocks(e) <= |s| && |s0| <= CountedBlocks(e)
    requires Since(used0, e0, s0, used, e, s)
    requires MapOutcome(first, v, used, e, s, v', used', e', t, foreign, k)
    requires CountedBlocks(e) <= k ==> |s| == k && (CountedBlocks(e) == Counted(e0.numBytes) || k == 0)
    ensures Since(used0, e0, s0, used', e', t)
  {
    var have := CountedBlocks(e);
    if have <= k {
      assert s0 <= t by {
        assert s0 == s[..have][..|s0|];
      }
    }
  }

  /** The blocks beyond the first `have` are given up, and no others. */
  lemma GivesUp(gone: set<nat>, used0: set<nat>, used: set<nat>, e: Entry, s: seq<nat>, used': set<nat>, e': Entry, t: seq<nat>, have: nat, more: set<nat>, gone': set<nat>)
    requires have <= |s| && have <= |t| && s[..have] == t[..have] && Owned(e, s) <= used && used' == used + Owned(e', t)
    requires (forall i | have <= i < |s| :: s[i] !in used0) && (forall i | have <= i < |t| :: t[i] !in used)
    requires Unique(s) && (if e.indirect != 0 then e'.indirect == e.indirect && e.indirect !in s else e'.indirect == 0 || e'.indirect !in used)
    requires more == Elems(s[have..]) && (forall x {:trigger x in gone} :: x in gone <==> x in used && x !in used0 && x !in Owned(e, s))
    requires gone' == gone + more
    ensures gone !! more && forall x {:trigger x in gone'} :: x in gone' <==> x in used' && x !in used0 && x !in Owned(e', t)
  {
    forall x <- more
      ensures x in s && x !in used0 && x !in Owned(e', t)
    {
      var i :| have <= i < |s| && s[i] == x;
      StaysOut(s, t, have, i);
    }
    forall x | x in used
      ensures x in Owned(e', t) || x in more <==> x in Owned(e, s)
    {
      InEither(s, t, have, x);
    }
  }

  lemma StaysOut(s: seq<nat>, t: seq<nat>, have: nat, i: nat)
    requires have <= i < |s| && have <= |t| && s[..have] == t[..have] && Unique(s)
    ensures forall j | 0 <= j < have :: t[j] != s[i]
  {
    assert forall j | 0 <= j < have :: t[j] == t[..have][j] == s[..have][j] == s[j];
  }

  lemma InEither(s: seq<nat>, t: seq<nat>, have: nat, x: nat)
    requires have <= |s| && have <= |t| && s[..have] == t[..have] && forall i | have <= i < |t| :: t[i] != x
    ensures x in t || x in s[have..] <==> x in s
  {
    assert s == s[..have] + s[have..] && t == t[..have] + t[have..];
    assert x !in t[have..];
  }

  lemma MoreGone(gone: set<nat>, used0: set<nat>, used: set<nat>, e: Entry, s: seq<nat>, used': set<nat>, e': Entry, t: seq<nat>, have: nat, c: nat) returns (gone': set<nat>)
    requires have <= |s| && |t| == |s| + 1 && s[..have] == t[..have] && Owned(e, s) <= used && used' == used + Owned(e', t)
    requires (forall i | have <= i < |s| :: s[i] !in used0) && (forall i | have <= i < |t| :: t[i] !in used)
    requires Unique(s) && (if e.indirect != 0 then e'.indirect == e.indirect && e.indirect !in s else e'.indirect == 0 || e'.indirect !in used)
    requires GivenUp(gone, used0, used, e, s, c) && (have == c || (|s| == 0 && 0 < c))
    ensures GivenUp(gone', used0, used', e', t, c)
  {
    var more := Elems(s[have..]);
    gone' := gone + more;
    GivesUp(gone, used0, used, e, s, used', e', t, have, more, gone');
    MoreCount(gone, s, have, c, more);
  }

  lemma MoreCount(gone: set<nat>, s: seq<nat>, have: nat, c: nat, more: set<nat>)
    requires have <= |s| && Unique(s) && more == Elems(s[have..]) && gone !! more
    requires |gone| == Triangle(|s| - c) && (have == c || (|s| == 0 && 0 < c))
    ensures |gone + more| == Triangle(|s| + 1 - c)
  {
    UniqueSize(s[have..]);
    assert |more| == |s| - have;
  }

  lemma CountGivenUp(first: nat, used0: set<nat>, e0: Entry, s0: seq<nat>, v: Disk, used: set<nat>, e: Entry, s: seq<nat>, foreign: set<nat>,
                     v': Disk, used': set<nat>, e': Entry, t: seq<nat>, k: nat, gone: set<nat>) returns (gone': set<nat>)
    requires 0 < first && FileOk(first, v, used, e, s, foreign) && CountedBlocks(e) <= |s| && |s0| <= CountedBlocks(e)
    requires Since(used0, e0, s0, used, e, s)
    requires MapOutcome(first, v, used, e, s, v', used', e', t, foreign, k)
    requires CountedBlocks(e) <= k ==> |s| == k && (CountedBlocks(e) == Counted(e0.numBytes) || k == 0)
    requires GivenUp(gone, used0, used, e, s, Counted(e0.numBytes))
    ensures GivenUp(gone', used0, used', e', t, Counted(e0.numBytes))
  {
    var have := CountedBlocks(e);
    gone' := gone;
    if have <= k {
      OwnedUsed(first, v, used, e, s, foreign);
      assert s[..have] == t[..have];
      gone' := MoreGone(gone, used0, used, e, s, used', e', t, have, Counted(e0.numBytes));
    }
  }

  /** The state of inode_write after `m` bytes, against the state `v0`, `used0`, `e0`, `s0`
      in which it began. */
  ghost predicate Running(first: nat, foreign: set<nat>, was: seq<byte>, offset: nat, src: seq<byte>,
                          v0: Disk, used0: set<nat>, e0: Entry, s0: seq<nat>, v: Disk, used: set<nat>, e: Entry, t: seq<nat>, m: nat) {
    && Progress(first, v, used, e, t, foreign, was, offset, src, m)
    && Kept(v0, v, first, foreign) && Since(used0, e0, s0, used, e, t)
    && e0.numBytes == |was| && |s0| == BlocksFor(|was|)
  }

  /** Whether inode_map may be called for block `k`. */
  ghost predicate MapReady(first: nat, v: Disk, used: set<nat>, e: Entry, s: seq<nat>, foreign: set<nat>, k: nat) {
    && FileOk(first, v, used, e, s, foreign) && ZeroFrom(v, e, |s|)
    && CountedBlocks(e) <= |s| && (CountedBlocks(e) <= k ==> |s| <= k + 1)
  }

  lemma RunningReady(first: nat, foreign: set<nat>, was: seq<byte>, offset: nat, src: seq<byte>,
                     v0: Disk, used0: set<nat>, e0: Entry, s0: seq<nat>, v: Disk, used: set<nat>, e: Entry, t: seq<nat>, m: nat)
    requires 0 < first && m < |src| && Running(first, foreign, was, offset, src, v0, used0, e0, s0, v, used, e, t, m)
    ensures MapReady(first, v, used, e, t, foreign, (offset + m) / BLOCK_SIZE)
    ensures |s0| <= CountedBlocks(e)
    ensures CountedBlocks(e) <= (offset + m) / BLOCK_SIZE ==>
      && |t| == (offset + m) / BLOCK_SIZE
      && (CountedBlocks(e) == Counted(e0.numBytes) || |t| == 0)
  {
    CountedIs(first, v, used, e, t, foreign, was, offset, src, m);
    if CountedBlocks(e) <= (offset + m) / BLOCK_SIZE {
      GrowsAtEnd(|was|, offset, m, |t|, CountedBlocks(e));
    }
  }

  lemma RunningStep(first: nat, foreign: set<nat>, was: seq<byte>, offset: nat, src: seq<byte>,
                    v0: Disk, used0: set<nat>, e0: Entry, s0: seq<nat>, v: Disk, used: set<nat>, e: Entry, t: seq<nat>, m: nat,
                    v': Disk, used': set<nat>, e': Entry, t': seq<nat>, c: nat, d: Data, w: Disk)
    requires 0 < first && m < |src| && Running(first, foreign, was, offset, src, v0, used0, e0, s0, v, used, e, t, m)
    requires MapReady(first, v, used, e, t, foreign, (offset + m) / BLOCK_SIZE)
    requires MapOutcome(first, v, used, e, t, v', used', e', t', foreign, (offset + m) / BLOCK_SIZE)
    requires c == Chunk(offset + m, offset + |src|) && m + c <= |src| && (offset + m) % BLOCK_SIZE + c <= BLOCK_SIZE
    requires (offset + m) / BLOCK_SIZE < |t'|
    requires var no := t'[(offset + m) / BLOCK_SIZE]; no < |v'| && d == Patch(v'[no], (offset + m) % BLOCK_SIZE, src[m..m + c]) && w == v'[no := d]
    ensures Running(first, foreign, was, offset, src, v0, used0, e0, s0, w, used', e', t', m + c)
  {
    RunningReady(first, foreign, was, offset, src, v0, used0, e0, s0, v, used, e, t, m);
    ChunkDone(first, v, used, e, t, foreign, was, offset, src, m, v', used', e', t', c, d, w);
    SinceStep(first, used0, e0, s0, v, used, e, t, foreign, v', used', e', t', (offset + m) / BLOCK_SIZE);
  }

  lemma RunningStart(first: nat, foreign: set<nat>, was: seq<byte>, offset: nat, src: seq<byte>, v: Disk, used: set<nat>, e: Entry, s: seq<nat>)
    requires FileOk(first, v, used, e, s, foreign) && Settled(v, e, s) && offset <= e.numBytes
    requires was == Content(v, s, e.numBytes)
    ensures Running(first, foreign, was, offset, src, v, used, e, s, v, used, e, s, 0)
  {
    WrittenNone(v, s, was, offset, src);
    assert Owned(e, s) <= used;
  }

  lemma RunningEnd(first: nat, foreign: set<nat>, was: seq<byte>, offset: nat, src: seq<byte>,
                   v0: Disk, used0: set<nat>, e0: Entry, s0: seq<nat>, v: Disk, used: set<nat>, e: Entry, t: seq<nat>, e': Entry)
    requires Running(first, foreign, was, offset, src, v0, used0, e0, s0, v, used, e, t, |src|)
    requires e' == Entry(Max(e.numBytes, offset + |src|), e.addrs, e.indirect)
    ensures WriteDone(first, foreign, was, offset, src, v0, used0, e0, s0, v, used, e', t)
  {
    WrittenAll(v, t, was, offset, src);
  }

  /** What inode_write leaves. */
  ghost predicate WriteDone(first: nat, foreign: set<nat>, was: seq<byte>, offset: nat, src: seq<byte>,
                            v0: Disk, used0: set<nat>, e0: Entry, s0: seq<nat>, v: Disk, used: set<nat>, e: Entry, t: seq<nat>) {
    && offset <= |was| && FileOk(first, v, used, e, t, foreign) && Settled(v, e, t)
    && Content(v, t, e.numBytes) == WriteResult(was, offset, src)
    && Kept(v0, v, first, foreign) && Since(used0, e0, s0, used, e, t)
  }

  // ---- Writing an entry back ----

  ghost predicate SameData(v: Disk, v': Disk, first: nat) {
    |v| == |v'| && forall b: nat | first <= b < |v| :: v'[b] == v[b]
  }

  lemma FileFits(first: nat, v: Disk, used: set<nat>, e: Entry, s: seq<nat>, foreign: set<nat>)
    requires FileOk(first, v, used, e, s, foreign) && ZeroFrom(v, e, |s|) && |v| < ADDRESS_LIMIT && e.numBytes < ADDRESS_LIMIT
    ensures Fits(e)
  {
    forall i | 0 <= i < INODE_NUM_DIRECT
      ensures e.addrs[i] < ADDRESS_LIMIT
    {
      if i < |s| {
        assert e.addrs[i] == s[i];
      }
    }
  }

  lemma FileSame(first: nat, v: Disk, w: Disk, used: set<nat>, e: Entry, s: seq<nat>, foreign: set<nat>)
    requires 0 < first && FileOk(first, v, used, e, s, foreign) && SameData(v, w, first)
    ensures FileOk(first, w, used, e, s, foreign)
    ensures forall n: nat | ZeroFrom(v, e, n) :: ZeroFrom(w, e, n)
  {
  }

  lemma MapOutcomeSame(first: nat, v: Disk, used: set<nat>, e: Entry, s: seq<nat>, v': Disk, used': set<nat>, e': Entry, t: seq<nat>, foreign: set<nat>, k: nat, w: Disk)
    requires 0 < first && |e.addrs| == INODE_NUM_DIRECT && CountedBlocks(e) <= |s| && CountedBlocks(e) <= k
    requires MapOutcome(first, v, used, e, s, v', used', e', t, foreign, k) && SameData(v', w, first)
    ensures MapOutcome(first, v, used, e, s, w, used', e', t, foreign, k)
  {
    FileSame(first, v', w, used', e', t, foreign);
  }

  lemma WriteDoneSame(first: nat, foreign: set<nat>, was: seq<byte>, offset: nat, src: seq<byte>,
                      v0: Disk, used0: set<nat>, e0: Entry, s0: seq<nat>, v: Disk, used: set<nat>, e: Entry, t: seq<nat>, w: Disk)
    requires 0 < first && WriteDone(first, foreign, was, offset, src, v0, used0, e0, s0, v, used, e, t) && SameData(v, w, first)
    ensures WriteDone(first, foreign, was, offset, src, v0, used0, e0, s0, w, used, e, t)
  {
    FileSame(first, v, w, used, e, t, foreign);
    assert Content(w, t, e.numBytes) == Content(v, t, e.numBytes);
  }

  /** `b` differs from `a` at `n` at most. */
  ghost predicate OnlyAt(a: map<nat, Entry>, b: map<nat, Entry>, n: nat) { n in b && b == a[n := b[n]] }

  // ---- All the files ----

  /** The sets `own` are disjoint, and with `lost` they make up the data blocks in use. */
  ghost predicate Partition(first: nat, used: set<nat>, own: map<nat, set<nat>>, lost: set<nat>) {
    && lost <= used && (forall i <- own :: own[i] <= used && own[i] !! lost)
    && (forall i <- own, j <- own | i != j :: own[i] !! own[j])
    && (forall b <- used :: b < first || b in lost || exists i <- own :: b in own[i])
  }

  lemma Repartition(first: nat, used: set<nat>, own: map<nat, set<nat>>, lost: set<nat>, n: nat, used': set<nat>, o: set<nat>, lost': set<nat>)
    requires Partition(first, used, own, lost) && n in own
    requires used - own[n] <= used' && own[n] * used' <= o <= used' && o * used <= own[n]
    requires lost' == lost + (used' - used - o)
    ensures Partition(first, used', own[n := o], lost')
  {
    var own' := own[n := o];
    forall i <- own | i != n
      ensures own[i] <= used' && own[i] !! o && own[i] !! lost'
    {
      assert own[i] !! own[n];
    }
    forall b <- used' | first <= b && b !in lost'
      ensures exists i <- own' :: b in own'[i]
    {
      if b in o {
        assert b in own'[n];
      } else {
        var i :| i in own && b in own[i];
        assert i != n && b in own'[i];
      }
    }
  }

  /** The file `e` lies in the blocks `s` and holds `bytes`. */
  ghost predicate Whole(first: nat, v: Disk, used: set<nat>, e: Entry, s: seq<nat>, bytes: seq<byte>) {
    FileOk(first, v, used, e, s, {}) && Settled(v, e, s) && Content(v, s, e.numBytes) == bytes
  }

  ghost predicate AllWhole(first: nat, v: Disk, used: set<nat>, table: map<nat, Entry>, where: map<nat, seq<nat>>, files: map<nat, seq<byte>>) {
    && table.Keys == where.Keys == files.Keys
    && forall i <- table :: Whole(first, v, used, table[i], where[i], files[i])
  }

  ghost function OwnMap(table: map<nat, Entry>, where: map<nat, seq<nat>>): map<nat, set<nat>>
    requires table.Keys == where.Keys
  {
    map i | i in table :: Owned(table[i], where[i])
  }

  /** Each file of `table` holds the contents of `files` in the blocks of `where`, no two
      in the same one, and every data block in use belongs to a file or is `lost`. */
  ghost predicate Owners(first: nat, v: Disk, used: set<nat>, table: map<nat, Entry>, where: map<nat, seq<nat>>, files: map<nat, seq<byte>>, lost: set<nat>) {
    AllWhole(first, v, used, table, where, files) && Partition(first, used, OwnMap(table, where), lost)
  }

  /** What there is to know of a volume beside the contents of its files. */
  datatype Catalog = Catalog(used: set<nat>, table: map<nat, Entry>, where: map<nat, seq<nat>>, lost: set<nat>)

  /** The disk `v` holds the files `files`, as its bitmap and inode entries have it. */
  ghost predicate HoldsBy(sb: SuperBlock, first: nat, v: Disk, files: map<nat, seq<byte>>, g: Catalog) {
    && Geometry(sb, first) && Bits(sb, first, v, g.used) && Inodes(sb, v, g.table)
    && Owners(first, v, g.used, g.table, g.where, files, g.lost)
  }

  ghost predicate Holds(sb: SuperBlock, first: nat, v: Disk, files: map<nat, seq<byte>>) {
    exists g :: HoldsBy(sb, first, v, files, g)
  }

  /** Seen from one file, the blocks in use that are not its own are foreign. */
  lemma OwnFile(first: nat, v: Disk, used: set<nat>, e: Entry, s: seq<nat>)
    requires FileOk(first, v, used, e, s, {})
    ensures FileOk(first, v, used, e, s, used - Owned(e, s))
  {
  }

  lemma OwnedUsed(first: nat, v: Disk, used: set<nat>, e: Entry, s: seq<nat>, foreign: set<nat>)
    requires FileOk(first, v, used, e, s, foreign)
    ensures Owned(e, s) <= used
  {
  }

  /** A file in blocks that have not changed has not changed. */
  lemma SameFile(first: nat, v: Disk, used: set<nat>, e: Entry, s: seq<nat>, bytes: seq<byte>, v': Disk, used': set<nat>)
    requires 0 < first && Whole(first, v, used, e, s, bytes)
    requires Kept(v, v', first, Owned(e, s)) && Owned(e, s) <= used'
    ensures Whole(first, v', used', e, s, bytes)
  {
    forall i | 0 <= i < |s|
      ensures v'[s[i]] == v[s[i]] && s[i] in used'
    {
      assert s[i] in Owned(e, s);
    }
    assert e.indirect != 0 ==> e.indirect in Owned(e, s);
    assert Content(v', s, e.numBytes) == Content(v, s, e.numBytes);
  }

  /** One file has changed, in its own blocks and ones that were free. */
  ghost predicate Changed(first: nat, v: Disk, used: set<nat>, e: Entry, s: seq<nat>, v': Disk, used': set<nat>, e': Entry, t: seq<nat>) {
    && Kept(v, v', first, used - Owned(e, s)) && used - Owned(e, s) <= used'
    && Owned(e, s) * used' <= Owned(e', t) <= used' && Owned(e', t) * used <= Owned(e, s)
  }

  lemma FileAfter(first: nat, v: Disk, used: set<nat>, table: map<nat, Entry>, where: map<nat, seq<nat>>, files: map<nat, seq<byte>>, lost: set<nat>,
                  n: nat, v': Disk, used': set<nat>, e': Entry, t: seq<nat>, i: nat)
    requires 0 < first && Owners(first, v, used, table, where, files, lost) && n in table && i in table && i != n
    requires Changed(first, v, used, table[n], where[n], v', used', e', t)
    ensures Whole(first, v', used', table[i], where[i], files[i])
  {
    var own := OwnMap(table, where);
    assert own[i] !! own[n] && own[i] <= used;
    SameFile(first, v, used, table[i], where[i], files[i], v', used');
  }

  lemma OwnMapUpdate(table: map<nat, Entry>, where: map<nat, seq<nat>>, n: nat, e: Entry, t: seq<nat>)
    requires table.Keys == where.Keys && n in table
    ensures OwnMap(table[n := e], where[n := t]) == OwnMap(table, where)[n := Owned(e, t)]
  {
  }

  lemma OwnersAfter(first: nat, v: Disk, used: set<nat>, table: map<nat, Entry>, where: map<nat, seq<nat>>, files: map<nat, seq<byte>>, lost: set<nat>,
                    n: nat, v': Disk, used': set<nat>, e': Entry, t: seq<nat>, lost': set<nat>)
    requires Owners(first, v, used, table, where, files, lost) && n in table
    requires Changed(first, v, used, table[n], where[n], v', used', e', t)
    requires lost' == lost + (used' - used - Owned(e', t))
    ensures Partition(first, used', OwnMap(table[n := e'], where[n := t]), lost')
  {
    Repartition(first, used, OwnMap(table, where), lost, n, used', Owned(e', t), lost');
    OwnMapUpdate(table, where, n, e', t);
  }

  lemma OneChanged(first: nat, v: Disk, used: set<nat>, table: map<nat, Entry>, where: map<nat, seq<nat>>, files: map<nat, seq<byte>>, lost: set<nat>,
                   n: nat, v': Disk, used': set<nat>, e': Entry, t: seq<nat>, bytes: seq<byte>, lost': set<nat>)
    requires 0 < first && Owners(first, v, used, table, where, files, lost) && n in table
    requires Changed(first, v, used, table[n], where[n], v', used', e', t) && Whole(first, v', used', e', t, bytes)
    requires lost' == lost + (used' - used - Owned(e', t))
    ensures Owners(first, v', used', table[n := e'], where[n := t], files[n := bytes], lost')
  {
    OwnersAfter(first, v, used, table, where, files, lost, n, v', used', e', t, lost');
    forall i <- table | i != n
      ensures Whole(first, v', used', table[i], where[i], files[i])
    {
      FileAfter(first, v, used, table, where, files, lost, n, v', used', e', t, i);
    }
  }

  lemma WriteChanges(first: nat, was: seq<byte>, offset: nat, src: seq<byte>,
                     v: Disk, used: set<nat>, e: Entry, s: seq<nat>, v': Disk, used': set<nat>, e': Entry, t: seq<nat>)
    requires FileOk(first, v, used, e, s, {}) && e.numBytes == |was|
    requires WriteDone(first, used - Owned(e, s), was, offset, src, v, used, e, s, v', used', e', t)
    ensures Changed(first, v, used, e, s, v', used', e', t)
    ensures Whole(first, v', used', e', t, WriteResult(was, offset, src))
  {
    assert forall x <- s :: x in t;
    OwnedUsed(first, v', used', e', t, used - Owned(e, s));
  }

  /** The lost blocks are those lost before and those given up. */
  lemma LostMore(first: nat, used: set<nat>, own: map<nat, set<nat>>, lost: set<nat>, used': set<nat>, e: Entry, t: seq<nat>, lose: set<nat>, c: nat)
    requires Partition(first, used, own, lost) && GivenUp(lose, used, used', e, t, c)
    ensures lose == used' - used - Owned(e, t) && |lost + lose| == |lost| + |lose|
  {
    assert lost !! lose;
  }

  lemma WriteOwners(first: nat, v: Disk, used: set<nat>, table: map<nat, Entry>, where: map<nat, seq<nat>>, files: map<nat, seq<byte>>, lost: set<nat>,
                    n: nat, offset: nat, src: seq<byte>, v': Disk, used': set<nat>, e': Entry, t: seq<nat>, lose: set<nat>)
    requires 0 < first && Owners(first, v, used, table, where, files, lost) && n in table
    requires WriteDone(first, used - Owned(table[n], where[n]), files[n], offset, src, v, used, table[n], where[n], v', used', e', t)
    requires GivenUp(lose, used, used', e', t, Counted(|files[n]|))
    ensures Owners(first, v', used', table[n := e'], where[n := t], files[n := WriteResult(files[n], offset, src)], lost + lose)
    ensures |lost + lose| == |lost| + |lose|
  {
    assert Whole(first, v, used, table[n], where[n], files[n]);
    WriteChanges(first, files[n], offset, src, v, used, table[n], where[n], v', used', e', t);
    LostMore(first, used, OwnMap(table, where), lost, used', e', t, lose, Counted(|files[n]|));
    OneChanged(first, v, used, table, where, files, lost, n, v', used', e', t, WriteResult(files[n], offset, src), lost + lose);
  }

  lemma ClearOwners(first: nat, v: Disk, used: set<nat>, table: map<nat, Entry>, where: map<nat, seq<nat>>, files: map<nat, seq<byte>>, lost: set<nat>,
                    n: nat, v': Disk, used': set<nat>, e': Entry, foreign: set<nat>)
    requires 0 < first && Owners(first, v, used, table, where, files, lost) && n in table
    requires foreign == used - Owned(table[n], where[n]) && used' == used - Owned(table[n], where[n]) && Kept(v, v', first, foreign)
    requires e'.numBytes == 0 && FileOk(first, v', used', e', [], foreign) && Settled(v', e', [])
    ensures Owners(first, v', used', table[n := e'], where[n := []], files[n := []], lost)
  {
    assert Whole(first, v, used, table[n], where[n], files[n]);
    ClearChanges(first, v, used, table[n], where[n], v', used', e', foreign);
    OneChanged(first, v, used, table, where, files, lost, n, v', used', e', [], [], lost);
  }

  lemma ClearChanges(first: nat, v: Disk, used: set<nat>, e: Entry, s: seq<nat>, v': Disk, used': set<nat>, e': Entry, foreign: set<nat>)
    requires FileOk(first, v, used, e, s, {}) && foreign == used - Owned(e, s) && used' == used - Owned(e, s) && Kept(v, v', first, foreign)
    requires e'.numBytes == 0 && FileOk(first, v', used', e', [], foreign) && Settled(v', e', [])
    ensures Changed(first, v, used, e, s, v', used', e', []) && Whole(first, v', used', e', [], [])
    ensures used' - used - Owned(e', []) == {}
  {
    assert Owned(e', []) == {};
  }

  lemma Mountable(sb: SuperBlock, first: nat, v: Disk, files: map<nat, seq<byte>>, g: Catalog, entries: map<nat, Entry>)
    requires HoldsBy(sb, first, v, files, g) && entries == g.table
    ensures Geometry(sb, first) && Bits(sb, first, v, g.used) && TableOn(sb, v, v, entries)
    ensures Owners(first, v, g.used, entries, g.where, files, g.lost)
  {
    AroundSelf(sb, v, entries.Keys);
  }

  lemma BlankInodes(sb: SuperBlock, first: nat, v: Disk, table: map<nat, Entry>)
    requires Geometry(sb, first) && |v| == sb.numBlocks && forall b | 0 <= b < sb.bitmapStart :: Blank(v[b])
    requires forall n <- table :: n < sb.numInodes && table[n] == NoEntry()
    ensures Inodes(sb, v, table)
  {
    forall n <- table
      ensures EntryIs(sb, v, n, table[n])
    {
      assert n / INODE_PER_BLOCK <= sb.numInodes / INODE_PER_BLOCK;
      BlankEntry(v[InodeBlock(sb, n)], n % INODE_PER_BLOCK);
    }
  }

  lemma EmptyFiles(first: nat, v: Disk, used: set<nat>, table: map<nat, Entry>, where: map<nat, seq<nat>>, files: map<nat, seq<byte>>)
    requires table.Keys == where.Keys == files.Keys && forall b <- used :: b < first
    requires forall n <- table :: table[n] == NoEntry() && where[n] == [] && files[n] == []
    ensures Owners(first, v, used, table, where, files, {})
  {
    forall n <- table
      ensures Whole(first, v, used, table[n], where[n], files[n]) && Owned(table[n], where[n]) == {}
    {
    }
  }

  lemma JoinSlices(s: seq<byte>, a: nat, b: nat, c: nat)
    requires a <= b <= c <= |s|
    ensures s[a..c] == s[a..b] + s[b..c]
  {
  }

  class Volume {
    const sb: SuperBlock
    const first: nat
    var blocks: Disk
    ghost var used: set<nat>
    /** The disk as it was at first. */
    ghost const origin: Disk
    /** The inode entries on disk. */
    ghost var onDisk: map<nat, Entry>

    /** The entry of each inode, the blocks where its file lies, and the contents. */
    var table: map<nat, Entry>
    ghost var where: map<nat, seq<nat>>
    ghost var files: map<nat, seq<byte>>
    /** Blocks marked as used that no file owns. */
    ghost var lost: set<nat>

    ghost predicate Valid()
      reads `blocks, `used, `onDisk
    {
      Geometry(sb, first) && Bits(sb, first, blocks, used) && TableOn(sb, origin, blocks, onDisk)
    }

    /** No block is free. */
    ghost predicate Full()
      reads `used
    {
      forall m: nat | m < sb.numBlocks :: m in used
    }

    ghost predicate Consistent()
      reads this
    {
      Valid() && Owners(first, blocks, used, table, where, files, lost) && onDisk == table
    }

    /** The volume on a disk that holds `files`, whose entries are read in. */
    constructor Mount(sb: SuperBlock, first: nat, blocks: Disk, inodes: set<nat>, ghost files: map<nat, seq<byte>>, ghost g: Catalog)
      requires HoldsBy(sb, first, blocks, files, g) && inodes == g.table.Keys
      ensures Consistent() && this.sb == sb && this.first == first && this.blocks == blocks && this.files == files
    {
      TableRead(sb, blocks, g.table);
      var entries := ReadTable(sb, blocks, inodes);
      Mountable(sb, first, blocks, files, g, entries);
      this.sb, this.first, this.blocks, table := sb, first, blocks, entries;
      used, where, lost, this.files, onDisk, origin := g.used, g.where, g.lost, files, entries, blocks;
    }

    /** What mkfs makes before it puts in any files: zeros, and a bitmap that marks the blocks
        before the data. Every inode has an empty file. */
    constructor Format(sb: SuperBlock, first: nat)
      requires Geometry(sb, first)
      ensures Consistent() && this.sb == sb && this.first == first && lost == {}
      ensures used == Upto(first) && files == map n | n in Upto(sb.numInodes) :: []
    {
      var zeros: Disk := seq(sb.numBlocks, _ => seq(BLOCK_SIZE, _ => 0));
      forall m: nat | m < sb.numBlocks
        ensures !Bitmap.Marked(sb, zeros, m)
      {
        Bitmap.ZerosUnmarked(sb, zeros, m);
      }
      var v := Bitmap.MarkFirst(sb, zeros, first);
      var entries := map n | n in Upto(sb.numInodes) :: NoEntry();
      ghost var nowhere: map<nat, seq<nat>> := map n | n in Upto(sb.numInodes) :: [];
      ghost var empty: map<nat, seq<byte>> := map n | n in Upto(sb.numInodes) :: [];
      BlankInodes(sb, first, v, entries);
      EmptyFiles(first, v, Upto(first), entries, nowhere, empty);
      this.sb, this.first, blocks, table := sb, first, v, entries;
      used, lost, onDisk, where, files, origin := Upto(first), {}, entries, nowhere, empty, v;
      AroundSelf(sb, v, entries.Keys);
    }

    /** What the volume holds is on its disk. */
    lemma OnDisk()
      requires Consistent()
      ensures Holds(sb, first, blocks, files)
    {
      assert HoldsBy(sb, first, blocks, files, Catalog(used, table, where, lost));
    }

    /** cache_alloc; false stands for its panic on a full disk. */
    method Alloc() returns (ok: bool, no: nat)
      requires Valid()
      modifies `blocks, `used
      ensures Valid()
      ensures ok ==> first <= no < sb.numBlocks && no !in old(used) && (forall m: nat | m < no :: m in old(used))
      ensures ok ==> used == old(used) + {no} && Blank(blocks[no])
      ensures ok ==> forall b | first <= b < sb.numBlocks && b != no :: blocks[b] == old(blocks)[b]
      ensures !ok ==> Full() && used == old(used) && blocks == old(blocks)
    {
      ok, no := Bitmap.FindFree(sb, blocks);
      BelowUsed(sb, first, blocks, used, if ok then no else sb.numBlocks);
      if ok {
        MarkBits(sb, first, blocks, used, no, true);
        Bitmap.BitmapBlock(sb, no);
        var i := sb.bitmapStart + no / Bitmap.BIT_PER_BLOCK;
        blocks := blocks[i := Bitmap.Put(blocks[i], no % Bitmap.BIT_PER_BLOCK, true)];
        used := used + {no};
        var zeros: Data := seq(BLOCK_SIZE, _ => 0);
        DataBits(sb, first, blocks, used, no, zeros);
        blocks := blocks[no := zeros];
        TableKept(sb, origin, old(blocks), blocks, onDisk);
      }
    }

    /** cache_free */
    method Free(no: nat)
      requires Valid() && first <= no < sb.numBlocks
      modifies `blocks, `used
      ensures Valid() && used == old(used) - {no}
      ensures forall b | first <= b < sb.numBlocks :: blocks[b] == old(blocks)[b]
    {
      MarkBits(sb, first, blocks, used, no, false);
      Bitmap.BitmapBlock(sb, no);
      var i := sb.bitmapStart + no / Bitmap.BIT_PER_BLOCK;
      blocks := blocks[i := Bitmap.Put(blocks[i], no % Bitmap.BIT_PER_BLOCK, false)];
      used := used - {no};
      TableKept(sb, origin, old(blocks), blocks, onDisk);
    }

    /** bcache.sync of a block of data. */
    method Store(no: nat, d: Data)
      requires Valid() && first <= no < |blocks|
      modifies `blocks
      ensures Valid() && blocks == old(blocks)[no := d]
    {
      DataBits(sb, first, blocks, used, no, d);
      blocks := blocks[no := d];
      TableKept(sb, origin, old(blocks), blocks, onDisk);
    }

    /** inode_sync of inode `n`, whose entry is now `e`. */
    method SyncEntry(n: nat, e: Entry)
      requires Valid() && n in onDisk && Fits(e)
      modifies `blocks, `onDisk
      ensures Valid() && onDisk == old(onDisk)[n := e] && SameData(old(blocks), blocks, first)
      ensures Around(sb, old(blocks), blocks, {n})
    {
      assert EntryIs(sb, blocks, n, onDisk[n]);
      assert n / INODE_PER_BLOCK <= sb.numInodes / INODE_PER_BLOCK;
      TablePut(sb, origin, blocks, onDisk, n, e);
      MetaBits(sb, first, blocks, used, InodeBlock(sb, n), PutOn(sb, blocks, n, e)[InodeBlock(sb, n)]);
      blocks := PutOn(sb, blocks, n, e);
      onDisk := onDisk[n := e];
    }

    /** A loop of inode_map: direct addresses `from` to `to`. */
    method FillDirect(e0: Entry, from: nat, to: nat, ghost s: seq<nat>, ghost foreign: set<nat>)
      returns (ok: bool, e: Entry, ghost t: seq<nat>)
      requires Valid() && FileOk(first, blocks, used, e0, s, foreign) && |s| == from <= to <= INODE_NUM_DIRECT
      modifies `blocks, `used
      ensures Valid() && old(used) <= used && Kept(old(blocks), blocks, first, old(used))
      ensures !ok ==> Full()
      ensures ok ==> FileOk(first, blocks, used, e, t, foreign) && |t| == to && Extended(old(used), blocks, used, s, t)
      ensures ok ==> e.numBytes == e0.numBytes && e.indirect == e0.indirect
      ensures ok ==> forall i | to <= i < INODE_NUM_DIRECT :: e.addrs[i] == e0.addrs[i]
    {
      e, t := e0, s;
      ExtendedNone(blocks, used, s);
      for i := from to to
        invariant Valid() && old(used) <= used && Kept(old(blocks), blocks, first, old(used))
        invariant FileOk(first, blocks, used, e, t, foreign) && |t| == i && Extended(old(used), blocks, used, s, t)
        invariant e.numBytes == e0.numBytes && e.indirect == e0.indirect
        invariant forall k | i <= k < INODE_NUM_DIRECT :: e.addrs[k] == e0.addrs[k]
      {
        ghost var v, u := blocks, used;
        var a;
        ok, a := Alloc();
        if !ok {
          return;
        }
        AddDirect(first, v, blocks, u, e, t, foreign, a);
        ExtendedMore(first, old(used), v, u, blocks, s, t, a);
        e := Entry(e.numBytes, e.addrs[i := a], e.indirect);
        t := t + [a];
      }
      ok := true;
    }

    /** A loop of inode_map: addresses `from` to `to`, in the indirect block. */
    method FillIndirect(e: Entry, from: nat, to: nat, ghost s: seq<nat>, ghost foreign: set<nat>)
      returns (ok: bool, ghost t: seq<nat>)
      requires Valid() && FileOk(first, blocks, used, e, s, foreign) && e.indirect != 0
      requires INODE_NUM_DIRECT <= |s| == from <= to <= INODE_MAX_BLOCKS
      modifies `blocks, `used
      ensures Valid() && old(used) <= used && Kept(old(blocks), blocks, first, old(used) - {e.indirect})
      ensures !ok ==> Full()
      ensures ok ==> FileOk(first, blocks, used, e, t, foreign) && |t| == to && Extended(old(used), blocks, used, s, t)
      ensures ok ==> forall i | to <= i < INODE_MAX_BLOCKS :: Slot(blocks[e.indirect], i) == Slot(old(blocks)[e.indirect], i)
    {
      t := s;
      ExtendedNone(blocks, used, s);
      for i := from to to
        invariant Valid() && old(used) <= used && Kept(old(blocks), blocks, first, old(used) - {e.indirect})
        invariant FileOk(first, blocks, used, e, t, foreign) && |t| == i && Extended(old(used), blocks, used, s, t)
        invariant forall k | i <= k < INODE_MAX_BLOCKS :: Slot(blocks[e.indirect], k) == Slot(old(blocks)[e.indirect], k)
      {
        ghost var v, u := blocks, used;
        var a;
        ok, a := Alloc();
        if !ok {
          return;
        }
        AddIndirect(first, v, blocks, u, e, t, foreign, a);
        ExtendedMore(first, old(used), v, u, blocks, s, t, a);
        PutSlotAt(blocks[e.indirect], i, a);
        Store(e.indirect, PutSlot(blocks[e.indirect], i, a));
        t := t + [a];
      }
      ok := true;
    }

    /** The step of inode_map that gives the file an indirect block. */
    method NeedIndirect(e0: Entry, ghost s: seq<nat>, ghost foreign: set<nat>) returns (ok: bool, e: Entry)
      requires Valid() && FileOk(first, blocks, used, e0, s, foreign) && |s| == INODE_NUM_DIRECT
      modifies `blocks, `used
      ensures Valid() && old(used) <= used && Kept(old(blocks), blocks, first, old(used))
      ensures !ok ==> Full()
      ensures ok ==> FileOk(first, blocks, used, e, s, foreign) && e.indirect != 0
      ensures ok ==> e.numBytes == e0.numBytes && e.addrs == e0.addrs && used == old(used) + {e.indirect}
      ensures ok && e0.indirect != 0 ==> e.indirect == e0.indirect
      ensures ok && e0.indirect == 0 ==> e.indirect !in old(used) && ZeroWordsFrom(blocks[e.indirect], 0)
    {
      ok, e := true, e0;
      if e0.indirect == 0 {
        ghost var v, u := blocks, used;
        var a;
        ok, a := Alloc();
        if ok {
          AddIndirectBlock(first, v, blocks, u, e, s, foreign, a);
          BlankSlots(blocks[a]);
          e := Entry(e.numBytes, e.addrs, a);
        }
      }
    }

    /** The growth of inode_map beyond the direct addresses. */
    method GrowIndirect(e0: Entry, have: nat, need: nat, ghost s: seq<nat>, ghost foreign: set<nat>)
      returns (ok: bool, e: Entry, ghost t: seq<nat>)
      requires Valid() && FileOk(first, blocks, used, e0, s, foreign) && |s| == have
      requires have < need && INODE_NUM_DIRECT < need <= INODE_MAX_BLOCKS && ZeroFrom(blocks, e0, need)
      modifies `blocks, `used
      ensures Valid()
      ensures !ok ==> Full()
      ensures ok ==> FileOk(first, blocks, used, e, t, foreign) && |t| == need && ZeroFrom(blocks, e, need)
      ensures ok ==> Grown(first, old(blocks), old(used), e0, s, blocks, used, e, t) && e.indirect != 0
    {
      e, ok, t := e0, true, s;
      if have <= INODE_NUM_DIRECT {
        ghost var t1;
        ok, e, t1 := FillDirect(e0, have, INODE_NUM_DIRECT, s, foreign);
        if !ok {
          return;
        }
        ghost var v1, u1 := blocks, used;
        ok, e := NeedIndirect(e, t1, foreign);
        if !ok {
          return;
        }
        ghost var v2, u2 := blocks, used;
        ok, t := FillIndirect(e, INODE_NUM_DIRECT, need, t1, foreign);
        if !ok {
          return;
        }
        GrownIndirect(first, old(blocks), old(used), e0, s, v1, u1, t1, v2, u2, e, blocks, used, t, foreign);
      } else {
        ExtendedNone(blocks, used, s);
        ok, t := FillIndirect(e, have, need, s, foreign);
        if ok {
          GrownIndirect(first, old(blocks), old(used), e0, s, old(blocks), old(used), s, old(blocks), old(used), e, blocks, used, t, foreign);
        }
      }
    }

    /** The growth of inode_map, from `have` blocks to `need`. */
    method Grow(e0: Entry, have: nat, need: nat, ghost s: seq<nat>, ghost foreign: set<nat>)
      returns (ok: bool, no: nat, e: Entry, ghost t: seq<nat>)
      requires Valid() && FileOk(first, blocks, used, e0, s, foreign) && |s| == have
      requires have < need <= INODE_MAX_BLOCKS && ZeroFrom(blocks, e0, need)
      modifies `blocks, `used
      ensures Valid()
      ensures !ok ==> Full()
      ensures ok ==> FileOk(first, blocks, used, e, t, foreign) && |t| == need && ZeroFrom(blocks, e, need) && no == t[need - 1]
      ensures ok ==> Grown(first, old(blocks), old(used), e0, s, blocks, used, e, t)
      ensures ok ==> (e.indirect != 0 ==> need > INODE_NUM_DIRECT || e0.indirect != 0)
    {
      no := 0;
      if need <= INODE_NUM_DIRECT {
        ok, e, t := FillDirect(e0, have, need, s, foreign);
        if ok {
          GrownDirect(first, old(blocks), old(used), e0, s, blocks, used, e, t, foreign);
          no := e.addrs[need - 1];
        }
      } else {
        ok, e, t := GrowIndirect(e0, have, need, s, foreign);
        if ok {
          no := Slot(blocks[e.indirect], need - 1);
        }
      }
    }

    /** inode_map without an operation context: the address of the block that holds byte
        `offset`, or 0 when there is none. `ok` false stands for its panic. */
    method Lookup(e: Entry, offset: nat, ghost s: seq<nat>, ghost foreign: set<nat>) returns (ok: bool, no: nat)
      requires Valid() && FileOk(first, blocks, used, e, s, foreign) && CountedBlocks(e) <= |s|
      ensures ok <==> offset < INODE_MAX_BYTES
      ensures offset / BLOCK_SIZE < CountedBlocks(e) ==> no == s[offset / BLOCK_SIZE]
      ensures CountedBlocks(e) <= offset / BLOCK_SIZE ==> no == 0
    {
      ok, no := true, 0;
      var need := offset / BLOCK_SIZE + 1;
      if need > INODE_MAX_BLOCKS {
        ok := false;
        return;
      }
      if need <= CountedBlocks(e) {
        no := if need <= INODE_NUM_DIRECT then e.addrs[need - 1] else Slot(blocks[e.indirect], need - 1);
      }
    }

    /** inode_map in an operation: as above, but it grows the file of inode `n` to have such
        a block, and writes the entry back if it has changed. `ok` false stands for a panic. */
    method Map(n: nat, e0: Entry, offset: nat, ghost s: seq<nat>, ghost foreign: set<nat>)
      returns (ok: bool, no: nat, e: Entry, ghost t: seq<nat>)
      requires Valid() && n in onDisk && MapReady(first, blocks, used, e0, s, foreign, offset / BLOCK_SIZE)
      modifies `blocks, `used, `onDisk
      ensures Valid() && OnlyAt(old(onDisk), onDisk, n)
      ensures ok ==> offset < INODE_MAX_BYTES
      ensures !ok ==> offset >= INODE_MAX_BYTES || Full()
      ensures offset / BLOCK_SIZE < CountedBlocks(e0) ==> ok
      ensures ok ==> MapOutcome(first, old(blocks), old(used), e0, s, blocks, used, e, t, foreign, offset / BLOCK_SIZE)
      ensures ok ==> offset / BLOCK_SIZE < |t| && no == t[offset / BLOCK_SIZE] && first <= no < |blocks|
    {
      e, t := e0, s;
      ok, no := Lookup(e0, offset, s, foreign);
      var have := CountedBlocks(e0);
      if ok && have <= offset / BLOCK_SIZE {
        Shorten(first, blocks, used, e0, s, foreign, have);
        ok, no, e, t := Grow(e0, have, offset / BLOCK_SIZE + 1, s[..have], foreign);
        if ok {
          ghost var v := blocks;
          FileFits(first, v, used, e, t, foreign);
          SyncEntry(n, e);
          MapOutcomeSame(first, old(blocks), old(used), e0, s, v, used, e, t, foreign, offset / BLOCK_SIZE, blocks);
        }
      }
    }

    /** One step of the loop of inode_write: `bytes` go to position `i` of the file. */
    method WriteChunk(n: nat, e0: Entry, i: nat, bytes: seq<byte>, ghost s: seq<nat>, ghost foreign: set<nat>)
      returns (ok: bool, e: Entry, ghost t: seq<nat>, ghost v': Disk)
      requires Valid() && n in onDisk && MapReady(first, blocks, used, e0, s, foreign, i / BLOCK_SIZE)
      requires i % BLOCK_SIZE + |bytes| <= BLOCK_SIZE
      modifies `blocks, `used, `onDisk
      ensures Valid() && OnlyAt(old(onDisk), onDisk, n)
      ensures !ok ==> i >= INODE_MAX_BYTES || Full()
      ensures ok ==> MapOutcome(first, old(blocks), old(used), e0, s, v', used, e, t, foreign, i / BLOCK_SIZE)
      ensures ok ==> i / BLOCK_SIZE < |t| && t[i / BLOCK_SIZE] < |v'|
      ensures ok ==> var no := t[i / BLOCK_SIZE]; blocks == v'[no := Patch(v'[no], i % BLOCK_SIZE, bytes)]
    {
      var no;
      ok, no, e, t := Map(n, e0, i, s, foreign);
      v' := blocks;
      if ok {
        Store(no, Patch(blocks[no], i % BLOCK_SIZE, bytes));
      }
    }

    /** One round of the loop of inode_write, which has written `m` bytes and now writes `c`. */
    method WriteStep(n: nat, e0: Entry, offset: nat, src: seq<byte>, m: nat, ghost s: seq<nat>, ghost foreign: set<nat>, ghost was: seq<byte>,
                     ghost v00: Disk, ghost used0: set<nat>, ghost e00: Entry, ghost s0: seq<nat>, ghost gone: set<nat>)
      returns (ok: bool, c: nat, e: Entry, ghost t: seq<nat>, ghost gone': set<nat>)
      requires Valid() && n in onDisk && m < |src| && Running(first, foreign, was, offset, src, v00, used0, e00, s0, blocks, used, e0, s, m)
      requires offset + |src| <= INODE_MAX_BYTES
      requires GivenUp(gone, used0, used, e0, s, Counted(e00.numBytes))
      modifies `blocks, `used, `onDisk
      ensures Valid() && OnlyAt(old(onDisk), onDisk, n) && 0 < c <= |src| - m
      ensures !ok ==> Full()
      ensures ok ==> Running(first, foreign, was, offset, src, v00, used0, e00, s0, blocks, used, e, t, m + c)
      ensures ok ==> GivenUp(gone', used0, used, e, t, Counted(e00.numBytes))
    {
      c := Chunk(offset + m, offset + |src|);
      ChunkFits(offset + m, offset + |src|);
      RunningReady(first, foreign, was, offset, src, v00, used0, e00, s0, blocks, used, e0, s, m);
      ghost var v, u, w := blocks, used, blocks;
      gone' := gone;
      ok, e, t, w := WriteChunk(n, e0, offset + m, src[m..m + c], s, foreign);
      if ok {
        ghost var d := Patch(w[t[(offset + m) / BLOCK_SIZE]], (offset + m) % BLOCK_SIZE, src[m..m + c]);
        RunningStep(first, foreign, was, offset, src, v00, used0, e00, s0, v, u, e0, s, m, w, used, e, t, c, d, blocks);
        gone' := CountGivenUp(first, used0, e00, s0, v, u, e0, s, foreign, w, used, e, t, (offset + m) / BLOCK_SIZE, gone);
      }
    }

    /** The loop of inode_write. */
    method WriteLoop(n: nat, e0: Entry, offset: nat, src: seq<byte>, ghost s: seq<nat>, ghost foreign: set<nat>, ghost was: seq<byte>)
      returns (ok: bool, e: Entry, ghost t: seq<nat>, ghost gone: set<nat>)
      requires Valid() && n in onDisk && Running(first, foreign, was, offset, src, blocks, used, e0, s, blocks, used, e0, s, 0)
      requires offset + |src| <= INODE_MAX_BYTES
      modifies `blocks, `used, `onDisk
      ensures Valid() && OnlyAt(old(onDisk), onDisk, n)
      ensures !ok ==> Full()
      ensures ok ==> Running(first, foreign, was, offset, src, old(blocks), old(used), e0, s, blocks, used, e, t, |src|)
      ensures ok ==> GivenUp(gone, old(used), used, e, t, Counted(e0.numBytes))
    {
      ghost var v0, used0 := blocks, used;
      ok, e, t, gone := true, e0, s, {};
      var m := 0;
      while m < |src|
        invariant m <= |src| && Valid() && ok && OnlyAt(old(onDisk), onDisk, n)
        invariant Running(first, foreign, was, offset, src, v0, used0, e0, s, blocks, used, e, t, m)
        invariant GivenUp(gone, used0, used, e, t, Counted(e0.numBytes))
      {
        var c;
        ok, c, e, t, gone := WriteStep(n, e, offset, src, m, t, foreign, was, v0, used0, e0, s, gone);
        if !ok {
          return;
        }
        m := m + c;
      }
    }

    /** inode_write on inode `n`, whose entry is `e0`; `ok` false stands for a failed
        assertion, or the panic on a full disk. The blocks `gone` are lost. */
    method WriteFile(n: nat, e0: Entry, offset: nat, src: seq<byte>, ghost s: seq<nat>, ghost foreign: set<nat>)
      returns (ok: bool, e: Entry, ghost t: seq<nat>, ghost gone: set<nat>)
      requires Valid() && n in onDisk && FileOk(first, blocks, used, e0, s, foreign) && Settled(blocks, e0, s)
      modifies `blocks, `used, `onDisk
      ensures Valid()
      ensures !ok ==> offset > e0.numBytes || offset + |src| > INODE_MAX_BYTES || Full()
      ensures offset > e0.numBytes || offset + |src| > INODE_MAX_BYTES ==>
        !ok && blocks == old(blocks) && used == old(used) && onDisk == old(onDisk)
      ensures ok ==> onDisk == old(onDisk)[n := e]
      ensures ok ==> WriteDone(first, foreign, old(Content(blocks, s, e0.numBytes)), offset, src, old(blocks), old(used), e0, s, blocks, used, e, t)
      ensures ok ==> GivenUp(gone, old(used), used, e, t, Counted(e0.numBytes)) && |gone| == LostBlocks(e0.numBytes, offset, |src|)
    {
      ok, e, t, gone := false, e0, s, {};
      if offset > e0.numBytes || offset + |src| > INODE_MAX_BYTES {
        return;
      }
      ghost var v0, used0, was := blocks, used, Content(blocks, s, e0.numBytes);
      RunningStart(first, foreign, was, offset, src, v0, used0, e0, s);
      ok, e, t, gone := WriteLoop(n, e0, offset, src, s, foreign, was);
      if ok {
        LostCount(|was|, offset, |src|, |t|);
        e := FinishWrite(n, e, offset, src, v0, used0, e0, s, t, foreign, was);
      }
    }

    /** The end of inode_write. */
    method FinishWrite(n: nat, e1: Entry, offset: nat, src: seq<byte>, ghost v0: Disk, ghost used0: set<nat>, ghost e0: Entry,
                       ghost s: seq<nat>, ghost t: seq<nat>, ghost foreign: set<nat>, ghost was: seq<byte>) returns (e: Entry)
      requires Valid() && n in onDisk && offset + |src| <= INODE_MAX_BYTES
      requires Running(first, foreign, was, offset, src, v0, used0, e0, s, blocks, used, e1, t, |src|)
      modifies `blocks, `onDisk
      ensures Valid() && onDisk == old(onDisk)[n := e] && Owned(e, t) == Owned(e1, t)
      ensures WriteDone(first, foreign, was, offset, src, v0, used0, e0, s, blocks, used, e, t)
    {
      ghost var v := blocks;
      e := Entry(Max(e1.numBytes, offset + |src|), e1.addrs, e1.indirect);
      RunningEnd(first, foreign, was, offset, src, v0, used0, e0, s, v, used, e1, t, e);
      FileFits(first, v, used, e, t, foreign);
      SyncEntry(n, e);
      WriteDoneSame(first, foreign, was, offset, src, v0, used0, e0, s, v, used, e, t, blocks);
    }

    /** One step of the loop of inode_read, which is to read up to `end`. */
    method ReadStep(e: Entry, i: nat, end: nat, ghost s: seq<nat>, ghost foreign: set<nat>) returns (bytes: seq<byte>)
      requires Valid() && FileOk(first, blocks, used, e, s, foreign) && Settled(blocks, e, s) && i < end <= e.numBytes
      ensures 0 < |bytes| <= end - i && bytes == Content(blocks, s, e.numBytes)[i..i + |bytes|]
    {
      var c := Chunk(i, end);
      ChunkFits(i, end);
      assert i / BLOCK_SIZE < CountedBlocks(e);
      var _, no := Lookup(e, i, s, foreign);
      bytes := blocks[no][i % BLOCK_SIZE..i % BLOCK_SIZE + c];
      ReadChunk(blocks, s, e.numBytes, i, c);
    }

    /** One round of it, which has read `dest0` and now adds to that. */
    method ReadMore(e: Entry, offset: nat, end: nat, dest0: seq<byte>, ghost s: seq<nat>, ghost foreign: set<nat>, ghost all: seq<byte>)
      returns (dest: seq<byte>)
      requires Valid() && FileOk(first, blocks, used, e, s, foreign) && Settled(blocks, e, s) && all == Content(blocks, s, e.numBytes)
      requires offset + |dest0| < end <= e.numBytes && dest0 == all[offset..offset + |dest0|]
      ensures |dest0| < |dest| && offset + |dest| <= end && dest == all[offset..offset + |dest|]
    {
      var i := offset + |dest0|;
      var bytes := ReadStep(e, i, end, s, foreign);
      JoinSlices(all, offset, i, i + |bytes|);
      dest := dest0 + bytes;
    }

    /** inode_read; `ok` false stands for its failed assertion. */
    method ReadFile(e: Entry, offset: nat, count: nat, ghost s: seq<nat>, ghost foreign: set<nat>) returns (ok: bool, dest: seq<byte>)
      requires Valid() && FileOk(first, blocks, used, e, s, foreign) && Settled(blocks, e, s)
      ensures ok <==> offset <= e.numBytes
      ensures ok ==> dest == Content(blocks, s, e.numBytes)[offset..if offset + count > e.numBytes then e.numBytes else offset + count]
    {
      var end := if offset + count > e.numBytes then e.numBytes else offset + count;
      dest, ok := [], offset <= e.numBytes;
      if !ok {
        return;
      }
      ghost var all := Content(blocks, s, e.numBytes);
      while |dest| < end - offset
        invariant offset + |dest| <= end && dest == all[offset..offset + |dest|]
      {
        dest := ReadMore(e, offset, end, dest, s, foreign, all);
      }
    }

    /** The first loop of inode_clear. */
    method FreeDirect(e: Entry, ghost s: seq<nat>, ghost foreign: set<nat>)
      requires Valid() && FileOk(first, blocks, used, e, s, foreign) && ZeroFrom(blocks, e, |s|)
      modifies `blocks, `used
      ensures Valid() && Kept(old(blocks), blocks, first, old(used))
      ensures used == old(used) - Elems(s[..if |s| < INODE_NUM_DIRECT then |s| else INODE_NUM_DIRECT])
    {
      var i := 0;
      while i < INODE_NUM_DIRECT && e.addrs[i] != 0
        invariant i <= INODE_NUM_DIRECT && i <= |s| && Valid()
        invariant Kept(old(blocks), blocks, first, old(used)) && used == old(used) - Elems(s[..i])
      {
        Free(e.addrs[i]);
        assert s[..i + 1] == s[..i] + [s[i]];
        i := i + 1;
      }
    }

    /** The second loop of inode_clear. */
    method FreeIndirect(e: Entry, ghost s: seq<nat>)
      requires Valid() && e.indirect < |blocks| && ZeroFrom(blocks, e, |s|) && AddressedBy(blocks, e, s)
      requires first <= e.indirect < |blocks| && INODE_NUM_DIRECT <= |s|
      requires forall i | 0 <= i < |s| :: first <= s[i] < |blocks|
      modifies `blocks, `used
      ensures Valid() && Kept(old(blocks), blocks, first, old(used) + {e.indirect})
      ensures used == old(used) - Elems(s[INODE_NUM_DIRECT..])
    {
      var i := INODE_NUM_DIRECT;
      while i < INODE_MAX_BLOCKS && Slot(blocks[e.indirect], i) != 0
        invariant INODE_NUM_DIRECT <= i <= |s| && Valid()
        invariant Kept(old(blocks), blocks, first, old(used) + {e.indirect}) && used == old(used) - Elems(s[INODE_NUM_DIRECT..i])
      {
        assert Slot(blocks[e.indirect], i) == s[i];
        Free(Slot(blocks[e.indirect], i));
        assert s[INODE_NUM_DIRECT..i + 1] == s[INODE_NUM_DIRECT..i] + [s[i]];
        i := i + 1;
      }
      assert s[INODE_NUM_DIRECT..i] == s[INODE_NUM_DIRECT..];
    }

    /** inode_clear */
    method ClearFile(n: nat, e0: Entry, ghost s: seq<nat>, ghost foreign: set<nat>) returns (e: Entry)
      requires Valid() && n in onDisk && FileOk(first, blocks, used, e0, s, foreign) && Settled(blocks, e0, s)
      modifies `blocks, `used, `onDisk
      ensures Valid() && onDisk == old(onDisk)[n := e]
      ensures used == old(used) - Owned(e0, s) && Kept(old(blocks), blocks, first, foreign)
      ensures e.numBytes == 0 && FileOk(first, blocks, used, e, [], foreign) && Settled(blocks, e, [])
    {
      ghost var v, u := blocks, used;
      FreeDirect(e0, s, foreign);
      if e0.indirect != 0 {
        FreeIndirect(e0, s);
        Free(e0.indirect);
        assert s == s[..INODE_NUM_DIRECT] + s[INODE_NUM_DIRECT..];
        assert used == u - Owned(e0, s);
      }
      e := NoEntry();
      SyncEntry(n, e);
    }

    /** inode_read on inode `n`. */
    method Read(n: nat, offset: nat, count: nat) returns (ok: bool, dest: seq<byte>)
      requires Consistent() && n in table
      ensures ok <==> offset <= |files[n]|
      ensures ok ==> dest == files[n][offset..if offset + count > |files[n]| then |files[n]| else offset + count]
    {
      assert Whole(first, blocks, used, table[n], where[n], files[n]);
      ok, dest := ReadFile(table[n], offset, count, where[n], {});
    }

    /** What inode_write does to the disk. */
    method WriteBlocks(n: nat, offset: nat, src: seq<byte>) returns (ok: bool, e': Entry, ghost t: seq<nat>, ghost lose: set<nat>)
      requires Consistent() && n in table
      modifies `blocks, `used, `onDisk
      ensures Valid()
      ensures !ok ==> offset > |files[n]| || offset + |src| > INODE_MAX_BYTES || Full()
      ensures offset > |files[n]| || offset + |src| > INODE_MAX_BYTES ==> !ok && blocks == old(blocks) && used == old(used) && onDisk == old(onDisk)
      ensures ok ==> Owners(first, blocks, used, table[n := e'], where[n := t], files[n := WriteResult(files[n], offset, src)], lost + lose)
      ensures ok ==> onDisk == table[n := e'] && |lost + lose| == |lost| + LostBlocks(|files[n]|, offset, |src|)
      ensures ok ==> Around(sb, old(blocks), blocks, {n})
    {
      ghost var v, u, e, s := blocks, used, table[n], where[n];
      assert Whole(first, v, u, e, s, files[n]);
      OwnFile(first, v, u, e, s);
      ghost var foreign := u - Owned(e, s);
      ok, e', t, lose := WriteFile(n, table[n], offset, src, s, foreign);
      if ok {
        WriteOwners(first, v, u, table, where, files, lost, n, offset, src, blocks, used, e', t, lose);
        OnlyEntry(sb, origin, v, blocks, table, onDisk, n);
      }
    }

    /** inode_write on inode `n`. No other file changes, and nothing else in the inode blocks.
        Blocks are lost exactly when the file grows by more than one block beyond those it
        counts (`TriangleZero`). */
    method Write(n: nat, offset: nat, src: seq<byte>) returns (ok: bool)
      requires Consistent() && n in table
      modifies this
      ensures !ok ==> offset > |old(files)[n]| || offset + |src| > INODE_MAX_BYTES || Full()
      ensures offset > |old(files)[n]| || offset + |src| > INODE_MAX_BYTES ==> !ok && Consistent() && files == old(files) && blocks == old(blocks)
      ensures ok ==> Consistent() && offset <= |old(files)[n]| && offset + |src| <= INODE_MAX_BYTES
      ensures ok ==> files == old(files)[n := WriteResult(old(files)[n], offset, src)]
      ensures ok ==> Around(sb, old(blocks), blocks, {n})
      ensures ok ==> old(lost) <= lost && |lost| == |old(lost)| + LostBlocks(|old(files)[n]|, offset, |src|)
    {
      var e';
      ghost var t, lose;
      ok, e', t, lose := WriteBlocks(n, offset, src);
      if ok {
        table, where, files, lost := table[n := e'], where[n := t], files[n := WriteResult(files[n], offset, src)], lost + lose;
      }
    }

    /** What inode_clear does to the disk. */
    method ClearBlocks(n: nat) returns (e': Entry)
      requires Consistent() && n in table
      modifies `blocks, `used, `onDisk
      ensures Valid() && Owners(first, blocks, used, table[n := e'], where[n := []], files[n := []], lost)
      ensures onDisk == table[n := e'] && used == old(used) - Owned(table[n], where[n])
      ensures Around(sb, old(blocks), blocks, {n})
    {
      ghost var v, u, e, s := blocks, used, table[n], where[n];
      assert Whole(first, v, u, e, s, files[n]);
      OwnFile(first, v, u, e, s);
      ghost var foreign := u - Owned(e, s);
      e' := ClearFile(n, table[n], s, foreign);
      ClearOwners(first, v, u, table, where, files, lost, n, blocks, used, e', foreign);
      OnlyEntry(sb, origin, v, blocks, table, onDisk, n);
    }

    /** inode_clear on inode `n`: its blocks are free again, and no other changes. */
    method Clear(n: nat)
      requires Consistent() && n in table
      modifies this
      ensures Consistent() && files == old(files)[n := []] && lost == old(lost)
      ensures used == old(used) - Owned(old(table)[n], old(where)[n])
      ensures Around(sb, old(blocks), blocks, {n})
    {
      var e' := ClearBlocks(n);
      table, where, files := table[n := e'], where[n := []], files[n := []];
    }
  }
}
