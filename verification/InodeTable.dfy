/** The inode entries on disk (src/fs/defines.h:51-61, src/fs/inode.c:74-82): eight to a
block, each of sixteen 32-bit words. The first two words of an entry hold its type, device
numbers and link count, which no operation modelled here changes. */
module InodeTable {
  import opened Bytes
  import opened WriteAheadLog
  import opened FileSpec

  const INODE_PER_BLOCK := 8
  const ENTRY_WORDS := 16

  /** Every field fits in 32 bits. */
  ghost predicate Fits(e: Entry) {
    && e.numBytes < ADDRESS_LIMIT && e.indirect < ADDRESS_LIMIT && |e.addrs| == INODE_NUM_DIRECT
    && forall i | 0 <= i < INODE_NUM_DIRECT :: e.addrs[i] < ADDRESS_LIMIT
  }

  // ---- Entries in a block ----

  /** The words of an entry that say where the bytes are. */
  function WordsIn(d: Data, slot: nat): (ws: seq<nat>)
    requires slot < INODE_PER_BLOCK
    ensures |ws| == 14
  {
    seq<nat>(14, i requires 0 <= i < 14 => WordAt(d, 4, ENTRY_WORDS * slot + 2 + i))
  }

  function EntryIn(d: Data, slot: nat): Entry
    requires slot < INODE_PER_BLOCK
  {
    var ws := WordsIn(d, slot);
    Entry(ws[0], ws[1..13], ws[13])
  }

  function WordsOf(e: Entry): seq<nat> { [e.numBytes] + e.addrs + [e.indirect] }

  /** The words `ws` stored from word `at` on. */
  function PutWords(d: Data, at: nat, ws: seq<nat>): Data
    requires at + |ws| <= 128
    decreases |ws|
  {
    if ws == [] then d
    else
      var n := |ws| - 1;
      PutWord(PutWords(d, at, ws[..n]), 4, at + n, ws[n])
  }

  lemma FourBytes()
    ensures Pow256(4) == ADDRESS_LIMIT
  {
  }

  lemma {:induction false} PutWordsAt(d: Data, at: nat, ws: seq<nat>, j: nat)
    requires at + |ws| <= 128 && j < 128 && forall i | 0 <= i < |ws| :: ws[i] < ADDRESS_LIMIT
    ensures WordAt(PutWords(d, at, ws), 4, j) == if at <= j < at + |ws| then ws[j - at] else WordAt(d, 4, j)
    decreases |ws|
  {
    if ws == [] {
    } else {
      var n := |ws| - 1;
      PutWordsAt(d, at, ws[..n], j);
      FourBytes();
      PutWordAt(PutWords(d, at, ws[..n]), 4, at + n, ws[n], j);
    }
  }

  lemma PutWordsIn(d: Data, slot: nat, ws: seq<nat>, k: nat)
    requires slot < INODE_PER_BLOCK && k < INODE_PER_BLOCK && |ws| == 14 && forall i | 0 <= i < |ws| :: ws[i] < ADDRESS_LIMIT
    ensures WordsIn(PutWords(d, ENTRY_WORDS * slot + 2, ws), k) == if k == slot then ws else WordsIn(d, k)
  {
    var got, want := WordsIn(PutWords(d, ENTRY_WORDS * slot + 2, ws), k), if k == slot then ws else WordsIn(d, k);
    forall i: nat | i < 14
      ensures got[i] == want[i]
    {
      PutWordsAt(d, ENTRY_WORDS * slot + 2, ws, ENTRY_WORDS * k + 2 + i);
    }
  }

  /** The copy of an entry into its place. */
  function PutEntry(d: Data, slot: nat, e: Entry): Data
    requires slot < INODE_PER_BLOCK && |e.addrs| == INODE_NUM_DIRECT
  {
    PutWords(d, ENTRY_WORDS * slot + 2, WordsOf(e))
  }

  /** An entry is read back as it was written, and no other changes. */
  lemma PutEntryIn(d: Data, slot: nat, e: Entry, k: nat)
    requires slot < INODE_PER_BLOCK && k < INODE_PER_BLOCK && Fits(e)
    ensures EntryIn(PutEntry(d, slot, e), k) == if k == slot then e else EntryIn(d, k)
  {
    PutWordsIn(d, slot, WordsOf(e), k);
    assert WordsOf(e)[1..13] == e.addrs;
  }

  lemma WordIn(d: Data, slot: nat, i: nat)
    requires slot < INODE_PER_BLOCK && i < 14
    ensures WordsIn(d, slot)[i] == WordAt(d, 4, ENTRY_WORDS * slot + 2 + i)
  {
  }

  /** Where the fields of an entry lie: the size in word 2, then the addresses, then the indirect
      block. */
  lemma EntryLayout(d: Data, slot: nat, i: nat)
    requires slot < INODE_PER_BLOCK && i < INODE_NUM_DIRECT
    ensures EntryIn(d, slot).numBytes == WordAt(d, 4, ENTRY_WORDS * slot + 2)
    ensures EntryIn(d, slot).addrs[i] == WordAt(d, 4, ENTRY_WORDS * slot + 3 + i)
    ensures EntryIn(d, slot).indirect == WordAt(d, 4, ENTRY_WORDS * slot + 15)
  {
    WordIn(d, slot, 0);
    WordIn(d, slot, i + 1);
    WordIn(d, slot, 13);
  }

  /** The entry of an empty file. */
  function NoEntry(): Entry { Entry(0, seq(INODE_NUM_DIRECT, _ => 0), 0) }

  lemma BlankEntry(d: Data, slot: nat)
    requires Blank(d) && slot < INODE_PER_BLOCK
    ensures EntryIn(d, slot) == NoEntry()
  {
    var ws := WordsIn(d, slot);
    forall i | 0 <= i < 14
      ensures ws[i] == 0
    {
      var j := ENTRY_WORDS * slot + 2 + i;
      FromZeros(d[j * 4..j * 4 + 4]);
      assert ws[i] == WordAt(d, 4, j);
    }
  }

  // ---- Entries on disk ----

  /** to_block_no */
  function InodeBlock(sb: SuperBlock, n: nat): nat { sb.inodeStart + n / INODE_PER_BLOCK }

  function EntryOn(sb: SuperBlock, v: Disk, n: nat): Entry
    requires InodeBlock(sb, n) < |v|
  {
    EntryIn(v[InodeBlock(sb, n)], n % INODE_PER_BLOCK)
  }

  function PutOn(sb: SuperBlock, v: Disk, n: nat, e: Entry): Disk
    requires InodeBlock(sb, n) < |v| && |e.addrs| == INODE_NUM_DIRECT
  {
    v[InodeBlock(sb, n) := PutEntry(v[InodeBlock(sb, n)], n % INODE_PER_BLOCK, e)]
  }

  lemma PutOnEntry(sb: SuperBlock, v: Disk, n: nat, e: Entry, m: nat)
    requires InodeBlock(sb, n) < |v| && InodeBlock(sb, m) < |v| && Fits(e)
    ensures EntryOn(sb, PutOn(sb, v, n, e), m) == if m == n then e else EntryOn(sb, v, m)
  {
    assert m == n <==> m / INODE_PER_BLOCK == n / INODE_PER_BLOCK && m % INODE_PER_BLOCK == n % INODE_PER_BLOCK;
    if InodeBlock(sb, n) == InodeBlock(sb, m) {
      PutEntryIn(v[InodeBlock(sb, n)], n % INODE_PER_BLOCK, e, m % INODE_PER_BLOCK);
    }
  }

  ghost predicate EntryIs(sb: SuperBlock, v: Disk, n: nat, e: Entry) {
    n < sb.numInodes && InodeBlock(sb, n) < |v| && EntryOn(sb, v, n) == e
  }

  /** The entries of `table` are on disk. */
  ghost predicate Inodes(sb: SuperBlock, v: Disk, table: map<nat, Entry>) {
    forall n <- table {:trigger EntryIs(sb, v, n, table[n])} :: EntryIs(sb, v, n, table[n])
  }

  function ReadTable(sb: SuperBlock, v: Disk, inodes: set<nat>): map<nat, Entry>
    requires forall n <- inodes :: InodeBlock(sb, n) < |v|
  {
    map n | n in inodes :: EntryOn(sb, v, n)
  }

  lemma TableRead(sb: SuperBlock, v: Disk, table: map<nat, Entry>)
    requires Inodes(sb, v, table)
    ensures (forall n <- table.Keys :: InodeBlock(sb, n) < |v|) && ReadTable(sb, v, table.Keys) == table
  {
    forall n <- table
      ensures InodeBlock(sb, n) < |v| && EntryOn(sb, v, n) == table[n]
    {
      assert EntryIs(sb, v, n, table[n]);
    }
  }

  /** Word `j` of block `b` is one of those in the entry of an inode of `inodes` that say where
      its bytes are. */
  ghost predicate InEntry(sb: SuperBlock, b: nat, j: nat, inodes: set<nat>) {
    sb.inodeStart <= b && 2 <= j % ENTRY_WORDS && (b - sb.inodeStart) * INODE_PER_BLOCK + j / ENTRY_WORDS in inodes
  }

  ghost predicate SameWord(u: Disk, v: Disk, b: nat, j: nat) {
    b < |u| && b < |v| && j < 128 && WordAt(u[b], 4, j) == WordAt(v[b], 4, j)
  }

  /** Before the bitmap, `v` is like `u` in all words but those in the entries of `inodes`. So
      the types, devices and link counts of all inodes are the same, and all of the other
      inodes, and whatever lies before them. */
  ghost predicate Around(sb: SuperBlock, u: Disk, v: Disk, inodes: set<nat>) {
    && |u| == |v|
    && forall b: nat, j: nat {:trigger SameWord(u, v, b, j)} | b < sb.bitmapStart && b < |u| && j < 128 && !InEntry(sb, b, j, inodes) ::
         SameWord(u, v, b, j)
  }

  lemma AroundSelf(sb: SuperBlock, v: Disk, inodes: set<nat>)
    ensures Around(sb, v, v, inodes)
  {
  }

  /** `v` holds the entries of `table`, and beside them what `u` holds. */
  ghost predicate TableOn(sb: SuperBlock, u: Disk, v: Disk, table: map<nat, Entry>) {
    Inodes(sb, v, table) && Around(sb, u, v, table.Keys)
  }

  /** A change outside the inode blocks changes no entry. */
  lemma InodesKept(sb: SuperBlock, v: Disk, v': Disk, table: map<nat, Entry>)
    requires Inodes(sb, v, table) && sb.inodeStart + sb.numInodes / INODE_PER_BLOCK < sb.bitmapStart
    requires |v| == |v'| && forall b: nat | b < |v| && sb.inodeStart <= b < sb.bitmapStart :: v'[b] == v[b]
    ensures Inodes(sb, v', table)
  {
    forall n <- table
      ensures EntryIs(sb, v', n, table[n])
    {
      assert EntryIs(sb, v, n, table[n]);
      assert n / INODE_PER_BLOCK <= sb.numInodes / INODE_PER_BLOCK;
    }
  }

  /** Nor anything around them. */
  lemma TableKept(sb: SuperBlock, u: Disk, v: Disk, v': Disk, table: map<nat, Entry>)
    requires TableOn(sb, u, v, table) && sb.inodeStart + sb.numInodes / INODE_PER_BLOCK < sb.bitmapStart
    requires |v| == |v'| && forall b: nat | b < |v| && b < sb.bitmapStart :: v'[b] == v[b]
    ensures TableOn(sb, u, v', table)
  {
    InodesKept(sb, v, v', table);
    forall b: nat, j: nat | b < sb.bitmapStart && b < |u| && j < 128 && !InEntry(sb, b, j, table.Keys)
      ensures SameWord(u, v', b, j)
    {
      assert SameWord(u, v, b, j);
    }
  }

  /** One entry is written. */
  lemma InodesPut(sb: SuperBlock, v: Disk, table: map<nat, Entry>, n: nat, e: Entry)
    requires Inodes(sb, v, table) && n < sb.numInodes && InodeBlock(sb, n) < |v| && Fits(e)
    ensures Inodes(sb, PutOn(sb, v, n, e), table[n := e])
  {
    var table' := table[n := e];
    forall m <- table'
      ensures EntryIs(sb, PutOn(sb, v, n, e), m, table'[m])
    {
      assert m != n ==> EntryIs(sb, v, m, table[m]);
      PutOnEntry(sb, v, n, e, m);
    }
  }

  /** Writing the entry of `n` changes no word of another, nor its own type and links. */
  lemma PutOnWord(sb: SuperBlock, v: Disk, n: nat, e: Entry, b: nat, j: nat)
    requires InodeBlock(sb, n) < |v| && Fits(e) && b < |v| && j < 128 && !InEntry(sb, b, j, {n})
    ensures SameWord(v, PutOn(sb, v, n, e), b, j)
  {
    var slot := n % INODE_PER_BLOCK;
    if b == InodeBlock(sb, n) {
      assert j / ENTRY_WORDS == slot ==> (b - sb.inodeStart) * INODE_PER_BLOCK + j / ENTRY_WORDS == n;
      PutWordsAt(v[b], ENTRY_WORDS * slot + 2, WordsOf(e), j);
    }
  }

  lemma TablePut(sb: SuperBlock, u: Disk, v: Disk, table: map<nat, Entry>, n: nat, e: Entry)
    requires TableOn(sb, u, v, table) && n in table && n < sb.numInodes && InodeBlock(sb, n) < |v| && Fits(e)
    ensures TableOn(sb, u, PutOn(sb, v, n, e), table[n := e])
    ensures Around(sb, v, PutOn(sb, v, n, e), {n})
  {
    InodesPut(sb, v, table, n, e);
    var v' := PutOn(sb, v, n, e);
    assert table[n := e].Keys == table.Keys;
    forall b: nat, j: nat | b < sb.bitmapStart && b < |u| && j < 128 && !InEntry(sb, b, j, table.Keys)
      ensures SameWord(u, v', b, j)
    {
      assert SameWord(u, v, b, j);
      PutOnWord(sb, v, n, e, b, j);
    }
    forall b: nat, j: nat | b < sb.bitmapStart && b < |u| && j < 128 && !InEntry(sb, b, j, {n})
      ensures SameWord(v, v', b, j)
    {
      PutOnWord(sb, v, n, e, b, j);
    }
  }

  /** The same entry is in the same words. */
  lemma EntryWord(d: Data, d': Data, slot: nat, j: nat)
    requires slot < INODE_PER_BLOCK && EntryIn(d, slot) == EntryIn(d', slot) && ENTRY_WORDS * slot + 2 <= j < ENTRY_WORDS * (slot + 1)
    ensures WordAt(d, 4, j) == WordAt(d', 4, j)
  {
    var ws, ws', i := WordsIn(d, slot), WordsIn(d', slot), j - ENTRY_WORDS * slot - 2;
    assert ws[i] == WordAt(d, 4, j) && ws'[i] == WordAt(d', 4, j);
    assert ws[1..13] == ws'[1..13];
    if 0 < i < 13 {
      assert ws[i] == ws[1..13][i - 1];
    }
  }

  lemma EntryStays(sb: SuperBlock, v: Disk, v': Disk, b: nat, j: nat, m: nat, e: Entry)
    requires |v| == |v'| && b < |v| && j < 128 && sb.inodeStart <= b && 2 <= j % ENTRY_WORDS
    requires m == (b - sb.inodeStart) * INODE_PER_BLOCK + j / ENTRY_WORDS && EntryIs(sb, v, m, e) && EntryIs(sb, v', m, e)
    ensures SameWord(v, v', b, j)
  {
    assert InodeBlock(sb, m) == b && m % INODE_PER_BLOCK == j / ENTRY_WORDS;
    EntryWord(v[b], v'[b], j / ENTRY_WORDS, j);
  }

  /** If the entry of `n` is the only one that has changed, so are its words. */
  lemma OnlyEntry(sb: SuperBlock, u: Disk, v: Disk, v': Disk, table: map<nat, Entry>, table': map<nat, Entry>, n: nat)
    requires TableOn(sb, u, v, table) && TableOn(sb, u, v', table') && n in table && n in table' && table' == table[n := table'[n]]
    ensures Around(sb, v, v', {n})
  {
    forall b: nat, j: nat | b < sb.bitmapStart && b < |v| && j < 128 && !InEntry(sb, b, j, {n})
      ensures SameWord(v, v', b, j)
    {
      if InEntry(sb, b, j, table.Keys) {
        var m := (b - sb.inodeStart) * INODE_PER_BLOCK + j / ENTRY_WORDS;
        assert EntryIs(sb, v, m, table[m]) && EntryIs(sb, v', m, table'[m]);
        EntryStays(sb, v, v', b, j, m, table[m]);
      } else {
        assert SameWord(u, v, b, j) && SameWord(u, v', b, j);
      }
    }
  }

  /** Blocks before the inodes are the same altogether. */
  lemma BeforeInodes(sb: SuperBlock, u: Disk, v: Disk, inodes: set<nat>, b: nat)
    requires Around(sb, u, v, inodes) && b < sb.inodeStart <= sb.bitmapStart && b < |u|
    ensures u[b] == v[b]
  {
    forall j: nat | j < 128
      ensures WordAt(u[b], 4, j) == WordAt(v[b], 4, j)
    {
      assert SameWord(u, v, b, j);
    }
    SameBlock(u[b], v[b]);
  }

  lemma SameByte(d: Data, d': Data, j: nat, i: nat)
    requires j < 128 && i < 4 && WordAt(d, 4, j) == WordAt(d', 4, j)
    ensures d[j * 4 + i] == d'[j * 4 + i]
  {
    var w, w' := d[j * 4..j * 4 + 4], d'[j * 4..j * 4 + 4];
    ToFrom(w);
    ToFrom(w');
    assert w[i] == d[j * 4 + i] && w'[i] == d'[j * 4 + i];
  }

  lemma SameBlock(d: Data, d': Data)
    requires forall j: nat | j < 128 :: WordAt(d, 4, j) == WordAt(d', 4, j)
    ensures d == d'
  {
    forall p | 0 <= p < BLOCK_SIZE
      ensures d[p] == d'[p]
    {
      SameByte(d, d', p / 4, p % 4);
    }
  }
}
