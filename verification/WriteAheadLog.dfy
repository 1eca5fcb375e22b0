/** The write-ahead log of src/fs/cache.c as sequences of device writes.

`CommitWrite` and `RestoreWrite` give the block writes that `commit` and `restore_log`
issue, one by one; a crash comes after any number of them. `Recovered` is what a disk is worth: its
home blocks with a pending log laid over them. Every single write keeps that value,
except the header write of a commit, which replaces it in one step. */
module WriteAheadLog {
  import opened Bytes

  const BLOCK_SIZE := 512
  const LOG_MAX_SIZE := 63
  const OP_MAX_NUM_BLOCKS := 10
  const WORD_LIMIT := 0x1_0000_0000_0000_0000

  type Data = s: seq<byte> | |s| == BLOCK_SIZE witness seq(BLOCK_SIZE, _ => 0)
  type Disk = seq<Data>

  /** The part of `LogHeader` that reaches the disk; `valid` lies beyond the 512 bytes. */
  datatype Header = Header(numBlocks: nat, blockNo: seq<nat>)

  /** How a header is laid out in a block. */
  datatype Codec = Codec(encode: Header -> Data, decode: Data -> Header)

  datatype SuperBlock = SuperBlock(
    numBlocks: nat,
    numInodes: nat,
    numLogBlocks: nat,
    logStart: nat,
    inodeStart: nat,
    bitmapStart: nat,
    codec: Codec)

  predicate HeaderOk(h: Header) {
    && h.numBlocks < WORD_LIMIT && |h.blockNo| == LOG_MAX_SIZE
    && forall i | 0 <= i < LOG_MAX_SIZE :: h.blockNo[i] < WORD_LIMIT
  }

  /** A header can be read back; `HeaderCodec` shows it of the kernel's layout. */
  ghost predicate CodecOk(c: Codec) {
    && (forall h: Header | HeaderOk(h) :: c.decode(c.encode(h)) == h)
    && (forall d: Data :: HeaderOk(c.decode(d)))
  }

  // ---- Disks ----

  predicate InLog(sb: SuperBlock, b: nat) { sb.logStart <= b < sb.logStart + sb.numLogBlocks }

  /** The log, header included, lies on the disk, and block numbers fit in a word. */
  ghost predicate Layout(sb: SuperBlock, disk: Disk) {
    && CodecOk(sb.codec) && |disk| == sb.numBlocks < WORD_LIMIT
    && 1 <= sb.numLogBlocks && sb.logStart + sb.numLogBlocks <= sb.numBlocks
  }

  predicate HomeBlock(sb: SuperBlock, b: nat) { b < sb.numBlocks && !InLog(sb, b) }

  ghost predicate SameHome(sb: SuperBlock, d: Disk, e: Disk) {
    |d| == |e| == sb.numBlocks && forall b: nat {:trigger HomeBlock(sb, b)} | HomeBlock(sb, b) :: d[b] == e[b]
  }

  /** `disk` with the blocks of `m` on top. */
  function Overlay(disk: Disk, m: map<nat, Data>): Disk {
    seq(|disk|, b requires 0 <= b < |disk| => if b in m then m[b] else disk[b])
  }

  ghost function HeaderOf(sb: SuperBlock, disk: Disk): Header
    requires Layout(sb, disk)
  {
    sb.codec.decode(disk[sb.logStart])
  }

  /** The header on disk names blocks that the log can hold and that lie outside it. */
  ghost predicate LogOk(sb: SuperBlock, disk: Disk)
    requires Layout(sb, disk)
  {
    var h := HeaderOf(sb, disk);
    && h.numBlocks <= LOG_MAX_SIZE && h.numBlocks < sb.numLogBlocks
    && forall i | 0 <= i < h.numBlocks :: HomeBlock(sb, h.blockNo[i])
  }

  /** What the first `|nos|` log blocks hold for the home blocks `nos`; later ones win. */
  ghost function LogMap(sb: SuperBlock, disk: Disk, nos: seq<nat>): map<nat, Data>
    requires Layout(sb, disk) && |nos| < sb.numLogBlocks
  {
    if nos == [] then map[]
    else
      var n := |nos| - 1;
      LogMap(sb, disk, nos[..n])[nos[n] := disk[sb.logStart + 1 + n]]
  }

  lemma {:induction false} LogMapKeys(sb: SuperBlock, disk: Disk, nos: seq<nat>)
    requires Layout(sb, disk) && |nos| < sb.numLogBlocks
    ensures forall b :: b in LogMap(sb, disk, nos) <==> b in nos
  {
    if nos == [] {
    } else {
      var n := |nos| - 1;
      assert nos == nos[..n] + [nos[n]];
      LogMapKeys(sb, disk, nos[..n]);
    }
  }

  ghost function Pending(sb: SuperBlock, disk: Disk): seq<nat>
    requires Layout(sb, disk) && LogOk(sb, disk)
  {
    var h := HeaderOf(sb, disk);
    h.blockNo[..h.numBlocks]
  }

  /** What recovery would make of the disk. */
  ghost function Recovered(sb: SuperBlock, disk: Disk): Disk
    requires Layout(sb, disk) && LogOk(sb, disk)
  {
    Overlay(disk, LogMap(sb, disk, Pending(sb, disk)))
  }

  lemma {:induction false} LogMapSame(sb: SuperBlock, d: Disk, e: Disk, nos: seq<nat>)
    requires Layout(sb, d) && Layout(sb, e) && |nos| < sb.numLogBlocks
    requires forall b | sb.logStart < b < sb.logStart + sb.numLogBlocks :: d[b] == e[b]
    ensures LogMap(sb, d, nos) == LogMap(sb, e, nos)
  {
    if nos == [] {
    } else {
      LogMapSame(sb, d, e, nos[..|nos| - 1]);
    }
  }

  // ---- Device writes ----

  datatype Write = Write(no: nat, data: Data)

  function Put(disk: Disk, w: Write): (r: Disk)
    requires w.no < |disk|
  {
    disk[w.no := w.data]
  }

  predicate Fit(ws: seq<Write>, n: nat) { forall i | 0 <= i < |ws| :: ws[i].no < n }

  function PutAll(disk: Disk, ws: seq<Write>): (r: Disk)
    requires Fit(ws, |disk|)
    ensures |r| == |disk|
    decreases |ws|
  {
    if ws == [] then disk else Put(PutAll(disk, ws[..|ws| - 1]), ws[|ws| - 1])
  }

  // ---- commit (src/fs/cache.c:318-410) ----

  /** A commit of the pinned blocks `dirty`: `order` is the order in which write_log
      finds them, `order'` that in which write_data does, `stale` the header as it was. */
  datatype Commit = Commit(dirty: map<nat, Data>, order: seq<nat>, order': seq<nat>, stale: Header)

  ghost predicate Lists(s: seq<nat>, keys: set<nat>) {
    (forall b :: b in s <==> b in keys) && (forall i, j | 0 <= i < j < |s| :: s[i] != s[j])
  }

  lemma {:induction false} ListLength(s: seq<nat>, keys: set<nat>)
    requires Lists(s, keys)
    ensures |s| == |keys|
  {
    if s == [] {
      assert keys == {};
    } else {
      var n := |s| - 1;
      assert Lists(s[..n], keys - {s[n]}) by {
        assert s == s[..n] + [s[n]];
      }
      ListLength(s[..n], keys - {s[n]});
    }
  }

  ghost predicate CommitOk(sb: SuperBlock, c: Commit) {
    && Lists(c.order, c.dirty.Keys) && Lists(c.order', c.dirty.Keys)
    && (forall b <- c.dirty.Keys :: HomeBlock(sb, b))
    && |c.order| <= LOG_MAX_SIZE && |c.order| < sb.numLogBlocks
    && HeaderOk(c.stale)
  }

  /** The header that write_log fills in. */
  ghost function FullHeader(c: Commit): Header
    requires |c.order| <= |c.stale.blockNo|
  {
    Header(|c.order|, c.order + c.stale.blockNo[|c.order|..])
  }

  lemma FullHeaderOk(sb: SuperBlock, c: Commit)
    requires CommitOk(sb, c) && sb.numBlocks < WORD_LIMIT
    ensures HeaderOk(FullHeader(c)) && HeaderOk(FullHeader(c).(numBlocks := 0))
    ensures FullHeader(c).blockNo[..|c.order|] == c.order
  {
    var h := FullHeader(c);
    forall i | 0 <= i < LOG_MAX_SIZE
      ensures h.blockNo[i] < WORD_LIMIT
    {
      if i < |c.order| {
        assert h.blockNo[i] == c.order[i] && c.order[i] in c.dirty;
      } else {
        assert h.blockNo[i] == c.stale.blockNo[i];
      }
    }
  }

  /** The `k`th device write of a commit. */
  ghost function CommitWrite(sb: SuperBlock, c: Commit, k: nat): Write
    requires CommitOk(sb, c) && sb.numBlocks < WORD_LIMIT && k < CommitLength(c)
  {
    FullHeaderOk(sb, c);
    var n := |c.order|;
    if k < n then assert c.order[k] in c.dirty; Write(sb.logStart + 1 + k, c.dirty[c.order[k]])
    else if k == n then Write(sb.logStart, sb.codec.encode(FullHeader(c)))
    else if k <= n + |c.order'| then
      assert c.order'[k - n - 1] in c.dirty; Write(c.order'[k - n - 1], c.dirty[c.order'[k - n - 1]])
    else Write(sb.logStart, sb.codec.encode(FullHeader(c).(numBlocks := 0)))
  }

  function CommitLength(c: Commit): nat { |c.order| + |c.order'| + 2 }

  /** How many blocks write_data has written within the first `k` writes. */
  function HomeCount(c: Commit, k: nat): nat {
    if k <= |c.order| + 1 then 0
    else if k - |c.order| - 1 <= |c.order'| then k - |c.order| - 1
    else |c.order'|
  }

  ghost predicate LogStage(sb: SuperBlock, c: Commit, disk: Disk, k: nat)
    requires CommitOk(sb, c) && Layout(sb, disk)
  {
    forall i | 0 <= i < |c.order| && i < k :: c.order[i] in c.dirty && disk[sb.logStart + 1 + i] == c.dirty[c.order[i]]
  }

  ghost predicate HeaderStage(sb: SuperBlock, c: Commit, disk: Disk, k: nat)
    requires CommitOk(sb, c) && Layout(sb, disk)
  {
    if k <= |c.order| || k == CommitLength(c) then HeaderOf(sb, disk).numBlocks == 0
    else HeaderOf(sb, disk) == FullHeader(c)
  }

  ghost predicate HomeStage(sb: SuperBlock, c: Commit, base: Disk, disk: Disk, k: nat)
    requires CommitOk(sb, c) && Layout(sb, disk) && Layout(sb, base)
  {
    var done := c.order'[..HomeCount(c, k)];
    forall b: nat {:trigger HomeBlock(sb, b)} | HomeBlock(sb, b) :: disk[b] == if b in done && b in c.dirty then c.dirty[b] else base[b]
  }

  /** The disk after the first `k` writes of the commit `c` to a disk whose home was `base`. */
  ghost predicate Committing(sb: SuperBlock, c: Commit, base: Disk, disk: Disk, k: nat)
    requires CommitOk(sb, c) && Layout(sb, disk) && Layout(sb, base)
  {
    && k <= CommitLength(c)
    && LogStage(sb, c, disk, k) && HeaderStage(sb, c, disk, k) && HomeStage(sb, c, base, disk, k)
  }

  /** One device write of the commit. */
  lemma CommitStep(sb: SuperBlock, c: Commit, base: Disk, disk: Disk, k: nat)
    requires CommitOk(sb, c) && Layout(sb, disk) && Layout(sb, base)
    requires Committing(sb, c, base, disk, k) && k < CommitLength(c)
    ensures CommitWrite(sb, c, k).no < |disk|
    ensures Committing(sb, c, base, Put(disk, CommitWrite(sb, c, k)), k + 1)
  {
    var n := |c.order|;
    if k < n {
      LogWriteStep(sb, c, base, disk, k);
    } else if |c.order| < k <= n + |c.order'| {
      HomeWriteStep(sb, c, base, disk, k);
    } else {
      HeaderWriteStep(sb, c, base, disk, k);
    }
  }

  lemma LogWriteStep(sb: SuperBlock, c: Commit, base: Disk, disk: Disk, k: nat)
    requires CommitOk(sb, c) && Layout(sb, disk) && Layout(sb, base)
    requires Committing(sb, c, base, disk, k) && k < |c.order|
    ensures CommitWrite(sb, c, k).no < |disk|
    ensures Committing(sb, c, base, Put(disk, CommitWrite(sb, c, k)), k + 1)
  {
    assert c.order[k] in c.dirty;
  }

  /** A header write leaves the log and the home blocks as they are. */
  lemma HeaderWriteKeeps(sb: SuperBlock, c: Commit, base: Disk, disk: Disk, k: nat, h: Header, disk': Disk)
    requires CommitOk(sb, c) && Layout(sb, disk) && Layout(sb, base) && Layout(sb, disk')
    requires LogStage(sb, c, disk, k) && HomeStage(sb, c, base, disk, k) && (k == |c.order| || k + 1 == CommitLength(c))
    requires HeaderOk(h) && disk' == Put(disk, Write(sb.logStart, sb.codec.encode(h)))
    ensures LogStage(sb, c, disk', k + 1) && HomeStage(sb, c, base, disk', k + 1)
  {
    assert c.order'[..HomeCount(c, k)] == c.order'[..HomeCount(c, k + 1)];
  }

  lemma HeaderWriteStep(sb: SuperBlock, c: Commit, base: Disk, disk: Disk, k: nat)
    requires CommitOk(sb, c) && Layout(sb, disk) && Layout(sb, base)
    requires Committing(sb, c, base, disk, k) && (k == |c.order| || k + 1 == CommitLength(c))
    ensures CommitWrite(sb, c, k).no < |disk|
    ensures Committing(sb, c, base, Put(disk, CommitWrite(sb, c, k)), k + 1)
  {
    FullHeaderOk(sb, c);
    var h := if k == |c.order| then FullHeader(c) else FullHeader(c).(numBlocks := 0);
    PutHeader(sb, disk, h);
    HeaderWriteKeeps(sb, c, base, disk, k, h, Put(disk, CommitWrite(sb, c, k)));
  }

  /** A header write changes the header and nothing else. */
  lemma PutHeader(sb: SuperBlock, disk: Disk, h: Header)
    requires Layout(sb, disk) && HeaderOk(h)
    ensures var disk' := Put(disk, Write(sb.logStart, sb.codec.encode(h)));
      && Layout(sb, disk') && HeaderOf(sb, disk') == h
      && forall b | 0 <= b < |disk| && b != sb.logStart :: disk'[b] == disk[b]
  {
  }

  lemma HomeWriteStep(sb: SuperBlock, c: Commit, base: Disk, disk: Disk, k: nat)
    requires CommitOk(sb, c) && Layout(sb, disk) && Layout(sb, base)
    requires Committing(sb, c, base, disk, k) && |c.order| < k <= |c.order| + |c.order'|
    ensures CommitWrite(sb, c, k).no < |disk|
    ensures Committing(sb, c, base, Put(disk, CommitWrite(sb, c, k)), k + 1)
  {
    var w := CommitWrite(sb, c, k);
    assert c.order'[k - |c.order| - 1] in c.dirty && HomeBlock(sb, w.no);
    PutOutsideLog(sb, disk, w);
    HomeWriteHome(sb, c, base, disk, k, k - |c.order| - 1, w, Put(disk, w));
  }

  /** One more committed block is at home. */
  lemma HomeWriteHome(sb: SuperBlock, c: Commit, base: Disk, disk: Disk, k: nat, j: nat, w: Write, disk': Disk)
    requires CommitOk(sb, c) && Layout(sb, disk) && Layout(sb, base) && Layout(sb, disk') && HomeStage(sb, c, base, disk, k)
    requires k == j + |c.order| + 1 && j < |c.order'| && c.order'[j] in c.dirty && w == Write(c.order'[j], c.dirty[c.order'[j]])
    requires w.no < |disk| && disk' == Put(disk, w)
    ensures HomeStage(sb, c, base, disk', k + 1)
  {
    assert c.order'[..j + 1] == c.order'[..j] + [c.order'[j]];
  }

  lemma {:induction false} LogMapOf(sb: SuperBlock, disk: Disk, nos: seq<nat>, m: map<nat, Data>)
    requires Layout(sb, disk) && |nos| < sb.numLogBlocks
    requires forall i | 0 <= i < |nos| :: nos[i] in m && disk[sb.logStart + 1 + i] == m[nos[i]]
    ensures forall b <- LogMap(sb, disk, nos) :: b in m && LogMap(sb, disk, nos)[b] == m[b]
  {
    if nos == [] {
    } else {
      LogMapOf(sb, disk, nos[..|nos| - 1], m);
    }
  }

  /** At every point of a commit the disk is worth either the old state or the new one. */
  lemma CommitRecovered(sb: SuperBlock, c: Commit, base: Disk, disk: Disk, k: nat)
    requires CommitOk(sb, c) && Layout(sb, disk) && Layout(sb, base) && Committing(sb, c, base, disk, k)
    ensures LogOk(sb, disk)
    ensures SameHome(sb, Recovered(sb, disk), if k <= |c.order| then base else Overlay(base, c.dirty))
    ensures k == CommitLength(c) ==> SameHome(sb, disk, Overlay(base, c.dirty)) && HeaderOf(sb, disk).numBlocks == 0
  {
    if k <= |c.order| || k == CommitLength(c) {
      NothingPending(sb, disk);
      if k <= |c.order| {
        NoneHome(sb, c, base, disk, k);
      } else {
        AllHome(sb, c, base, disk, k);
      }
    } else {
      CommitPending(sb, c, disk, k);
      OverlayAbsorbs(sb, disk, base, map b | b in c.order'[..HomeCount(c, k)] && b in c.dirty :: c.dirty[b], c.dirty);
    }
  }

  lemma NothingPending(sb: SuperBlock, disk: Disk)
    requires Layout(sb, disk) && HeaderOf(sb, disk).numBlocks == 0
    ensures LogOk(sb, disk) && Recovered(sb, disk) == disk
  {
  }

  /** Once the header is written, the log holds exactly the committed blocks. */
  lemma CommitPending(sb: SuperBlock, c: Commit, disk: Disk, k: nat)
    requires CommitOk(sb, c) && Layout(sb, disk) && |c.order| < k
    requires LogStage(sb, c, disk, k) && HeaderOf(sb, disk) == FullHeader(c)
    ensures LogOk(sb, disk) && Recovered(sb, disk) == Overlay(disk, c.dirty)
  {
    FullHeaderOk(sb, c);
    forall i | 0 <= i < |c.order|
      ensures HomeBlock(sb, HeaderOf(sb, disk).blockNo[i])
    {
      assert FullHeader(c).blockNo[i] == c.order[i] && c.order[i] in c.dirty;
    }
    assert Pending(sb, disk) == c.order;
    LogMapOf(sb, disk, c.order, c.dirty);
    LogMapKeys(sb, disk, c.order);
    SameMap(LogMap(sb, disk, c.order), c.dirty, c.order);
  }

  lemma SameMap(m: map<nat, Data>, dirty: map<nat, Data>, order: seq<nat>)
    requires Lists(order, dirty.Keys) && (forall b :: b in m <==> b in order)
    requires forall b <- m :: b in dirty && m[b] == dirty[b]
    ensures m == dirty
  {
    assert m.Keys == dirty.Keys;
  }

  // ---- restore_log (src/fs/cache.c:206-220) ----

  /** How many device writes a recovery of `d0` issues, `valid` being the flag in memory. */
  ghost function RestoreLength(sb: SuperBlock, d0: Disk, valid: bool): nat
    requires Layout(sb, d0) && LogOk(sb, d0)
  {
    var n := HeaderOf(sb, d0).numBlocks;
    if valid || n != 0 then n + 1 else 0
  }

  ghost function RestoreWrite(sb: SuperBlock, d0: Disk, k: nat): Write
    requires Layout(sb, d0) && LogOk(sb, d0) && k <= HeaderOf(sb, d0).numBlocks
  {
    var h := HeaderOf(sb, d0);
    if k < h.numBlocks then Write(h.blockNo[k], d0[sb.logStart + 1 + k])
    else Write(sb.logStart, sb.codec.encode(h.(numBlocks := 0)))
  }

  /** The home blocks of `disk` are those of `base` with `m` on top. */
  ghost predicate HomeIs(sb: SuperBlock, disk: Disk, base: Disk, m: map<nat, Data>)
    requires |disk| == |base| == sb.numBlocks
  {
    forall b: nat {:trigger HomeBlock(sb, b)} | HomeBlock(sb, b) :: disk[b] == if b in m then m[b] else base[b]
  }

  lemma PutHome(sb: SuperBlock, disk: Disk, base: Disk, m: map<nat, Data>, w: Write)
    requires |disk| == |base| == sb.numBlocks && HomeIs(sb, disk, base, m) && HomeBlock(sb, w.no)
    ensures HomeIs(sb, Put(disk, w), base, m[w.no := w.data])
  {
  }

  /** The disk after the first `k` writes of a recovery that found `d0`. */
  ghost predicate Restoring(sb: SuperBlock, d0: Disk, disk: Disk, k: nat)
    requires Layout(sb, d0) && LogOk(sb, d0) && Layout(sb, disk)
  {
    RestoringWith(sb, d0, disk, k, LogMap(sb, d0, HeaderOf(sb, d0).blockNo[..Min(k, HeaderOf(sb, d0).numBlocks)]))
  }

  /** ... of which those to home blocks were `m`. */
  ghost predicate RestoringWith(sb: SuperBlock, d0: Disk, disk: Disk, k: nat, m: map<nat, Data>)
    requires Layout(sb, d0) && LogOk(sb, d0) && Layout(sb, disk)
  {
    var h := HeaderOf(sb, d0);
    && k <= h.numBlocks + 1 && HomeIs(sb, disk, d0, m)
    && (forall b | sb.logStart < b < sb.logStart + sb.numLogBlocks :: disk[b] == d0[b])
    && HeaderOf(sb, disk) == if k <= h.numBlocks then h else h.(numBlocks := 0)
  }

  function Min(a: nat, b: nat): nat { if a <= b then a else b }

  lemma RestoreStep(sb: SuperBlock, d0: Disk, disk: Disk, k: nat)
    requires Layout(sb, d0) && LogOk(sb, d0) && Layout(sb, disk)
    requires Restoring(sb, d0, disk, k) && k <= HeaderOf(sb, d0).numBlocks
    ensures RestoreWrite(sb, d0, k).no < |disk|
    ensures Restoring(sb, d0, Put(disk, RestoreWrite(sb, d0, k)), k + 1)
  {
    if k < HeaderOf(sb, d0).numBlocks {
      RestoreCopy(sb, d0, disk, k);
    } else {
      PutHeader(sb, disk, HeaderOf(sb, d0).(numBlocks := 0));
    }
  }

  lemma LogMapSnoc(sb: SuperBlock, d: Disk, nos: seq<nat>, k: nat)
    requires Layout(sb, d) && k < |nos| && k + 1 < sb.numLogBlocks
    ensures LogMap(sb, d, nos[..k + 1]) == LogMap(sb, d, nos[..k])[nos[k] := d[sb.logStart + 1 + k]]
  {
    assert nos[..k + 1][..k] == nos[..k];
  }

  lemma CopyWith(sb: SuperBlock, d0: Disk, disk: Disk, k: nat, m: map<nat, Data>, w: Write)
    requires Layout(sb, d0) && LogOk(sb, d0) && Layout(sb, disk) && HomeBlock(sb, w.no)
    requires RestoringWith(sb, d0, disk, k, m) && k < HeaderOf(sb, d0).numBlocks
    ensures RestoringWith(sb, d0, Put(disk, w), k + 1, m[w.no := w.data])
  {
    PutHome(sb, disk, d0, m, w);
    PutOutsideLog(sb, disk, w);
  }

  lemma RestoreCopy(sb: SuperBlock, d0: Disk, disk: Disk, k: nat)
    requires Layout(sb, d0) && LogOk(sb, d0) && Layout(sb, disk)
    requires Restoring(sb, d0, disk, k) && k < HeaderOf(sb, d0).numBlocks
    ensures RestoreWrite(sb, d0, k).no < |disk|
    ensures Restoring(sb, d0, Put(disk, RestoreWrite(sb, d0, k)), k + 1)
  {
    var nos, w := HeaderOf(sb, d0).blockNo, RestoreWrite(sb, d0, k);
    assert HomeBlock(sb, nos[k]);
    CopyWith(sb, d0, disk, k, LogMap(sb, d0, nos[..k]), w);
    LogMapSnoc(sb, d0, nos, k);
  }

  /** A write to a home block leaves the log alone. */
  lemma PutOutsideLog(sb: SuperBlock, disk: Disk, w: Write)
    requires Layout(sb, disk) && HomeBlock(sb, w.no)
    ensures Layout(sb, Put(disk, w)) && HeaderOf(sb, Put(disk, w)) == HeaderOf(sb, disk)
    ensures forall b | sb.logStart < b < sb.logStart + sb.numLogBlocks :: Put(disk, w)[b] == disk[b]
  {
  }

  /** A recovery, however far it gets, does not change what the disk is worth. */
  lemma RestoreRecovered(sb: SuperBlock, d0: Disk, disk: Disk, k: nat)
    requires Layout(sb, d0) && LogOk(sb, d0) && Layout(sb, disk) && Restoring(sb, d0, disk, k)
    ensures LogOk(sb, disk)
    ensures SameHome(sb, Recovered(sb, disk), Recovered(sb, d0))
    ensures k == HeaderOf(sb, d0).numBlocks + 1 ==> SameHome(sb, disk, Recovered(sb, d0)) && HeaderOf(sb, disk).numBlocks == 0
  {
    if k <= HeaderOf(sb, d0).numBlocks {
      PartRestored(sb, d0, disk, k);
    } else {
      AllRestored(sb, d0, disk, k);
      NothingPending(sb, disk);
    }
  }

  lemma PartRestored(sb: SuperBlock, d0: Disk, disk: Disk, k: nat)
    requires Layout(sb, d0) && LogOk(sb, d0) && Layout(sb, disk) && Restoring(sb, d0, disk, k) && k <= HeaderOf(sb, d0).numBlocks
    ensures LogOk(sb, disk) && SameHome(sb, Recovered(sb, disk), Recovered(sb, d0))
  {
    var nos := Pending(sb, d0);
    var part, m := LogMap(sb, d0, HeaderOf(sb, d0).blockNo[..k]), LogMap(sb, d0, nos);
    assert nos[..k] == HeaderOf(sb, d0).blockNo[..k];
    LogMapKeys(sb, d0, nos);
    LogMapKeys(sb, d0, nos[..k]);
    assert part.Keys <= m.Keys;
    LogMapSame(sb, disk, d0, nos);
    OverlayAbsorbs(sb, disk, d0, part, m);
  }

  lemma AllRestored(sb: SuperBlock, d0: Disk, disk: Disk, k: nat)
    requires Layout(sb, d0) && LogOk(sb, d0) && Layout(sb, disk) && Restoring(sb, d0, disk, k) && k == HeaderOf(sb, d0).numBlocks + 1
    ensures SameHome(sb, disk, Recovered(sb, d0)) && HeaderOf(sb, disk).numBlocks == 0
  {
    var m := LogMap(sb, d0, Pending(sb, d0));
    OverlayAbsorbs(sb, disk, d0, m, m);
  }

  /** Writing some blocks of `m` early makes no difference once all of `m` is laid on top. */
  lemma OverlayAbsorbs(sb: SuperBlock, disk: Disk, base: Disk, part: map<nat, Data>, m: map<nat, Data>)
    requires |disk| == |base| == sb.numBlocks && HomeIs(sb, disk, base, part) && part.Keys <= m.Keys
    ensures SameHome(sb, Overlay(disk, m), Overlay(base, m))
    ensures part == m ==> SameHome(sb, disk, Overlay(base, m))
  {
  }

  // ---- Crash atomicity ----

  lemma CommitStart(sb: SuperBlock, c: Commit, d: Disk)
    requires CommitOk(sb, c) && Layout(sb, d) && HeaderOf(sb, d).numBlocks == 0
    ensures Committing(sb, c, d, d, 0)
  {
    assert c.order'[..0] == [];
  }

  lemma RestoreStart(sb: SuperBlock, d: Disk)
    requires Layout(sb, d) && LogOk(sb, d)
    ensures Restoring(sb, d, d, 0)
  {
    assert HeaderOf(sb, d).blockNo[..0] == [];
  }

  /** The disk `d` after the first `k` writes of a commit. */
  ghost function AfterCommit(sb: SuperBlock, c: Commit, d: Disk, k: nat): (r: Disk)
    requires CommitOk(sb, c) && Layout(sb, d) && HeaderOf(sb, d).numBlocks == 0 && k <= CommitLength(c)
    ensures Layout(sb, r) && Committing(sb, c, d, r, k)
  {
    if k == 0 then CommitStart(sb, c, d); d
    else
      var j := k - 1;
      var r := AfterCommit(sb, c, d, j);
      CommitStep(sb, c, d, r, j);
      Put(r, CommitWrite(sb, c, j))
  }

  lemma AfterCommitNext(sb: SuperBlock, c: Commit, d: Disk, k: nat)
    requires CommitOk(sb, c) && Layout(sb, d) && HeaderOf(sb, d).numBlocks == 0 && k < CommitLength(c)
    ensures CommitWrite(sb, c, k).no < |AfterCommit(sb, c, d, k)|
    ensures AfterCommit(sb, c, d, k + 1) == Put(AfterCommit(sb, c, d, k), CommitWrite(sb, c, k))
  {
    CommitStep(sb, c, d, AfterCommit(sb, c, d, k), k);
  }

  /** Before write_data starts, no committed block is at home. */
  lemma NoneHome(sb: SuperBlock, c: Commit, base: Disk, disk: Disk, k: nat)
    requires CommitOk(sb, c) && Layout(sb, disk) && Layout(sb, base) && HomeStage(sb, c, base, disk, k) && k <= |c.order| + 1
    ensures SameHome(sb, disk, base)
  {
    assert c.order'[..HomeCount(c, k)] == [];
  }

  /** Once it is done, every one is. */
  lemma AllHome(sb: SuperBlock, c: Commit, base: Disk, disk: Disk, k: nat)
    requires CommitOk(sb, c) && Layout(sb, disk) && Layout(sb, base) && HomeStage(sb, c, base, disk, k) && k + 1 >= CommitLength(c)
    ensures SameHome(sb, disk, Overlay(base, c.dirty))
  {
    assert c.order'[..HomeCount(c, k)] == c.order';
  }

  /** The disk `d` after the first `k` writes of a recovery. */
  ghost function AfterRestore(sb: SuperBlock, d: Disk, k: nat): (r: Disk)
    requires Layout(sb, d) && LogOk(sb, d) && k <= HeaderOf(sb, d).numBlocks + 1
    ensures Layout(sb, r) && Restoring(sb, d, r, k)
  {
    if k == 0 then RestoreStart(sb, d); d
    else
      var j := k - 1;
      var r := AfterRestore(sb, d, j);
      RestoreStep(sb, d, r, j);
      Put(r, RestoreWrite(sb, d, j))
  }

  lemma AfterRestoreNext(sb: SuperBlock, d: Disk, k: nat)
    requires Layout(sb, d) && LogOk(sb, d) && k <= HeaderOf(sb, d).numBlocks
    ensures RestoreWrite(sb, d, k).no < |AfterRestore(sb, d, k)|
    ensures AfterRestore(sb, d, k + 1) == Put(AfterRestore(sb, d, k), RestoreWrite(sb, d, k))
    ensures k < HeaderOf(sb, d).numBlocks ==> AfterRestore(sb, d, k)[sb.logStart + 1 + k] == d[sb.logStart + 1 + k]
  {
    RestoreStep(sb, d, AfterRestore(sb, d, k), k);
  }

  /** The disk after recoveries that were cut short after `cuts[0]`, `cuts[1]`, ... writes. */
  ghost function AfterCrashes(sb: SuperBlock, d: Disk, cuts: seq<nat>): (r: Disk)
    requires Layout(sb, d) && LogOk(sb, d)
    ensures Layout(sb, r) && LogOk(sb, r)
    ensures SameHome(sb, Recovered(sb, r), Recovered(sb, d))
    decreases |cuts|
  {
    if cuts == [] then d
    else
      var r := AfterRestore(sb, d, Min(cuts[0], HeaderOf(sb, d).numBlocks + 1));
      RestoreRecovered(sb, d, r, Min(cuts[0], HeaderOf(sb, d).numBlocks + 1));
      AfterCrashes(sb, r, cuts[1..])
  }

  /** Cut a commit after any number of writes, then any number of recoveries likewise:
      the first recovery that completes leaves all of the old state or all of the new
      one, and an empty log. */
  lemma CrashAtomicity(sb: SuperBlock, c: Commit, d: Disk, k: nat, cuts: seq<nat>, valid: bool)
    requires CommitOk(sb, c) && Layout(sb, d) && HeaderOf(sb, d).numBlocks == 0 && k <= CommitLength(c)
    ensures var cut := AfterCommit(sb, c, d, k);
      && LogOk(sb, cut)
      && var d1 := AfterCrashes(sb, cut, cuts);
         var d2 := AfterRestore(sb, d1, RestoreLength(sb, d1, valid));
        && SameHome(sb, d2, if k <= |c.order| then d else Overlay(d, c.dirty))
        && HeaderOf(sb, d2).numBlocks == 0
  {
    var cut := AfterCommit(sb, c, d, k);
    CommitRecovered(sb, c, d, cut, k);
    var d1 := AfterCrashes(sb, cut, cuts);
    RecoveryCompletes(sb, d1, valid);
  }

  /** A recovery that runs to its end leaves the home blocks as the disk was worth. */
  lemma RecoveryCompletes(sb: SuperBlock, d: Disk, valid: bool)
    requires Layout(sb, d) && LogOk(sb, d)
    ensures var r := AfterRestore(sb, d, RestoreLength(sb, d, valid));
      SameHome(sb, r, Recovered(sb, d)) && HeaderOf(sb, r).numBlocks == 0
  {
    var k := RestoreLength(sb, d, valid);
    if k != 0 {
      RestoreRecovered(sb, d, AfterRestore(sb, d, k), k);
    }
  }
}
