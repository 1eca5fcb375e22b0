/** The block cache of src/fs/cache.c: one list of in-memory blocks over a device.

A method runs as one step. Where the code sleeps on a block's lock, a method ends, and
another is what happens when the lock is free. Where it would panic, the method says so. */
module BlockCache {
  import opened WriteAheadLog

  const EVICTION_THRESHOLD := 20

  class Block {
    var blockNo: nat
    var acquired: bool
    var pinned: bool
    var valid: bool
    var data: Data
    var refcnt: int

    /** init_block followed by the fields cache_acquire sets */
    constructor (no: nat)
      ensures blockNo == no && !acquired && !pinned && !valid && refcnt == 1
    {
      blockNo, acquired, pinned, valid, refcnt := no, false, false, false, 1;
      data := seq(BLOCK_SIZE, _ => 0);
    }
  }

  class OpContext {
    var rm: nat
    var done: nat

    /** init_ctx */
    constructor ()
      ensures rm == OP_MAX_NUM_BLOCKS && done == 0
    {
      rm, done := OP_MAX_NUM_BLOCKS, 0;
    }
  }

  /** The list holds each block once, and no two for the same block number. */
  ghost predicate Distinct(s: seq<Block>)
    reads s
  {
    && (forall i, j | 0 <= i < j < |s| :: s[i] != s[j])
    && (forall b, c | b in s && c in s :: b.blockNo == c.blockNo ==> b == c)
  }

  /** `rest` is the list `s` without `b`, in the same order. */
  ghost predicate Without(s: seq<Block>, b: Block, rest: seq<Block>) {
    exists i: nat :: i < |s| && s[i] == b && rest == s[..i] + s[i + 1..]
  }

  /** `s'` is the list `s` after nobody needs `b` any more: `b` is evicted if there are too
      many blocks, and else it is the first. */
  ghost predicate Retired(s: seq<Block>, b: Block, s': seq<Block>) {
    if |s| > EVICTION_THRESHOLD then Without(s, b, s') else s' != [] && s'[0] == b && Without(s, b, s'[1..])
  }

  ghost predicate Busy(b: Block)
    reads b
  {
    b.refcnt != 0 || b.pinned
  }

  /** `b` is the block nearest to the tail of the list `s` that nobody needs. */
  ghost predicate LastIdle(s: seq<Block>, b: Block)
    reads s
  {
    exists i: nat :: i < |s| && s[i] == b && !Busy(b) && forall j | i < j < |s| :: Busy(s[j])
  }

  /** Whoever holds a block is counted; a block neither held nor pinned is as on disk. */
  ghost predicate Clean(sb: SuperBlock, disk: Disk, s: seq<Block>)
    reads s
  {
    |disk| == sb.numBlocks && forall b | b in s :: Sound(sb, disk, b)
  }

  ghost predicate Sound(sb: SuperBlock, disk: Disk, b: Block)
    requires |disk| == sb.numBlocks
    reads b
  {
    && HomeBlock(sb, b.blockNo) && b.refcnt >= 0 && (b.acquired ==> b.refcnt > 0)
    && (!b.pinned && !b.acquired ==> b.data == disk[b.blockNo])
  }

  /** The cached copy if there is one, else the block on disk. */
  ghost function ViewIn(disk: Disk, s: seq<Block>, no: nat): Data
    requires no < |disk|
    reads s
  {
    if exists b :: b in s && b.blockNo == no then (var b :| b in s && b.blockNo == no; b.data)
    else disk[no]
  }

  lemma ViewCached(disk: Disk, s: seq<Block>, b: Block)
    requires Distinct(s) && b in s && b.blockNo < |disk|
    ensures ViewIn(disk, s, b.blockNo) == b.data
  {
  }

  /** `save` are the pinned blocks of the list `s`. */
  ghost predicate AllPinned(s: seq<Block>, save: seq<Block>)
    reads s
  {
    && (forall b | b in save :: b in s && b.pinned)
    && (forall b | b in s && b.pinned :: b in save)
    && (forall i, j | 0 <= i < j < |save| :: save[i] != save[j])
  }

  /** The pinned blocks and their contents. */
  ghost function DirtyOf(s: seq<Block>): map<nat, Data>
    requires Distinct(s)
    reads s
  {
    map b | b in s && b.pinned :: b.blockNo := b.data
  }

  lemma PinnedNumbers(s: seq<Block>, save: seq<Block>)
    requires Distinct(s) && AllPinned(s, save)
    ensures forall i, j | 0 <= i < j < |save| :: save[i].blockNo != save[j].blockNo
  {
    forall i, j | 0 <= i < j < |save|
      ensures save[i].blockNo != save[j].blockNo
    {
      assert save[i] in s && save[j] in s;
    }
  }

  lemma PinnedListed(s: seq<Block>, save: seq<Block>)
    requires Distinct(s) && AllPinned(s, save)
    ensures Lists(NosOf(save), DirtyOf(s).Keys) && |save| == |DirtyOf(s)|
    ensures forall i | 0 <= i < |save| :: save[i].blockNo in DirtyOf(s) && DirtyOf(s)[save[i].blockNo] == save[i].data
  {
    PinnedNumbers(s, save);
    var nos, dirty := NosOf(save), DirtyOf(s);
    forall i | 0 <= i < |save|
      ensures nos[i] in dirty && dirty[nos[i]] == save[i].data
    {
      assert save[i] in s;
    }
    forall no | no in dirty
      ensures no in nos
    {
      var b :| b in s && b.pinned && b.blockNo == no;
      var i :| 0 <= i < |save| && save[i] == b;
      assert nos[i] == no;
    }
    ListLength(nos, dirty.Keys);
    assert |dirty| == |dirty.Keys|;
  }

  /** What the cache shows with one block more. */
  lemma NewView(disk: Disk, s: seq<Block>, b: Block)
    requires Distinct(s) && b !in s && (forall x | x in s :: x.blockNo != b.blockNo)
    ensures Distinct([b] + s)
    ensures forall x: nat | x < |disk| :: ViewIn(disk, [b] + s, x) == if x == b.blockNo then b.data else ViewIn(disk, s, x)
    ensures b.blockNo < |disk| ==> ViewIn(disk, s, b.blockNo) == disk[b.blockNo]
  {
    assert b in [b] + s;
    assert forall c | c in s :: c in [b] + s;
  }

  lemma CleanMore(sb: SuperBlock, disk: Disk, s: seq<Block>, b: Block)
    requires Clean(sb, disk, s) && Sound(sb, disk, b)
    ensures Clean(sb, disk, [b] + s)
  {
    forall x | x in [b] + s
      ensures Sound(sb, disk, x)
    {
      assert x != b ==> x in s;
    }
  }

  lemma SameView(disk: Disk, s: seq<Block>, s': seq<Block>)
    requires Distinct(s) && Distinct(s') && forall b :: b in s <==> b in s'
    ensures forall x: nat | x < |disk| :: ViewIn(disk, s', x) == ViewIn(disk, s, x)
  {
  }

  /** Writes to different blocks all last. */
  lemma {:induction false} PutAllAt(d: Disk, ws: seq<Write>, x: nat)
    requires Fit(ws, |d|) && x < |d| && forall i, j | 0 <= i < j < |ws| :: ws[i].no != ws[j].no
    ensures forall i | 0 <= i < |ws| && ws[i].no == x :: PutAll(d, ws)[x] == ws[i].data
    ensures (forall i | 0 <= i < |ws| :: ws[i].no != x) ==> PutAll(d, ws)[x] == d[x]
    decreases |ws|
  {
    if ws == [] {
    } else {
      PutAllAt(d, ws[..|ws| - 1], x);
    }
  }

  /** The blocks `save` of the list `s` have been written home. */
  lemma Sent(sb: SuperBlock, d: Disk, d': Disk, s: seq<Block>, save: seq<Block>, ws: seq<Write>)
    requires Distinct(s) && Clean(sb, d, s) && Fit(ws, |d|) && d' == PutAll(d, ws) && |ws| == |save|
    requires forall b | b in save :: b in s && b.pinned
    requires forall i | 0 <= i < |save| :: ws[i] == Write(save[i].blockNo, save[i].data)
    requires forall i, j | 0 <= i < j < |save| :: save[i].blockNo != save[j].blockNo
    ensures Clean(sb, d', s)
    ensures forall b | b in save :: b.blockNo < |d'| && d'[b.blockNo] == b.data
    ensures forall x: nat | x < |d| :: ViewIn(d', s, x) == ViewIn(d, s, x)
  {
    forall b | b in s
      ensures Sound(sb, d', b) && (b in save ==> d'[b.blockNo] == b.data)
    {
      assert Sound(sb, d, b);
      PutAllAt(d, ws, b.blockNo);
      if b !in save {
        NotSent(s, save, b);
      }
    }
    forall x: nat | x < |d|
      ensures ViewIn(d', s, x) == ViewIn(d, s, x)
    {
      PutAllAt(d, ws, x);
      assert (exists i :: 0 <= i < |save| && ws[i].no == x) ==> exists b :: b in s && b.blockNo == x by {
        if i :| 0 <= i < |save| && ws[i].no == x {
          assert save[i] in save && save[i] in s;
        }
      }
    }
  }

  lemma SavedFit(sb: SuperBlock, d: Disk, s: seq<Block>, save: seq<Block>, ws: seq<Write>)
    requires Clean(sb, d, s) && |ws| == |save| && forall b | b in save :: b in s
    requires forall i | 0 <= i < |save| :: ws[i] == Write(save[i].blockNo, save[i].data)
    ensures Fit(ws, |d|)
  {
    forall i | 0 <= i < |ws|
      ensures ws[i].no < |d|
    {
      assert save[i] in save && Sound(sb, d, save[i]);
    }
  }

  lemma NotSent(s: seq<Block>, save: seq<Block>, b: Block)
    requires Distinct(s) && b in s && b !in save && forall c | c in save :: c in s
    ensures forall i | 0 <= i < |save| :: save[i].blockNo != b.blockNo
  {
    forall i | 0 <= i < |save|
      ensures save[i].blockNo != b.blockNo
    {
      assert save[i] in save;
    }
  }

  /** The block `b` of the list `s` has been written to disk. */
  lemma SyncedNow(sb: SuperBlock, d: Disk, d': Disk, s: seq<Block>, b: Block)
    requires Layout(sb, d) && Distinct(s) && b in s && |d| == |d'| == sb.numBlocks && HomeBlock(sb, b.blockNo) && d' == d[b.blockNo := b.data]
    requires b.refcnt >= 0 && (b.acquired ==> b.refcnt > 0) && forall x | x in s && x != b :: Sound(sb, d, x)
    ensures Clean(sb, d', s) && HeaderOf(sb, d') == HeaderOf(sb, d)
    ensures forall x: nat | x < |d| :: ViewIn(d', s, x) == ViewIn(d, s, x)
  {
    forall x | x in s
      ensures Sound(sb, d', x)
    {
      assert x != b ==> Sound(sb, d, x);
    }
    ViewCached(d, s, b);
    ViewCached(d', s, b);
  }

  lemma CleanHome(sb: SuperBlock, d: Disk, d': Disk, s: seq<Block>)
    requires Clean(sb, d, s) && SameHome(sb, d', d)
    ensures Clean(sb, d', s)
  {
    forall b | b in s
      ensures Sound(sb, d', b)
    {
      assert Sound(sb, d, b);
    }
  }

  class Cache {
    const sb: SuperBlock
    var disk: Disk
    ghost const origin: Disk
    ghost var trace: seq<Write>
    var header: Header
    var headerValid: bool
    var head: seq<Block>
    var numCachedBlocks: nat

    ghost predicate Valid()
      reads this, head
    {
      && Layout(sb, disk) && HeaderOk(header)
      && numCachedBlocks == |head| && Distinct(head) && Clean(sb, disk, head)
    }

    /** What a user of the cache sees in block `no`. */
    ghost function View(no: nat): Data
      requires no < |disk|
      reads this, head
    {
      ViewIn(disk, head, no)
    }

    /** No log is pending. */
    ghost predicate Checkpointed()
      reads `disk
    {
      Layout(sb, disk) && HeaderOf(sb, disk).numBlocks == 0
    }

    /** The variables of the cache before init_bcache has run. */
    constructor (sb: SuperBlock, disk: Disk)
      ensures this.sb == sb && this.disk == disk && origin == disk && trace == []
      ensures head == [] && numCachedBlocks == 0 && !headerValid
    {
      this.sb, this.disk, head, numCachedBlocks := sb, disk, [], 0;
      origin, trace, headerValid := disk, [], false;
      header := Header(0, seq(LOG_MAX_SIZE, _ => 0));
    }

    /** init_bcache: an empty cache over the disk as recovery leaves it. */
    method Init(ghost plan: seq<Write>)
      requires Traced() && Layout(sb, disk) && LogOk(sb, disk)
      requires plan == RestoreTrace(sb, disk, RestoreLength(sb, disk, headerValid))
      modifies this
      ensures Valid() && Traced() && Checkpointed() && head == [] && !headerValid && header.numBlocks == 0
      ensures trace == old(trace) + plan
      ensures forall no: nat | HomeBlock(sb, no) :: View(no) == Recovered(sb, old(disk))[no]
    {
      head, numCachedBlocks := [], 0;
      RestoreLog(plan);
      headerValid := false;
    }

    /** The first search of cache_acquire. */
    method Lookup(no: nat) returns (b: Block?)
      requires Valid()
      ensures b != null ==> b in head && b.blockNo == no
      ensures b == null ==> forall x | x in head :: x.blockNo != no
    {
      for i := 0 to |head|
        invariant forall j | 0 <= j < i :: head[j].blockNo != no
      {
        if head[i].blockNo == no {
          return head[i];
        }
      }
      b := null;
    }

    /** The second search of cache_acquire, from the tail. */
    method Victim() returns (b: Block?)
      requires Valid()
      ensures b != null ==> b in head && b.refcnt == 0 && !b.pinned && !b.acquired && LastIdle(head, b)
      ensures b == null ==> forall x | x in head :: Busy(x)
    {
      var i := |head|;
      while i > 0
        invariant 0 <= i <= |head|
        invariant forall j | i <= j < |head| :: Busy(head[j])
      {
        i := i - 1;
        if head[i].refcnt == 0 && !head[i].pinned {
          return head[i];
        }
      }
      b := null;
    }

    /** The block is cached: it is referenced, and taken if its lock is free. */
    method Hit(b: Block) returns (ok: bool)
      requires Valid() && b in head
      modifies b`refcnt, b`acquired
      ensures Valid() && b.acquired && b.refcnt == old(b.refcnt) + 1 && ok == !old(b.acquired)
      ensures forall x: nat | x < |disk| :: View(x) == old(View(x))
    {
      b.refcnt := b.refcnt + 1;
      ok := !b.acquired;
      if ok {
        b.acquired := true;
      }
    }

    /** A new block is put at the front of the list and read from disk. */
    method Grow(no: nat) returns (b: Block)
      requires Valid() && HomeBlock(sb, no) && (forall x | x in head :: x.blockNo != no)
      modifies `head, `numCachedBlocks
      ensures Valid() && fresh(b) && head == [b] + old(head)
      ensures b.blockNo == no && b.acquired && b.refcnt == 1 && !b.pinned && b.valid && b.data == disk[no]
      ensures forall x: nat | x < |disk| :: View(x) == old(View(x))
    {
      b := new Block(no);
      b.data := disk[no];
      b.valid := true;
      b.acquired := true;
      NewView(disk, head, b);
      CleanMore(sb, disk, head, b);
      head := [b] + head;
      numCachedBlocks := numCachedBlocks + 1;
    }

    /** An idle block `b` is turned into the block `no`; it keeps its place in the list. */
    method Reuse(b: Block, no: nat)
      requires Valid() && HomeBlock(sb, no) && (forall x | x in head :: x.blockNo != no)
      requires b in head && b.refcnt == 0 && !b.pinned && !b.acquired
      modifies b
      ensures Valid()
      ensures b.blockNo == no && b.acquired && b.refcnt == 1 && !b.pinned && b.valid && b.data == disk[no]
      ensures forall x: nat | x < |disk| :: View(x) == old(View(x))
    {
      b.blockNo := no;
      b.refcnt := 1;
      b.data := disk[no];
      b.valid := true;
      b.acquired := true;
    }

    /** cache_acquire. If another holds the block, then `ok` is false: the block is now
        referenced, so that it stays, and the caller sleeps until it can go on with
        `Obtain`. */
    method Acquire(no: nat) returns (ok: bool, b: Block)
      requires Valid() && HomeBlock(sb, no)
      modifies this`head, this`numCachedBlocks, head
      ensures Valid() && b in head && b.blockNo == no && b.acquired && b.data == old(View(no)) && b.refcnt > 0
      ensures !ok <==> exists x | x in old(head) :: old(x.blockNo) == no && old(x.acquired)
      ensures forall x: nat | x < |disk| :: View(x) == old(View(x))
      ensures forall x | x in old(head) && x != b :: x in head && unchanged(x)
      // cached: referenced once more, and all stays in place
      ensures (exists x | x in old(head) :: old(x.blockNo) == no) ==>
        b in old(head) && old(b.blockNo) == no && head == old(head) && b.refcnt == old(b.refcnt) + 1 && b.pinned == old(b.pinned)
      // not cached: a new block in front, or in place of an idle one
      ensures (forall x | x in old(head) :: old(x.blockNo) != no) ==> b.refcnt == 1 && !b.pinned && b.valid
      ensures (forall x | x in old(head) :: old(x.blockNo) != no) ==>
        if old(|head|) < EVICTION_THRESHOLD || (forall x | x in old(head) :: old(Busy(x)))
        then fresh(b) && head == [b] + old(head)
        else head == old(head) && b in head && old(LastIdle(head, b))
    {
      ok := true;
      var hit := Lookup(no);
      if hit != null {
        ViewCached(disk, head, hit);
        ok := Hit(hit);
        return ok, hit;
      }
      if numCachedBlocks < EVICTION_THRESHOLD {
        b := Grow(no);
        return;
      }
      var idle := Victim();
      if idle != null {
        Reuse(idle, no);
        return ok, idle;
      }
      b := Grow(no);
    }

    /** The end of cache_acquire for a caller that had to wait, once the lock is free. */
    method Obtain(b: Block)
      requires Valid() && b in head && !b.acquired && b.refcnt > 0
      modifies b`acquired
      ensures Valid() && b.acquired && b.data == View(b.blockNo)
      ensures forall x: nat | x < |disk| :: View(x) == old(View(x))
    {
      b.acquired := true;
    }

    /** The caller writes into a block it holds. */
    method Store(b: Block, data: Data)
      requires Valid() && b in head && b.acquired
      modifies b`data
      ensures Valid() && b.data == data
      ensures forall x: nat | x < |disk| && x != b.blockNo :: View(x) == old(View(x))
      ensures View(b.blockNo) == data
    {
      b.data := data;
    }

    /** The list is in order, and every block but `b` is sound. */
    ghost predicate ValidBut(b: Block)
      reads this, head
    {
      && Layout(sb, disk) && HeaderOk(header)
      && numCachedBlocks == |head| && Distinct(head) && forall x | x in head && x != b :: Sound(sb, disk, x)
    }

    /** cache_release. If the caller has changed the block and not synced it, then the change
        is lost with the block, and stays visible as long as the block stays. */
    method Release(b: Block)
      requires Valid() && b in head && b.acquired
      modifies this`head, this`numCachedBlocks, b`acquired, b`refcnt
      ensures !b.acquired && b.refcnt == old(b.refcnt) - 1 && ValidBut(b)
      ensures Valid() <==> b !in head || b.pinned || b.data == disk[b.blockNo]
      ensures forall x: nat | x < |disk| && x != b.blockNo :: View(x) == old(View(x))
      ensures View(b.blockNo) == if b in head then b.data else disk[b.blockNo]
      ensures if Busy(b) then head == old(head) else Retired(old(head), b, head)
      ensures b in head <==> Busy(b) || old(|head|) <= EVICTION_THRESHOLD
      ensures numCachedBlocks == old(numCachedBlocks) - if b in head then 0 else 1
    {
      ViewCached(disk, head, b);
      b.acquired := false;
      b.refcnt := b.refcnt - 1;
      if b.refcnt == 0 && !b.pinned {
        Retire(b);
      }
    }

    /** A block that nobody holds is evicted if there are too many, or else put in front. */
    method Retire(b: Block)
      requires ValidBut(b) && b in head && b.blockNo < |disk|
      modifies `head, `numCachedBlocks
      ensures ValidBut(b)
      ensures forall x: nat | x < |disk| && x != b.blockNo :: View(x) == old(View(x))
      ensures View(b.blockNo) == if b in head then b.data else disk[b.blockNo]
      ensures Retired(old(head), b, head) && (b in head <==> old(|head|) <= EVICTION_THRESHOLD)
    {
      var rest := Detach(b);
      NewView(disk, rest, b);
      SameView(disk, head, [b] + rest);
      if numCachedBlocks > EVICTION_THRESHOLD {
        head := rest;
        numCachedBlocks := numCachedBlocks - 1;
      } else {
        head := [b] + rest;
      }
    }

    /** The list without `b` (_detach_from_list). */
    method Detach(b: Block) returns (rest: seq<Block>)
      requires b in head && forall i, j | 0 <= i < j < |head| :: head[i] != head[j]
      ensures |rest| == |head| - 1 && b !in rest && Without(head, b, rest)
      ensures forall x :: x in rest <==> x in head && x != b
      ensures forall i, j | 0 <= i < j < |rest| :: rest[i] != rest[j]
    {
      var i := 0;
      while head[i] != b
        invariant 0 <= i < |head| && b in head[i..]
        decreases |head| - i
      {
        i := i + 1;
      }
      rest := head[..i] + head[i + 1..];
      assert head == head[..i] + [b] + head[i + 1..];
    }

    // ---- Sync ----

    /** cache_sync without a context. */
    method WriteThrough(b: Block)
      requires Valid() && Traced() && b in head && b.acquired
      modifies this`disk, this`trace, b`pinned
      ensures Valid() && Traced() && !b.pinned && HeaderOf(sb, disk) == old(HeaderOf(sb, disk))
      ensures disk == old(disk)[b.blockNo := b.data] && trace == old(trace) + [Write(b.blockNo, b.data)]
      ensures forall x: nat | x < |disk| :: View(x) == old(View(x))
    {
      ghost var d := disk;
      DeviceWrite(b.blockNo, b.data);
      b.pinned := false;
      SyncedNow(sb, d, disk, head, b);
    }

    /** cache_sync; false stands for its panic. Without a context the block goes straight to
        disk. */
    method Sync(ctx: OpContext?, b: Block) returns (ok: bool)
      requires Valid() && Traced() && b in head && b.acquired
      requires ctx != null ==> ctx.rm + ctx.done == OP_MAX_NUM_BLOCKS
      modifies this`disk, this`trace, b`pinned, ctx
      ensures Valid() && Traced() && (old(Checkpointed()) ==> Checkpointed())
      ensures ok == (ctx == null || old(b.pinned) || old(ctx.rm) > 0)
      ensures b.pinned == (ctx != null)
      ensures ctx == null ==> disk == old(disk)[b.blockNo := b.data] && trace == old(trace) + [Write(b.blockNo, b.data)]
      ensures ctx != null ==> disk == old(disk) && trace == old(trace)
      ensures ctx != null && ok ==> ctx.rm + ctx.done == OP_MAX_NUM_BLOCKS
      ensures ctx != null && ok ==> ctx.done == old(ctx.done) + if old(b.pinned) then 0 else 1
      ensures forall x: nat | x < |disk| :: View(x) == old(View(x))
    {
      if ctx == null {
        WriteThrough(b);
        return true;
      }
      if b.pinned {
        return true;
      }
      b.pinned := true;
      if ctx.rm == 0 {
        return false;
      }
      ctx.rm := ctx.rm - 1;
      ctx.done := ctx.done + 1;
      return true;
    }

    // ---- Commit ----

    /** The disk is what the device writes so far have made of the original one. */
    ghost predicate Traced()
      reads this
    {
      Fit(trace, |origin|) && disk == PutAll(origin, trace)
    }

    /** One block write to the device. */
    method DeviceWrite(no: nat, data: Data)
      requires Traced() && no < |disk|
      modifies `disk, `trace
      ensures Traced() && disk == old(disk)[no := data] && trace == old(trace) + [Write(no, data)]
    {
      disk := disk[no := data];
      trace := trace + [Write(no, data)];
      assert trace[..|trace| - 1] == old(trace);
    }

    /** The scan for pinned blocks with which write_log and write_data begin. */
    method PinnedBlocks(ghost p: seq<Block>, ghost hw: seq<Write>) returns (save: seq<Block>)
      requires p == PinnedOf(head) && hw == HomeWrites(p) && forall i, j | 0 <= i < j < |head| :: head[i] != head[j]
      ensures AllPinned(head, save) && save == p
      ensures |hw| == |save| && forall i | 0 <= i < |save| :: hw[i] == Write(save[i].blockNo, save[i].data)
    {
      save := [];
      for i := 0 to |head|
        invariant save == PinnedOf(head[..i])
        invariant forall b | b in save :: b in head[..i] && b.pinned
        invariant forall b | b in head[..i] && b.pinned :: b in save
        invariant forall j, k | 0 <= j < k < |save| :: save[j] != save[k]
      {
        assert head[..i + 1] == head[..i] + [head[i]];
        if head[i].pinned {
          assert head[i] !in head[..i];
          save := save + [head[i]];
        }
      }
      assert head[..|head|] == head;
    }

    /** One block is written to the log, which changes no home block. */
    method LogBlock(no: nat, data: Data)
      requires Traced() && |disk| == sb.numBlocks && InLog(sb, no) && no < |disk|
      modifies `disk, `trace
      ensures Traced() && trace == old(trace) + [Write(no, data)]
      ensures SameHome(sb, disk, old(disk))
    {
      DeviceWrite(no, data);
    }

    /** The copy loop of write_log. */
    method CopyToLog(save: seq<Block>, ghost ws: seq<Write>)
      requires Traced() && Layout(sb, disk) && |save| < sb.numLogBlocks && ws == LogWrites(sb, save)
      modifies `disk, `trace
      ensures Traced() && trace == old(trace) + ws
      ensures SameHome(sb, disk, old(disk))
    {
      for i := 0 to |save|
        invariant Traced() && trace == old(trace) + ws[..i]
        invariant SameHome(sb, disk, old(disk))
      {
        LogBlock(sb.logStart + 1 + i, save[i].data);
        assert ws[..i + 1] == ws[..i] + [ws[i]];
      }
      assert ws[..|save|] == ws;
    }

    /** The end of write_log. */
    method FillHeader(save: seq<Block>)
      requires HeaderOk(header) && |save| <= LOG_MAX_SIZE && (forall b | b in save :: b.blockNo < WORD_LIMIT)
      modifies `header, `headerValid
      ensures headerValid && HeaderOk(header) && header.numBlocks == |save|
      ensures header.blockNo == NosOf(save) + old(header.blockNo)[|save|..]
    {
      headerValid := true;
      ghost var stale := header.blockNo;
      var nos := header.blockNo;
      for i := 0 to |save|
        invariant |nos| == LOG_MAX_SIZE && headerValid
        invariant forall j | 0 <= j < LOG_MAX_SIZE :: nos[j] == if j < i then save[j].blockNo else stale[j]
      {
        nos := nos[i := save[i].blockNo];
      }
      header := Header(|save|, nos);
      forall j | 0 <= j < LOG_MAX_SIZE
        ensures nos[j] < WORD_LIMIT
      {
        if j < |save| {
          assert save[j] in save;
        }
      }
    }

    /** write_header */
    method WriteHeader()
      requires Traced() && Layout(sb, disk) && HeaderOk(header)
      modifies `disk, `trace
      ensures Traced() && trace == old(trace) + [Write(sb.logStart, sb.codec.encode(header))]
      ensures SameHome(sb, disk, old(disk)) && HeaderOf(sb, disk) == header
    {
      PutHeader(sb, disk, header);
      DeviceWrite(sb.logStart, sb.codec.encode(header));
    }

    /** The write loop of write_data. */
    method SendHome(save: seq<Block>, ghost ws: seq<Write>)
      requires Traced() && |ws| == |save| && Fit(ws, |disk|)
      requires forall i | 0 <= i < |save| :: ws[i] == Write(save[i].blockNo, save[i].data)
      modifies `disk, `trace
      ensures Traced() && trace == old(trace) + ws && disk == PutAll(old(disk), ws)
    {
      for i := 0 to |save|
        invariant Traced() && trace == old(trace) + ws[..i] && |disk| == |old(disk)| && disk == PutAll(old(disk), ws[..i])
      {
        DeviceWrite(save[i].blockNo, save[i].data);
        assert ws[..i + 1] == ws[..i] + [ws[i]] && ws[..i + 1][..i] == ws[..i];
      }
      assert ws[..|save|] == ws;
    }

    /** The last loop of write_data. */
    method UnpinAll(save: seq<Block>)
      requires Valid() && AllPinned(head, save)
      requires forall b | b in save :: disk[b.blockNo] == b.data
      modifies head`pinned
      ensures Valid() && forall b | b in head :: !b.pinned
      ensures forall x: nat | x < |disk| :: View(x) == old(View(x))
    {
      for i := 0 to |save|
        invariant forall b | b in head :: b in save[i..] <==> b.pinned
      {
        assert save[i] in save;
        save[i].pinned := false;
      }
    }

    /** write_log and write_log_header, once the pinned blocks are collected */
    method LogPhase(save: seq<Block>, ghost ws: seq<Write>)
      requires Traced() && Layout(sb, disk) && HeaderOk(header) && |save| < sb.numLogBlocks && |save| <= LOG_MAX_SIZE
      requires ws == LogWrites(sb, save) && (forall b | b in save :: b.blockNo < WORD_LIMIT)
      modifies `disk, `trace, `header, `headerValid
      ensures Traced() && HeaderOk(header) && headerValid && header.numBlocks == |save|
      ensures header.blockNo == NosOf(save) + old(header.blockNo)[|save|..]
      ensures trace == old(trace) + ws + [Write(sb.logStart, sb.codec.encode(header))]
      ensures SameHome(sb, disk, old(disk))
    {
      CopyToLog(save, ws);
      FillHeader(save);
      WriteHeader();
    }

    /** The first half of write_data, once the pinned blocks are collected. */
    method SendPinned(save: seq<Block>, ghost ws: seq<Write>)
      requires Valid() && Traced() && AllPinned(head, save) && |ws| == |save|
      requires forall i | 0 <= i < |save| :: ws[i] == Write(save[i].blockNo, save[i].data)
      requires forall i, j | 0 <= i < j < |save| :: save[i].blockNo != save[j].blockNo
      modifies `disk, `trace
      ensures Valid() && Traced() && trace == old(trace) + ws && |disk| == |old(disk)|
      ensures forall b | b in save :: b.blockNo < |disk| && disk[b.blockNo] == b.data
      ensures forall x: nat | x < |disk| :: View(x) == old(View(x))
    {
      ghost var d := disk;
      SavedFit(sb, d, head, save, ws);
      SendHome(save, ws);
      Sent(sb, d, disk, head, save, ws);
    }

    /** write_data, once the pinned blocks are collected */
    method HomePhase(save: seq<Block>, ghost ws: seq<Write>)
      requires Valid() && Traced() && AllPinned(head, save) && |ws| == |save|
      requires forall i | 0 <= i < |save| :: ws[i] == Write(save[i].blockNo, save[i].data)
      requires forall i, j | 0 <= i < j < |save| :: save[i].blockNo != save[j].blockNo
      modifies `disk, `trace, head`pinned
      ensures Valid() && Traced() && trace == old(trace) + ws
      ensures forall b | b in head :: !b.pinned
      ensures forall x: nat | x < |disk| :: View(x) == old(View(x))
    {
      SendPinned(save, ws);
      UnpinAll(save);
    }

    /** init_log_header and write_header */
    method EraseHeader()
      requires Valid() && Traced()
      modifies `disk, `trace, `header, `headerValid
      ensures Valid() && Traced() && Checkpointed() && header == old(header).(numBlocks := 0) && !headerValid
      ensures trace == old(trace) + [Write(sb.logStart, sb.codec.encode(header))]
      ensures forall x: nat | HomeBlock(sb, x) :: View(x) == old(View(x))
    {
      EmptyHeaderOk(header);
      header := header.(numBlocks := 0);
      headerValid := false;
      ghost var d := disk;
      WriteHeader();
      HomeViews(sb, d, disk, head);
    }

    /** The first half of commit: write_log and write_log_header. */
    method LogPinned(ghost c: WriteAheadLog.Commit, ghost lw: seq<Write>)
      requires Valid() && Traced() && c == CommitOf(head, header) && lw == LogWrites(sb, PinnedOf(head))
      requires |c.order| <= LOG_MAX_SIZE && |c.order| < sb.numLogBlocks
      modifies `disk, `trace, `header, `headerValid
      ensures Valid() && Traced() && header == FullHeader(c)
      ensures trace == old(trace) + lw + [Write(sb.logStart, sb.codec.encode(header))]
      ensures forall x: nat | HomeBlock(sb, x) :: View(x) == old(View(x))
    {
      ghost var p := PinnedOf(head);
      var save := PinnedBlocks(p, HomeWrites(p));
      PinnedFit(sb, disk, head, save);
      ghost var d := disk;
      LogPhase(save, lw);
      FilledHeader(c, save, header);
      assert Clean(sb, disk, head) by {
        assert SameHome(sb, disk, d);
        assert Clean(sb, d, head);
        CleanHome(sb, d, disk, head);
      }
    }

    /** write_data */
    method WriteData(ghost hw: seq<Write>)
      requires Valid() && Traced() && hw == HomeWrites(PinnedOf(head))
      modifies `disk, `trace, head`pinned
      ensures Valid() && Traced() && trace == old(trace) + hw
      ensures forall b | b in head :: !b.pinned
      ensures forall x: nat | x < |disk| :: View(x) == old(View(x))
    {
      ghost var p := PinnedOf(head);
      var save := PinnedBlocks(p, hw);
      PinnedNumbers(head, save);
      HomePhase(save, hw);
    }

    /** The four phases of commit. */
    method CommitPhases(ghost c: WriteAheadLog.Commit, ghost lw: seq<Write>, ghost hw: seq<Write>)
      requires Valid() && Traced() && c == CommitOf(head, header)
      requires lw == LogWrites(sb, PinnedOf(head)) && hw == HomeWrites(PinnedOf(head))
      requires |c.order| <= LOG_MAX_SIZE && |c.order| < sb.numLogBlocks
      modifies this`disk, this`trace, this`header, this`headerValid, head`pinned
      ensures Valid() && Traced() && Checkpointed() && HeaderOk(FullHeader(c)) && header == FullHeader(c).(numBlocks := 0) && !headerValid
      ensures trace == old(trace) + lw + [Write(sb.logStart, sb.codec.encode(FullHeader(c)))] + hw
                     + [Write(sb.logStart, sb.codec.encode(header))]
      ensures forall b | b in head :: !b.pinned
      ensures forall x: nat | HomeBlock(sb, x) :: View(x) == old(View(x))
    {
      LogPinned(c, lw);
      WriteData(hw);
      EraseHeader();
    }

    /** commit: the device writes are those of the plan, one by one. Cut after any number of
        them, the disk is the one that the crash theorem speaks of. */
    method Commit(ghost c: WriteAheadLog.Commit)
      requires Valid() && Traced() && Checkpointed() && c == CommitOf(head, header)
      requires |c.order| <= LOG_MAX_SIZE && |c.order| < sb.numLogBlocks
      modifies this`disk, this`trace, this`header, this`headerValid, head`pinned
      ensures Valid() && Traced() && Checkpointed() && CommitOk(sb, c)
      ensures header == FullHeader(c).(numBlocks := 0) && !headerValid
      ensures trace == old(trace) + CommitTrace(sb, c, CommitLength(c))
      ensures forall k: nat | k <= CommitLength(c) :: CutAfter(sb, c, old(disk), origin, trace, |old(trace)|, k)
      ensures forall b | b in head :: !b.pinned
      ensures forall x: nat | HomeBlock(sb, x) :: View(x) == old(View(x))
    {
      ghost var lw, hw := LogWrites(sb, PinnedOf(head)), HomeWrites(PinnedOf(head));
      ghost var d, t := disk, trace;
      CommitOfOk(sb, disk, head, header);
      Assemble(sb, c, lw, hw, trace);
      CommitPhases(c, lw, hw);
      forall k: nat | k <= CommitLength(c)
        ensures CutAfter(sb, c, d, origin, trace, |t|, k)
      {
        CommitCut(sb, c, d, origin, t, trace, k);
      }
    }

    // ---- Recovery ----

    /** The copy loop of restore_log. */
    method CopyBack(h: Header, ghost ws: seq<Write>)
      requires Traced() && |ws| == h.numBlocks <= |h.blockNo| && h.numBlocks < sb.numLogBlocks && |disk| == sb.numBlocks
      requires sb.logStart + sb.numLogBlocks <= sb.numBlocks
      requires forall i | 0 <= i < |ws| :: HomeBlock(sb, h.blockNo[i]) && ws[i] == Write(h.blockNo[i], disk[sb.logStart + 1 + i])
      modifies `disk, `trace
      ensures Traced() && trace == old(trace) + ws && |disk| == sb.numBlocks
    {
      for i := 0 to h.numBlocks
        invariant Traced() && trace == old(trace) + ws[..i] && |disk| == sb.numBlocks
        invariant forall b | sb.logStart < b < sb.logStart + sb.numLogBlocks :: disk[b] == old(disk)[b]
      {
        var data := disk[sb.logStart + 1 + i];
        DeviceWrite(h.blockNo[i], data);
        assert ws[..i + 1] == ws[..i] + [ws[i]];
      }
      assert ws[..h.numBlocks] == ws;
    }

    /** The body of restore_log when there is something to restore. */
    method Replay(h: Header, ghost ws: seq<Write>)
      requires Traced() && |ws| == h.numBlocks <= |h.blockNo| && h.numBlocks < sb.numLogBlocks && |disk| == sb.numBlocks
      requires sb.logStart + sb.numLogBlocks <= sb.numBlocks && HeaderOk(h.(numBlocks := 0))
      requires forall i | 0 <= i < |ws| :: HomeBlock(sb, h.blockNo[i]) && ws[i] == Write(h.blockNo[i], disk[sb.logStart + 1 + i])
      modifies `disk, `trace, `header, `headerValid
      ensures Traced() && header == h.(numBlocks := 0) && !headerValid
      ensures trace == old(trace) + ws + [Write(sb.logStart, sb.codec.encode(header))]
    {
      CopyBack(h, ws);
      header := h.(numBlocks := 0);
      headerValid := false;
      DeviceWrite(sb.logStart, sb.codec.encode(header));
    }

    /** restore_log, run by init_bcache before anything is cached */
    method RestoreLog(ghost plan: seq<Write>)
      requires Traced() && Layout(sb, disk) && LogOk(sb, disk)
      requires plan == RestoreTrace(sb, disk, RestoreLength(sb, disk, headerValid))
      modifies `disk, `trace, `header, `headerValid
      ensures Traced() && trace == old(trace) + plan && Checkpointed()
      ensures HeaderOk(header) && header == HeaderOf(sb, old(disk)).(numBlocks := 0)
      ensures disk == AfterRestore(sb, old(disk), RestoreLength(sb, old(disk), old(headerValid)))
      ensures SameHome(sb, disk, Recovered(sb, old(disk)))
    {
      ghost var d, t, ws := disk, trace, RestoreTrace(sb, disk, HeaderOf(sb, disk).numBlocks);
      ghost var valid := headerValid;
      RestorePlanned(sb, disk);
      header := sb.codec.decode(disk[sb.logStart]);
      if headerValid || header.numBlocks != 0 {
        ghost var erase := Write(sb.logStart, sb.codec.encode(header.(numBlocks := 0)));
        assert plan == ws + [erase];
        Replay(header, ws);
        assert t + ws + [erase] == t + plan;
      }
      Restored(sb, d, origin, t, plan, valid);
    }
  }

  ghost function NosOf(save: seq<Block>): (nos: seq<nat>)
    reads save
    ensures |nos| == |save| && forall i | 0 <= i < |save| :: nos[i] == save[i].blockNo
  {
    seq(|save|, i requires 0 <= i < |save| reads save => save[i].blockNo)
  }

  /** The device writes of write_log. */
  ghost function LogWrites(sb: SuperBlock, save: seq<Block>): (ws: seq<Write>)
    reads save
    ensures |ws| == |save| && forall i | 0 <= i < |save| :: ws[i] == Write(sb.logStart + 1 + i, save[i].data)
  {
    seq(|save|, i requires 0 <= i < |save| reads save => Write(sb.logStart + 1 + i, save[i].data))
  }

  /** The device writes of write_data. */
  ghost function HomeWrites(save: seq<Block>): (ws: seq<Write>)
    reads save
    ensures |ws| == |save| && forall i | 0 <= i < |save| :: ws[i] == Write(save[i].blockNo, save[i].data)
  {
    seq(|save|, i requires 0 <= i < |save| reads save => Write(save[i].blockNo, save[i].data))
  }

  /** The pinned blocks of a list, in order. */
  function PinnedOf(s: seq<Block>): (save: seq<Block>)
    reads s
    ensures forall b | b in save :: b in s
  {
    if s == [] then []
    else
      var n := |s| - 1;
      if s[n].pinned then PinnedOf(s[..n]) + [s[n]] else PinnedOf(s[..n])
  }

  /** The first `k` device writes of a commit. */
  ghost function CommitTrace(sb: SuperBlock, c: WriteAheadLog.Commit, k: nat): (ws: seq<Write>)
    requires CommitOk(sb, c) && sb.numBlocks < WORD_LIMIT && k <= CommitLength(c)
    ensures |ws| == k && forall i | 0 <= i < k :: ws[i] == CommitWrite(sb, c, i)
  {
    if k == 0 then [] else CommitTrace(sb, c, k - 1) + [CommitWrite(sb, c, k - 1)]
  }

  lemma {:induction false} PutAllAppend(d: Disk, a: seq<Write>, b: seq<Write>)
    requires Fit(a + b, |d|)
    ensures Fit(a, |d|) && Fit(b, |d|)
    ensures PutAll(d, a + b) == PutAll(PutAll(d, a), b)
  {
    assert forall i | 0 <= i < |a| :: (a + b)[i] == a[i];
    assert forall i | 0 <= i < |b| :: (a + b)[|a| + i] == b[i];
    if b == [] {
      assert a + b == a;
    } else {
      var n := |b| - 1;
      assert (a + b)[..|a + b| - 1] == a + b[..n];
      PutAllAppend(d, a, b[..n]);
    }
  }

  /** The writes of a commit have the effect that `AfterCommit` describes. */
  lemma {:induction false} TraceEffect(sb: SuperBlock, c: WriteAheadLog.Commit, d: Disk, k: nat)
    requires CommitOk(sb, c) && Layout(sb, d) && HeaderOf(sb, d).numBlocks == 0 && k <= CommitLength(c)
    ensures Fit(CommitTrace(sb, c, k), |d|)
    ensures PutAll(d, CommitTrace(sb, c, k)) == AfterCommit(sb, c, d, k)
  {
    if k == 0 {
    } else {
      TraceEffect(sb, c, d, k - 1);
      AfterCommitNext(sb, c, d, k - 1);
      PutSnoc(d, CommitTrace(sb, c, k - 1), CommitWrite(sb, c, k - 1));
    }
  }

  /** Cut `k` writes after the first `n`, the trace `t` leaves of the disk `origin` what the
      first `k` writes of the commit `c` leave of `d`. */
  ghost predicate CutAfter(sb: SuperBlock, c: WriteAheadLog.Commit, d: Disk, origin: Disk, t: seq<Write>, n: nat, k: nat) {
    && CommitOk(sb, c) && Layout(sb, d) && HeaderOf(sb, d).numBlocks == 0 && k <= CommitLength(c)
    && n + k <= |t| && Fit(t[..n + k], |origin|) && PutAll(origin, t[..n + k]) == AfterCommit(sb, c, d, k)
  }

  lemma CommitCut(sb: SuperBlock, c: WriteAheadLog.Commit, d: Disk, origin: Disk, t: seq<Write>, t': seq<Write>, k: nat)
    requires CommitOk(sb, c) && Layout(sb, d) && HeaderOf(sb, d).numBlocks == 0 && k <= CommitLength(c)
    requires Fit(t, |origin|) && d == PutAll(origin, t) && t' == t + CommitTrace(sb, c, CommitLength(c))
    ensures CutAfter(sb, c, d, origin, t', |t|, k)
  {
    TraceEffect(sb, c, d, k);
    CommitPrefix(sb, c, t, t', k, t'[..|t| + k]);
    CutEffect(d, origin, t, CommitTrace(sb, c, k), t'[..|t| + k]);
  }

  lemma CommitPrefix(sb: SuperBlock, c: WriteAheadLog.Commit, t: seq<Write>, t': seq<Write>, k: nat, p: seq<Write>)
    requires CommitOk(sb, c) && sb.numBlocks < WORD_LIMIT && k <= CommitLength(c)
    requires t' == t + CommitTrace(sb, c, CommitLength(c)) && p == t'[..|t| + k]
    ensures p == t + CommitTrace(sb, c, k)
  {
    PrefixOf(t, CommitTrace(sb, c, CommitLength(c)), CommitTrace(sb, c, k));
  }

  lemma CutEffect(d: Disk, origin: Disk, t: seq<Write>, ws: seq<Write>, p: seq<Write>)
    requires Fit(t, |origin|) && d == PutAll(origin, t) && Fit(ws, |d|) && p == t + ws
    ensures Fit(p, |origin|) && PutAll(origin, p) == PutAll(d, ws)
  {
    JoinedFit(t, ws, |origin|);
    PutAllAppend(origin, t, ws);
  }

  lemma PrefixOf(t: seq<Write>, all: seq<Write>, ws: seq<Write>)
    requires |ws| <= |all| && forall i | 0 <= i < |ws| :: all[i] == ws[i]
    ensures (t + all)[..|t| + |ws|] == t + ws
  {
    assert all[..|ws|] == ws;
  }

  lemma JoinedFit(a: seq<Write>, b: seq<Write>, n: nat)
    requires Fit(a, n) && Fit(b, n)
    ensures Fit(a + b, n)
  {
  }

  /** Let `commit` be cut after `k` device writes, then any number of recoveries, and let one
      complete: the disk has all of the old home blocks or all of the new, and no log. */
  lemma CommitCrash(sb: SuperBlock, c: WriteAheadLog.Commit, d: Disk, origin: Disk, t: seq<Write>, n: nat, k: nat, cuts: seq<nat>, valid: bool)
    requires CutAfter(sb, c, d, origin, t, n, k)
    ensures var cut := PutAll(origin, t[..n + k]);
      && Layout(sb, cut) && LogOk(sb, cut)
      && var d1 := AfterCrashes(sb, cut, cuts);
         var d2 := AfterRestore(sb, d1, RestoreLength(sb, d1, valid));
         SameHome(sb, d2, if k <= |c.order| then d else Overlay(d, c.dirty)) && HeaderOf(sb, d2).numBlocks == 0
  {
    CrashAtomicity(sb, c, d, k, cuts, valid);
  }

  /** The writes of a complete recovery. */
  lemma Restored(sb: SuperBlock, d: Disk, origin: Disk, t: seq<Write>, plan: seq<Write>, valid: bool)
    requires Layout(sb, d) && LogOk(sb, d) && Fit(t, |origin|) && d == PutAll(origin, t)
    requires plan == RestoreTrace(sb, d, RestoreLength(sb, d, valid))
    ensures Fit(t + plan, |origin|) && PutAll(origin, t + plan) == AfterRestore(sb, d, RestoreLength(sb, d, valid))
    ensures var r := AfterRestore(sb, d, RestoreLength(sb, d, valid));
      SameHome(sb, r, Recovered(sb, d)) && HeaderOf(sb, r).numBlocks == 0
  {
    RestoreEffect(sb, d, RestoreLength(sb, d, valid));
    PutAllAppend(origin, t, plan);
    RecoveryCompletes(sb, d, valid);
  }

  lemma PutSnoc(d: Disk, ws: seq<Write>, w: Write)
    requires Fit(ws, |d|) && w.no < |d|
    ensures Fit(ws + [w], |d|) && PutAll(d, ws + [w]) == Put(PutAll(d, ws), w)
  {
    assert (ws + [w])[..|ws|] == ws;
  }

  /** A change outside the home blocks is invisible to the cache. */
  lemma HomeViews(sb: SuperBlock, d: Disk, d': Disk, s: seq<Block>)
    requires Clean(sb, d, s) && SameHome(sb, d', d)
    ensures Clean(sb, d', s)
    ensures forall x: nat | HomeBlock(sb, x) :: ViewIn(d', s, x) == ViewIn(d, s, x)
  {
    CleanHome(sb, d, d', s);
  }

  /** The header that write_log_header fills in is the one of the commit. */
  lemma FilledHeader(c: WriteAheadLog.Commit, save: seq<Block>, h: Header)
    requires c.order == NosOf(save) && |save| <= |c.stale.blockNo| && h.numBlocks == |save|
    requires h.blockNo == NosOf(save) + c.stale.blockNo[|save|..]
    ensures h == FullHeader(c)
  {
  }

  /** The commit that the pinned blocks of `s` amount to. */
  ghost function CommitOf(s: seq<Block>, stale: Header): WriteAheadLog.Commit
    requires Distinct(s)
    reads s
  {
    WriteAheadLog.Commit.Commit(DirtyOf(s), NosOf(PinnedOf(s)), NosOf(PinnedOf(s)), stale)
  }

  lemma EmptyHeaderOk(h: Header)
    requires HeaderOk(h)
    ensures HeaderOk(h.(numBlocks := 0))
  {
  }

  lemma PinnedFit(sb: SuperBlock, disk: Disk, s: seq<Block>, save: seq<Block>)
    requires Clean(sb, disk, s) && sb.numBlocks < WORD_LIMIT && (forall b | b in save :: b in s)
    ensures forall b | b in save :: b.blockNo < WORD_LIMIT
  {
    forall b | b in save
      ensures b.blockNo < WORD_LIMIT
    {
      assert Sound(sb, disk, b);
    }
  }

  lemma {:induction false} PinnedOfAll(s: seq<Block>)
    requires Distinct(s)
    ensures AllPinned(s, PinnedOf(s))
  {
    if s == [] {
    } else {
      var n := |s| - 1;
      assert s == s[..n] + [s[n]];
      PinnedOfAll(s[..n]);
      assert s[n] !in s[..n];
    }
  }

  lemma CommitOfOk(sb: SuperBlock, disk: Disk, s: seq<Block>, stale: Header)
    requires Distinct(s) && Clean(sb, disk, s) && HeaderOk(stale)
    requires |PinnedOf(s)| <= LOG_MAX_SIZE && |PinnedOf(s)| < sb.numLogBlocks && sb.numBlocks < WORD_LIMIT
    ensures CommitOk(sb, CommitOf(s, stale))
    ensures Plans(sb, CommitOf(s, stale), LogWrites(sb, PinnedOf(s)), HomeWrites(PinnedOf(s)))
  {
    var save := PinnedOf(s);
    PinnedOfAll(s);
    PinnedListed(s, save);
    var c := CommitOf(s, stale);
    forall no | no in c.dirty
      ensures HomeBlock(sb, no)
    {
      var b :| b in s && b.pinned && b.blockNo == no;
      assert Sound(sb, disk, b);
    }
  }

  /** `lw` and `hw` are the log and home writes of the commit `c`. */
  ghost predicate Plans(sb: SuperBlock, c: WriteAheadLog.Commit, lw: seq<Write>, hw: seq<Write>) {
    && |lw| == |hw| == |c.order| == |c.order'|
    && forall i | 0 <= i < |lw| ::
         && c.order[i] == c.order'[i] && c.order[i] in c.dirty
         && lw[i] == Write(sb.logStart + 1 + i, c.dirty[c.order[i]])
         && hw[i] == Write(c.order[i], c.dirty[c.order[i]])
  }

  lemma PlannedWrite(sb: SuperBlock, c: WriteAheadLog.Commit, lw: seq<Write>, hw: seq<Write>, k: nat)
    requires CommitOk(sb, c) && sb.numBlocks < WORD_LIMIT && Plans(sb, c, lw, hw) && k < CommitLength(c)
    ensures k < |lw| ==> CommitWrite(sb, c, k) == lw[k]
    ensures |lw| < k <= 2 * |lw| ==> CommitWrite(sb, c, k) == hw[k - |lw| - 1]
    ensures HeaderOk(FullHeader(c)) && HeaderOk(FullHeader(c).(numBlocks := 0))
    ensures k == |lw| ==> CommitWrite(sb, c, k) == Write(sb.logStart, sb.codec.encode(FullHeader(c)))
    ensures k == 2 * |lw| + 1 ==> CommitWrite(sb, c, k) == Write(sb.logStart, sb.codec.encode(FullHeader(c).(numBlocks := 0)))
  {
    FullHeaderOk(sb, c);
  }

  /** The four phases of a commit, one after the other, are its plan. */
  lemma Assemble(sb: SuperBlock, c: WriteAheadLog.Commit, lw: seq<Write>, hw: seq<Write>, t: seq<Write>)
    requires CommitOk(sb, c) && sb.numBlocks < WORD_LIMIT && Plans(sb, c, lw, hw)
    ensures HeaderOk(FullHeader(c)) && HeaderOk(FullHeader(c).(numBlocks := 0))
    ensures var h1, h2 := Write(sb.logStart, sb.codec.encode(FullHeader(c))), Write(sb.logStart, sb.codec.encode(FullHeader(c).(numBlocks := 0)));
      t + lw + [h1] + hw + [h2] == t + CommitTrace(sb, c, CommitLength(c))
  {
    FullHeaderOk(sb, c);
    var h1, h2 := Write(sb.logStart, sb.codec.encode(FullHeader(c))), Write(sb.logStart, sb.codec.encode(FullHeader(c).(numBlocks := 0)));
    var plan := CommitTrace(sb, c, CommitLength(c));
    forall k | 0 <= k < |plan|
      ensures plan[k] == Segment(lw, h1, hw, h2, k)
    {
      PlannedWrite(sb, c, lw, hw, k);
    }
    Concatenated(lw, h1, hw, h2, plan, t);
  }

  ghost function Segment(lw: seq<Write>, h1: Write, hw: seq<Write>, h2: Write, k: nat): Write
    requires k < |lw| + |hw| + 2
  {
    if k < |lw| then lw[k] else if k == |lw| then h1 else if k <= |lw| + |hw| then hw[k - |lw| - 1] else h2
  }

  lemma Concatenated(lw: seq<Write>, h1: Write, hw: seq<Write>, h2: Write, plan: seq<Write>, t: seq<Write>)
    requires |plan| == |lw| + |hw| + 2 && forall k | 0 <= k < |plan| :: plan[k] == Segment(lw, h1, hw, h2, k)
    ensures t + lw + [h1] + hw + [h2] == t + plan
  {
    assert lw + [h1] + hw + [h2] == plan;
    assert t + lw + [h1] + hw + [h2] == t + (lw + [h1] + hw + [h2]);
  }

  /** The first `k` device writes of a recovery. */
  ghost function RestoreTrace(sb: SuperBlock, d: Disk, k: nat): (ws: seq<Write>)
    requires Layout(sb, d) && LogOk(sb, d) && k <= HeaderOf(sb, d).numBlocks + 1
    ensures |ws| == k && forall i | 0 <= i < k :: ws[i] == RestoreWrite(sb, d, i)
  {
    if k == 0 then [] else RestoreTrace(sb, d, k - 1) + [RestoreWrite(sb, d, k - 1)]
  }

  lemma RestorePlanned(sb: SuperBlock, d: Disk)
    requires Layout(sb, d) && LogOk(sb, d)
    ensures var h, ws := HeaderOf(sb, d), RestoreTrace(sb, d, HeaderOf(sb, d).numBlocks);
      && HeaderOk(h) && HeaderOk(h.(numBlocks := 0))
      && (forall i | 0 <= i < |ws| :: HomeBlock(sb, h.blockNo[i]) && ws[i] == Write(h.blockNo[i], d[sb.logStart + 1 + i]))
      && RestoreTrace(sb, d, h.numBlocks + 1) == ws + [Write(sb.logStart, sb.codec.encode(h.(numBlocks := 0)))]
  {
  }

  /** The writes of a recovery have the effect that `AfterRestore` describes. */
  lemma {:induction false} RestoreEffect(sb: SuperBlock, d: Disk, k: nat)
    requires Layout(sb, d) && LogOk(sb, d) && k <= HeaderOf(sb, d).numBlocks + 1
    ensures Fit(RestoreTrace(sb, d, k), |d|)
    ensures PutAll(d, RestoreTrace(sb, d, k)) == AfterRestore(sb, d, k)
  {
    if k == 0 {
    } else {
      RestoreEffect(sb, d, k - 1);
      AfterRestoreNext(sb, d, k - 1);
      PutSnoc(d, RestoreTrace(sb, d, k - 1), RestoreWrite(sb, d, k - 1));
    }
  }
}
