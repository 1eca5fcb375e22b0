/** Blocks in pages and free lists (src/kernel/mem.c:91-233, src/kernel/myheader.c:48-133),
on values. */
module HeapSpec {
  import opened Basics

  const PAGE_SIZE := 4096
  const PAGE_HEADER := 8
  const OCCUPIED_HEADER := 8
  const FREE_HEADER := 24
  const NUM_ENTRIES := 512

  /** Where a block header lies. */
  datatype Addr = Addr(page: nat, off: nat)

  /** The end offset of the block, its status, and the offset of the block before it. */
  datatype Header = Header(end: int, free: bool, pre: nat)

  type Headers = map<Addr, Header>

  function Size(h: Headers, a: Addr): int
    requires a in h
  {
    h[a].end - a.off
  }

  // ---- Pages ----

  ghost function EndOf(offs: seq<nat>, i: nat): nat { if i + 1 < |offs| then offs[i + 1] else PAGE_SIZE }

  /** Block `i` of a page whose blocks start at `offs` ends where the next begins, or at the
      end of the page, is large enough to hold a free header, and names the one before. */
  ghost predicate Tile(h: Headers, page: nat, offs: seq<nat>, i: nat)
    requires i < |offs|
  {
    var a := Addr(page, offs[i]);
    && a in h && h[a].end == EndOf(offs, i) && offs[i] % 8 == 0 && h[a].end % 8 == 0
    && Size(h, a) >= FREE_HEADER && h[a].pre == if i == 0 then 0 else offs[i - 1]
  }

  ghost predicate Tiled(h: Headers, page: nat, offs: seq<nat>) {
    offs != [] && offs[0] == PAGE_HEADER && forall i: nat | i < |offs| :: Tile(h, page, offs, i)
  }

  /** The blocks of every page make it up, and there are no other headers. */
  ghost predicate AllTiled(h: Headers, tiles: seq<seq<nat>>) {
    && (forall p: nat | p < |tiles| :: Tiled(h, p, tiles[p]))
    && forall a <- h :: a.page < |tiles| && a.off in tiles[a.page]
  }

  lemma {:induction false} Increasing(h: Headers, page: nat, offs: seq<nat>, i: nat, j: nat)
    requires Tiled(h, page, offs) && i < j < |offs|
    ensures EndOf(offs, i) <= offs[j]
    decreases j
  {
    assert Tile(h, page, offs, j - 1);
    if i + 1 < j {
      Increasing(h, page, offs, i, j - 1);
    }
  }

  lemma OffsetBound(h: Headers, page: nat, offs: seq<nat>, i: nat)
    requires Tiled(h, page, offs) && i < |offs|
    ensures PAGE_HEADER <= offs[i] <= PAGE_SIZE - FREE_HEADER
  {
    assert Tile(h, page, offs, |offs| - 1) && Tile(h, page, offs, 0);
    if i > 0 {
      Increasing(h, page, offs, 0, i);
    }
    if i + 1 < |offs| {
      Increasing(h, page, offs, i, |offs| - 1);
      assert Tile(h, page, offs, i);
    }
  }

  /** Two blocks do not overlap, and every one lies between the page header and the end of
      its page. */
  lemma Disjoint(h: Headers, tiles: seq<seq<nat>>, a: Addr, b: Addr)
    requires AllTiled(h, tiles) && a in h && b in h && a != b && a.page == b.page
    ensures h[a].end <= b.off || h[b].end <= a.off
  {
    var offs := tiles[a.page];
    assert Tiled(h, a.page, offs);
    var i :| 0 <= i < |offs| && offs[i] == a.off;
    var j :| 0 <= j < |offs| && offs[j] == b.off;
    assert Tile(h, a.page, offs, i) && Tile(h, a.page, offs, j);
    if i < j {
      Increasing(h, a.page, offs, i, j);
    } else {
      Increasing(h, a.page, offs, j, i);
    }
  }

  lemma WithinPage(h: Headers, tiles: seq<seq<nat>>, a: Addr)
    requires AllTiled(h, tiles) && a in h
    ensures PAGE_HEADER <= a.off && a.off + FREE_HEADER <= h[a].end <= PAGE_SIZE && a.off % 8 == 0 && h[a].end % 8 == 0
  {
    var offs := tiles[a.page];
    assert Tiled(h, a.page, offs);
    var i :| 0 <= i < |offs| && offs[i] == a.off;
    assert Tile(h, a.page, offs, i);
    OffsetBound(h, a.page, offs, i);
    if i + 1 < |offs| {
      OffsetBound(h, a.page, offs, i + 1);
    }
  }

  // ---- Free lists ----

  /** List `i` holds free blocks of `8 * (i + 1)` bytes, none twice. */
  ghost predicate ListOk(h: Headers, q: seq<Addr>, i: nat) {
    Unique(q) && forall a <- q :: a in h && h[a].free && Size(h, a) == 8 * (i + 1)
  }

  /** The list for a block of `n` bytes. */
  function Index(n: int): int { n / 8 - 1 }

  ghost predicate ListsOk(h: Headers, lists: seq<seq<Addr>>) {
    && |lists| == NUM_ENTRIES && (forall i: nat | i < NUM_ENTRIES :: ListOk(h, lists[i], i))
    && forall a <- h | h[a].free :: InList(lists, a, Size(h, a))
  }

  ghost predicate InList(lists: seq<seq<Addr>>, a: Addr, n: int) {
    0 <= Index(n) < |lists| && a in lists[Index(n)]
  }

  ghost predicate HeapOk(h: Headers, tiles: seq<seq<nat>>, lists: seq<seq<Addr>>) {
    AllTiled(h, tiles) && ListsOk(h, lists)
  }

  // ---- Marking a block free or occupied ----

  function Marked(h: Headers, a: Addr, free: bool): Headers
    requires a in h
  {
    h[a := Header(h[a].end, free, h[a].pre)]
  }

  /** Headers that differ in the status of blocks only. */
  ghost predicate SameTiles(h: Headers, h': Headers) {
    h'.Keys == h.Keys && forall a <- h :: h'[a].end == h[a].end && h'[a].pre == h[a].pre
  }

  lemma SameTiled(h: Headers, h': Headers, tiles: seq<seq<nat>>)
    requires AllTiled(h, tiles) && SameTiles(h, h')
    ensures AllTiled(h', tiles)
  {
    forall p: nat | p < |tiles|
      ensures Tiled(h', p, tiles[p])
    {
      assert Tiled(h, p, tiles[p]);
      forall i: nat | i < |tiles[p]|
        ensures Tile(h', p, tiles[p], i)
      {
        assert Tile(h, p, tiles[p], i);
      }
    }
  }

  /** Taking the first block of list `i`. */
  lemma TakeOk(h: Headers, tiles: seq<seq<nat>>, lists: seq<seq<Addr>>, i: nat, a: Addr)
    requires HeapOk(h, tiles, lists) && i < NUM_ENTRIES && lists[i] != [] && a == lists[i][0]
    ensures a in h && h[a].free && Size(h, a) == 8 * (i + 1)
    ensures HeapOk(Marked(h, a, false), tiles, lists[i := lists[i][1..]])
  {
    assert ListOk(h, lists[i], i) && a in lists[i];
    var h', lists' := Marked(h, a, false), lists[i := lists[i][1..]];
    SameTiled(h, h', tiles);
    assert lists[i] == [a] + lists[i][1..];
    forall j: nat | j < NUM_ENTRIES
      ensures ListOk(h', lists'[j], j)
    {
      assert ListOk(h, lists[j], j);
      assert a !in lists'[j];
    }
    forall b <- h' | h'[b].free
      ensures InList(lists', b, Size(h', b))
    {
      assert InList(lists, b, Size(h, b));
    }
  }

  /** Putting a block that is not free at the head of its list. */
  lemma FreeOk(h: Headers, tiles: seq<seq<nat>>, lists: seq<seq<Addr>>, a: Addr, i: int)
    requires HeapOk(h, tiles, lists) && a in h && !h[a].free && i == Index(Size(h, a))
    ensures 0 <= i < NUM_ENTRIES && HeapOk(Marked(h, a, true), tiles, lists[i := [a] + lists[i]])
  {
    WithinPage(h, tiles, a);
    var h', lists' := Marked(h, a, true), lists[i := [a] + lists[i]];
    SameTiled(h, h', tiles);
    forall j: nat | j < NUM_ENTRIES
      ensures ListOk(h', lists'[j], j)
    {
      assert ListOk(h, lists[j], j);
      assert a !in lists[j];
    }
    forall b <- h' | h'[b].free
      ensures InList(lists', b, Size(h', b))
    {
      assert b != a ==> InList(lists, b, Size(h, b));
    }
  }

  // ---- Splitting a block ----

  /** Block `a` is cut at offset `mid`; the block behind it is told of its new neighbour. */
  function Cut(h: Headers, a: Addr, mid: nat): Headers
    requires a in h
  {
    var e := h[a].end;
    var h1 := h[a := Header(mid, false, h[a].pre)][Addr(a.page, mid) := Header(e, false, a.off)];
    if e >= 0 && e != PAGE_SIZE && Addr(a.page, e) in h then h1[Addr(a.page, e) := Header(h[Addr(a.page, e)].end, h[Addr(a.page, e)].free, mid)] else h1
  }

  ghost predicate CutAt(h: Headers, a: Addr, mid: nat) {
    a in h && mid % 8 == 0 && a.off + FREE_HEADER <= mid && mid + FREE_HEADER <= h[a].end
  }

  lemma NoHeaderInside(h: Headers, tiles: seq<seq<nat>>, a: Addr, mid: nat)
    requires AllTiled(h, tiles) && CutAt(h, a, mid)
    ensures Addr(a.page, mid) !in h
  {
    var b := Addr(a.page, mid);
    if b in h {
      Disjoint(h, tiles, a, b);
      WithinPage(h, tiles, b);
    }
  }

  lemma CutTiled(h: Headers, page: nat, offs: seq<nat>, i: nat, mid: nat, h': Headers)
    requires Tiled(h, page, offs) && i < |offs| && CutAt(h, Addr(page, offs[i]), mid)
    requires h' == Cut(h, Addr(page, offs[i]), mid)
    ensures Tiled(h', page, offs[..i + 1] + [mid] + offs[i + 1..])
  {
    var a, offs' := Addr(page, offs[i]), offs[..i + 1] + [mid] + offs[i + 1..];
    assert Tile(h, page, offs, i);
    forall j: nat | j < |offs'|
      ensures Tile(h', page, offs', j)
    {
      if j < i {
        assert Tile(h, page, offs, j);
        Increasing(h, page, offs, j, i);
      } else if j > i + 1 {
        assert Tile(h, page, offs, j - 1);
        Increasing(h, page, offs, i, j - 1);
        OffsetBound(h, page, offs, j - 1);
        if j > i + 2 {
          Increasing(h, page, offs, i + 1, j - 1);
          assert Tile(h, page, offs, i + 1);
        }
      }
    }
  }

  lemma CutOk(h: Headers, tiles: seq<seq<nat>>, lists: seq<seq<Addr>>, a: Addr, mid: nat, h': Headers) returns (tiles': seq<seq<nat>>)
    requires HeapOk(h, tiles, lists) && CutAt(h, a, mid) && !h[a].free && h' == Cut(h, a, mid)
    ensures HeapOk(h', tiles', lists) && |tiles'| == |tiles| && Addr(a.page, mid) !in h
    ensures h[a].end != PAGE_SIZE ==> h[a].end >= 0 && Addr(a.page, h[a].end) in h
  {
    NoHeaderInside(h, tiles, a, mid);
    var page, offs := a.page, tiles[a.page];
    assert Tiled(h, page, offs);
    var i :| 0 <= i < |offs| && offs[i] == a.off;
    assert Tile(h, page, offs, i) && (i + 1 < |offs| ==> Tile(h, page, offs, i + 1));
    CutTiled(h, page, offs, i, mid, h');
    var offs' := offs[..i + 1] + [mid] + offs[i + 1..];
    assert forall x <- offs :: x in offs' by {
      assert offs == offs[..i + 1] + offs[i + 1..];
    }
    assert offs'[i + 1] == mid;
    tiles' := tiles[page := offs'];
    forall p: nat | p < |tiles'|
      ensures Tiled(h', p, tiles'[p])
    {
      if p != page {
        OtherPage(h, p, tiles[p], h');
      }
    }
    CutLists(h, tiles, lists, a, mid, h');
  }

  lemma OtherPage(h: Headers, p: nat, offs: seq<nat>, h': Headers)
    requires Tiled(h, p, offs) && forall b <- h | b.page == p :: b in h' && h'[b] == h[b]
    ensures Tiled(h', p, offs)
  {
    forall i: nat | i < |offs|
      ensures Tile(h', p, offs, i)
    {
      assert Tile(h, p, offs, i);
    }
  }

  lemma CutLists(h: Headers, tiles: seq<seq<nat>>, lists: seq<seq<Addr>>, a: Addr, mid: nat, h': Headers)
    requires HeapOk(h, tiles, lists) && CutAt(h, a, mid) && !h[a].free && Addr(a.page, mid) !in h && h' == Cut(h, a, mid)
    ensures ListsOk(h', lists)
  {
    assert forall b <- h | h[b].free :: b in h' && h'[b].free && h'[b].end == h[b].end;
    forall j: nat | j < NUM_ENTRIES
      ensures ListOk(h', lists[j], j)
    {
      assert ListOk(h, lists[j], j);
    }
    forall b <- h' | h'[b].free
      ensures InList(lists, b, Size(h', b))
    {
      assert b in h && h[b].free;
      assert InList(lists, b, Size(h, b));
    }
  }

  /** A new page that is one block. */
  lemma PageOk(h: Headers, tiles: seq<seq<nat>>, lists: seq<seq<Addr>>, a: Addr, h': Headers)
    requires HeapOk(h, tiles, lists) && a == Addr(|tiles|, PAGE_HEADER) && h' == h[a := Header(PAGE_SIZE, false, 0)]
    ensures a !in h && HeapOk(h', tiles + [[PAGE_HEADER]], lists)
  {
    var tiles' := tiles + [[PAGE_HEADER]];
    forall p: nat | p < |tiles'|
      ensures Tiled(h', p, tiles'[p])
    {
      if p < |tiles| {
        assert Tiled(h, p, tiles[p]);
        OtherPage(h, p, tiles[p], h');
      } else {
        assert Tile(h', p, [PAGE_HEADER], 0);
      }
    }
    forall j: nat | j < NUM_ENTRIES
      ensures ListOk(h', lists[j], j)
    {
      assert ListOk(h, lists[j], j);
    }
    forall b <- h' | h'[b].free
      ensures InList(lists, b, Size(h', b))
    {
      assert InList(lists, b, Size(h, b));
    }
  }

  // ---- Live blocks ----

  ghost function Live(h: Headers): set<Addr> { set a | a in h && !h[a].free }

  /** The live blocks are those of before and `a`, which was none, and none has changed its
      extent. */
  ghost predicate Allotted(h: Headers, h': Headers, a: Addr) {
    && a !in Live(h) && Live(h') == Live(h) + {a}
    && forall b <- Live(h) :: b in h && b in h' && h'[b].end == h[b].end
  }

  /** Cutting the live block `a` leaves the same blocks live, and only `a` shorter. */
  lemma CutLive(h: Headers, a: Addr, mid: nat, h': Headers)
    requires a in Live(h) && a.off < h[a].end && Addr(a.page, mid) !in h && h' == Marked(Cut(h, a, mid), Addr(a.page, mid), true)
    ensures Live(h') == Live(h) && h'[a].end == mid && forall b <- Live(h) | b != a :: b in h' && h'[b].end == h[b].end
  {
  }

  /** No free block is as large as a page. */
  lemma NoPageFree(h: Headers, tiles: seq<seq<nat>>, lists: seq<seq<Addr>>)
    requires HeapOk(h, tiles, lists)
    ensures lists[NUM_ENTRIES - 1] == []
  {
    var i := NUM_ENTRIES - 1;
    assert ListOk(h, lists[i], i);
    if lists[i] != [] {
      assert lists[i][0] in lists[i];
      WithinPage(h, tiles, lists[i][0]);
    }
  }
}
