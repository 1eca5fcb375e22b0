/** kalloc and kfree (src/kernel/mem.c:91-233, src/kernel/mydata.c:7-38). */
module Heap {
  import opened Basics
  import opened HeapSpec

  /** getCeilDivEight(n) * 8 */
  function RoundUp(n: int): int
    requires n > 0
  {
    ((n - 1) / 8 + 1) * 8
  }

  /** The largest size whose number of 8-byte units fits in 16 bits. */
  const MAX_SIZE := 262128

  /** The bytes that a block must have to serve a request of `size`. */
  function Need(size: int): int {
    RoundUp(if size + OCCUPIED_HEADER < FREE_HEADER then FREE_HEADER else size + OCCUPIED_HEADER)
  }

  lemma NeedOk(size: int)
    ensures Need(size) % 8 == 0 && Need(size) >= FREE_HEADER && Need(size) >= size + OCCUPIED_HEADER
    ensures Need(size) == FREE_HEADER || Need(size) < size + OCCUPIED_HEADER + 8
    ensures Need(size) == 8 * (Index(Need(size)) + 1)
  {
  }

  /** A block of `8 * (k + 1)` bytes leaves three units over. */
  lemma Leftover(need: int, k: int)
    requires need % 8 == 0
    ensures Index(need) <= k - 3 <==> need + FREE_HEADER <= 8 * (k + 1)
  {
  }

  /** Conversion to a 16-bit integer. */
  function Short(n: int): int {
    if n % 0x1_0000 < 0x8000 then n % 0x1_0000 else n % 0x1_0000 - 0x1_0000
  }

  /** The end offset of the first block of a new page, as its header holds it: computed in 16
      bits, and kept in 13. */
  function EndOffset(need: int): int {
    var end := Short(PAGE_HEADER + need);
    (if end < FREE_HEADER then FREE_HEADER else end) % 0x2000
  }

  lemma Low13(n: int)
    ensures n % 0x1_0000 % 0x2000 == n % 0x2000
  {
    var m := n % 0x1_0000;
    RemainderIs(n, 0x2000, 8 * (n / 0x1_0000) + m / 0x2000, m % 0x2000);
  }

  lemma Low3(n: int)
    ensures n % 0x2000 % 8 == n % 8
  {
    var m := n % 0x2000;
    RemainderIs(n, 8, 0x400 * (n / 0x2000) + m / 8, m % 8);
  }

  lemma SmallMod(n: int)
    ensures n % 0x1_0000 < 0x2000 ==> n % 0x2000 == n % 0x1_0000
    ensures 0 <= n < 0x2000 ==> n % 0x1_0000 == n
  {
    Low13(n);
  }

  /** What 16 bits and then 13 bits make of the end offset. */
  lemma EndOffsetIs(need: int, m: int, l: int)
    requires m == (PAGE_HEADER + need) % 0x1_0000 && l == (PAGE_HEADER + need) % 0x2000
    ensures EndOffset(need) == if m >= 0x8000 || m < FREE_HEADER then FREE_HEADER else l
  {
    Low13(PAGE_HEADER + need);
  }

  /** That end leaves the block room for a header exactly if 16 bits have not made it negative
      and 13 bits have not made it small. */
  lemma EndOffsetRoom(need: int)
    requires need % 8 == 0
    ensures EndOffset(need) >= PAGE_HEADER + FREE_HEADER <==>
      (PAGE_HEADER + need) % 0x1_0000 < 0x8000 && (PAGE_HEADER + need) % 0x2000 >= PAGE_HEADER + FREE_HEADER
    ensures EndOffset(need) % 8 == 0
    ensures FREE_HEADER <= need < 0x2000 - PAGE_HEADER ==> EndOffset(need) == PAGE_HEADER + need
  {
    var n := PAGE_HEADER + need;
    EndOffsetIs(need, n % 0x1_0000, n % 0x2000);
    SmallMod(n);
    NextMultiple(need);
    Low3(n);
  }

  lemma NextMultiple(need: int)
    requires need % 8 == 0
    ensures (PAGE_HEADER + need) % 8 == 0
  {
  }

  /** Every size up to 8168 is safe, and the next one is not. */
  lemma SafeSizes(size: int)
    ensures size <= 8168 ==> EndOffset(Need(size)) >= PAGE_HEADER + FREE_HEADER
    ensures size == 8169 ==> EndOffset(Need(size)) == 0
  {
    NeedOk(size);
    if size <= 8168 {
      EndOffsetRoom(Need(size));
    } else if size == 8169 {
      assert Need(size) == 8184;
      EndOffsetIs(8184, 0x2000, 0);
    }
  }

  /** The first block of a page can hold a free header, and has no block before it. */
  lemma FirstBlock(h: Headers, tiles: seq<seq<nat>>, a: Addr)
    requires AllTiled(h, tiles) && a in h && a.off == PAGE_HEADER
    ensures h[a].end >= PAGE_HEADER + FREE_HEADER && h[a].pre == 0
  {
    var offs := tiles[a.page];
    assert Tiled(h, a.page, offs);
    assert Tile(h, a.page, offs, 0);
  }

  /** The lists with block `a`, of `n` bytes, at the head of the one for its size. */
  function PushedOn(lists: seq<seq<Addr>>, a: Addr, n: int): seq<seq<Addr>> {
    if 0 <= Index(n) < |lists| then lists[Index(n) := [a] + lists[Index(n)]] else lists
  }

  /** Whether the first block of a new page is large enough. */
  lemma PageEnough(size: int, need: int, n: int)
    requires need == Need(size) && EndOffset(need) >= PAGE_HEADER + FREE_HEADER
    requires n == if EndOffset(need) >= PAGE_SIZE - FREE_HEADER then PAGE_SIZE - PAGE_HEADER else EndOffset(need) - PAGE_HEADER
    ensures n - OCCUPIED_HEADER >= size <==> size <= 4080
  {
    NeedOk(size);
    EndOffsetRoom(need);
  }

  /** A block in a list is smaller than a page, and so is what it can serve. */
  lemma SmallEnough(need: int, k: nat)
    requires need % 8 == 0 && FREE_HEADER <= need && Index(need) <= k < NUM_ENTRIES - 1
    ensures need <= 8 * (k + 1) <= 4088 && EndOffset(need) == PAGE_HEADER + need
  {
    EndOffsetRoom(need);
  }

  /** The first list has the smallest blocks. */
  lemma Smallest(h: Headers, lists: seq<seq<Addr>>, need: int, k: nat)
    requires ListsOk(h, lists) && need % 8 == 0 && FirstFrom(lists, Index(need), k)
    ensures lists[k][0] in h && h[lists[k][0]].free && Size(h, lists[k][0]) == 8 * (k + 1) >= need
    ensures forall b <- h | h[b].free && Size(h, b) >= need :: 8 * (k + 1) <= Size(h, b)
  {
    assert ListOk(h, lists[k], k) && lists[k][0] in lists[k];
    forall b <- h | h[b].free && Size(h, b) >= need
      ensures 8 * (k + 1) <= Size(h, b)
    {
      assert InList(lists, b, Size(h, b));
      assert lists[Index(Size(h, b))] != [];
    }
  }

  ghost predicate AnyFree(h: Headers, need: int) { exists b <- h :: h[b].free && Size(h, b) >= need }

  /** List `k` is the first from `i` on that is not empty. */
  ghost predicate FirstFrom(lists: seq<seq<Addr>>, i: int, k: nat) {
    i <= k < |lists| && lists[k] != [] && forall j | 0 <= j < k && i <= j :: lists[j] == []
  }

  lemma OnlyFirst(lists: seq<seq<Addr>>, i: nat, found: bool, k: nat)
    requires if found then FirstFrom(lists, i, k) else forall j | i <= j < |lists| :: lists[j] == []
    ensures forall k': nat | FirstFrom(lists, i, k') :: found && k' == k
  {
    forall k': nat | FirstFrom(lists, i, k')
      ensures found && k' == k
    {
      assert lists[k'] != [];
    }
  }

  /** A list from `i` on is not empty exactly if there is a free block that large. */
  lemma SomeFree(h: Headers, lists: seq<seq<Addr>>, need: int)
    requires ListsOk(h, lists) && need % 8 == 0
    ensures AnyFree(h, need) <==> exists k: nat :: Index(need) <= k < |lists| && lists[k] != []
  {
    if AnyFree(h, need) {
      var b :| b in h && h[b].free && Size(h, b) >= need;
      assert InList(lists, b, Size(h, b));
    }
    if k: nat :| Index(need) <= k < |lists| && lists[k] != [] {
      assert ListOk(h, lists[k], k) && lists[k][0] in lists[k];
    }
  }

  class Allocator {
    var headers: Headers
    var lists: seq<seq<Addr>>
    ghost var tiles: seq<seq<nat>>
    /** Pages handed out so far; the next one is `pages`. */
    var pages: nat

    ghost predicate Valid()
      reads this
    {
      HeapOk(headers, tiles, lists) && pages == |tiles|
    }

    /** tableInit: no pages, and every list is empty. */
    constructor ()
      ensures Valid() && headers == map[] && pages == 0
    {
      headers, tiles, pages := map[], [], 0;
      lists := seq(NUM_ENTRIES, _ => []);
    }

    /** The search of kalloc: the first list from `i` on that is not empty. */
    method FindList(i: nat) returns (found: bool, k: nat)
      requires |lists| == NUM_ENTRIES
      ensures if found then FirstFrom(lists, i, k) else forall j | i <= j < NUM_ENTRIES :: lists[j] == []
    {
      k := i;
      while k < NUM_ENTRIES
        invariant i <= k && forall j | i <= j < k && j < NUM_ENTRIES :: lists[j] == []
      {
        if lists[k] != [] {
          return true, k;
        }
        k := k + 1;
      }
      found := false;
    }

    /** setFree and insertToHead for the block `a`. */
    method Insert(a: Addr)
      requires Valid() && a in headers && !headers[a].free
      modifies `headers, `lists
      ensures Valid() && headers == Marked(old(headers), a, true)
      ensures lists == PushedOn(old(lists), a, Size(old(headers), a))
    {
      var i := Index(Size(headers, a));
      FreeOk(headers, tiles, lists, a, i);
      headers := Marked(headers, a, true);
      lists := lists[i := [a] + lists[i]];
    }

    /** What is left of block `a` beyond `mid` becomes a free block. */
    method Split(a: Addr, mid: nat)
      requires Valid() && CutAt(headers, a, mid) && !headers[a].free
      modifies `headers, `lists, `tiles
      ensures Valid() && headers == Marked(Cut(old(headers), a, mid), Addr(a.page, mid), true)
      ensures Live(headers) == Live(old(headers)) && headers[a].end == mid
      ensures lists == PushedOn(old(lists), Addr(a.page, mid), old(headers)[a].end - mid)
      ensures forall b <- Live(old(headers)) | b != a :: b in headers && headers[b].end == old(headers)[b].end
    {
      var rest, end := Addr(a.page, mid), headers[a].end;
      var h := Cut(headers, a, mid);
      tiles := CutOk(headers, tiles, lists, a, mid, h);
      headers := headers[a := Header(mid, false, headers[a].pre)][rest := Header(end, false, a.off)];
      if end != PAGE_SIZE {
        var below := Addr(a.page, end);
        headers := headers[below := Header(headers[below].end, headers[below].free, mid)];
      }
      Insert(rest);
      CutLive(old(headers), a, mid, headers);
    }

    /** kalloc_page, and the header of a block that is all of the page. */
    method NewPage() returns (a: Addr)
      requires Valid()
      modifies this
      ensures Valid() && a == Addr(old(pages), PAGE_HEADER) && Allotted(old(headers), headers, a)
      ensures headers == old(headers)[a := Header(PAGE_SIZE, false, 0)] && lists == old(lists) && pages == old(pages) + 1
    {
      a := Addr(pages, PAGE_HEADER);
      PageOk(headers, tiles, lists, a, headers[a := Header(PAGE_SIZE, false, 0)]);
      headers := headers[a := Header(PAGE_SIZE, false, 0)];
      tiles := tiles + [[PAGE_HEADER]];
      pages := pages + 1;
    }

    /** doAllocPage, for a block of `need` bytes. If its end offset does not survive, the
        headers of the page make no sense any more. */
    method AllocPage(need: int) returns (a: Addr)
      requires Valid() && FREE_HEADER <= need && need % 8 == 0
      modifies this
      ensures EndOffset(need) >= PAGE_HEADER + FREE_HEADER ==>
        && Valid() && a in headers && Allotted(old(headers), headers, a) && a.page == old(pages)
        && Size(headers, a) == if EndOffset(need) >= PAGE_SIZE - FREE_HEADER then PAGE_SIZE - PAGE_HEADER else EndOffset(need) - PAGE_HEADER
      ensures EndOffset(need) < PAGE_HEADER + FREE_HEADER ==> forall t :: !AllTiled(headers, t)
      ensures pages == old(pages) + 1
      ensures PAGE_HEADER + FREE_HEADER <= EndOffset(need) < PAGE_SIZE - FREE_HEADER ==>
        lists == PushedOn(old(lists), Addr(a.page, EndOffset(need)), PAGE_SIZE - EndOffset(need))
      ensures EndOffset(need) >= PAGE_SIZE - FREE_HEADER ==> lists == old(lists)
    {
      a := NewPage();
      var end := EndOffset(need);
      EndOffsetRoom(need);
      if PAGE_HEADER + FREE_HEADER <= end < PAGE_SIZE - FREE_HEADER {
        Split(a, end);
      } else if end < PAGE_HEADER + FREE_HEADER {
        Spoil(a, end);
      }
    }

    /** What doAllocPage does with an end offset so small that the rest of the page overlaps
        the block. */
    method Spoil(a: Addr, end: nat)
      requires a.off == PAGE_HEADER && end < PAGE_HEADER + FREE_HEADER && |lists| == NUM_ENTRIES
      modifies `headers, `lists
      ensures forall t :: !AllTiled(headers, t)
    {
      var rest := Addr(a.page, end);
      headers := headers[a := Header(end, false, 0)][rest := Header(PAGE_SIZE, true, PAGE_HEADER)];
      var i := Index(PAGE_SIZE - end);
      lists := lists[i := [rest] + lists[i]];
      forall t
        ensures !AllTiled(headers, t)
      {
        if AllTiled(headers, t) {
          FirstBlock(headers, t, a);
        }
      }
    }

    /** deleteHeadNode, and the block is occupied. */
    method TakeHead(k: nat) returns (a: Addr)
      requires Valid() && k < NUM_ENTRIES && lists[k] != []
      modifies `headers, `lists
      ensures Valid() && a == old(lists)[k][0] && a in old(headers) && headers == Marked(old(headers), a, false)
      ensures Size(headers, a) == Size(old(headers), a) == 8 * (k + 1) && Allotted(old(headers), headers, a)
      ensures lists == old(lists)[k := old(lists)[k][1..]]
    {
      a := lists[k][0];
      TakeOk(headers, tiles, lists, k, a);
      lists := lists[k := lists[k][1..]];
      headers := Marked(headers, a, false);
    }

    /** doAllocBlock, for a block of `need` bytes out of the first of list `k`. */
    method AllocBlock(need: int, k: nat) returns (a: Addr)
      requires Valid() && k < NUM_ENTRIES && lists[k] != [] && FREE_HEADER <= need <= 8 * (k + 1) && need % 8 == 0
      modifies `headers, `lists, `tiles
      ensures Valid() && a == old(lists)[k][0] && a in old(headers) && a in headers && Allotted(old(headers), headers, a)
      ensures Size(headers, a) == if Index(need) <= k - 3 then need else Size(old(headers), a)
    {
      a := TakeHead(k);
      Leftover(need, k);
      if Index(need) <= k - 3 {
        WithinPage(headers, tiles, a);
        Split(a, a.off + need);
      }
    }

    /** kalloc: the address behind the header of a block. The block is large enough exactly
        when a page could hold it. If there are free blocks large enough, one of the
        smallest of them is taken. The heap stays in order exactly when the end offset of
        a block of that size, in a page of its own, would survive. */
    method Kalloc(size: int) returns (p: Addr, ghost a: Addr)
      requires Valid() && size <= MAX_SIZE
      modifies this
      ensures p == Addr(a.page, a.off + OCCUPIED_HEADER)
      ensures EndOffset(Need(size)) >= PAGE_HEADER + FREE_HEADER ==>
        && Valid() && a in headers && Allotted(old(headers), headers, a)
        && (Size(headers, a) - OCCUPIED_HEADER >= size <==> size <= 4080)
      ensures EndOffset(Need(size)) < PAGE_HEADER + FREE_HEADER ==> forall t :: !AllTiled(headers, t)
      ensures forall b <- old(headers) | old(headers)[b].free && Size(old(headers), b) >= Need(size) ::
                a in old(headers) && old(headers)[a].free && Need(size) <= Size(old(headers), a) <= Size(old(headers), b)
      ensures forall k: nat | FirstFrom(old(lists), Index(Need(size)), k) :: a == old(lists)[k][0]
      ensures pages == old(pages) + if AnyFree(old(headers), Need(size)) then 0 else 1
    {
      var need := Need(size);
      NeedOk(size);
      NoPageFree(headers, tiles, lists);
      SomeFree(headers, lists, need);
      var found, k := FindList(Index(need));
      OnlyFirst(lists, Index(need), found, k);
      if found {
        a := lists[k][0];
        var b := FromList(size, need, k);
        p := Addr(b.page, b.off + OCCUPIED_HEADER);
      } else {
        var b := FromPage(size, need);
        a := b;
        p := Addr(b.page, b.off + OCCUPIED_HEADER);
      }
    }

    /** kalloc when list `k` is the first with blocks that are large enough. */
    method FromList(size: int, need: int, k: nat) returns (a: Addr)
      requires Valid() && need == Need(size) && FREE_HEADER <= need && need % 8 == 0 && Index(need) <= k < NUM_ENTRIES - 1
      requires FirstFrom(lists, Index(need), k)
      modifies `headers, `lists, `tiles
      ensures Valid() && a == old(lists)[k][0] && a in headers && Allotted(old(headers), headers, a)
      ensures Size(headers, a) - OCCUPIED_HEADER >= size && size <= 4080 && EndOffset(need) >= PAGE_HEADER + FREE_HEADER
      ensures a in old(headers) && old(headers)[a].free && Need(size) <= Size(old(headers), a)
      ensures forall b <- old(headers) | old(headers)[b].free && Size(old(headers), b) >= need :: Size(old(headers), a) <= Size(old(headers), b)
    {
      NeedOk(size);
      SmallEnough(need, k);
      Smallest(headers, lists, need, k);
      a := AllocBlock(need, k);
    }

    /** kalloc when no list has a block that is large enough. */
    method FromPage(size: int, need: int) returns (a: Addr)
      requires Valid() && need == Need(size) && FREE_HEADER <= need && need % 8 == 0
      modifies this
      ensures EndOffset(need) >= PAGE_HEADER + FREE_HEADER ==>
        && Valid() && a in headers && Allotted(old(headers), headers, a)
        && (Size(headers, a) - OCCUPIED_HEADER >= size <==> size <= 4080)
      ensures EndOffset(need) < PAGE_HEADER + FREE_HEADER ==> forall t :: !AllTiled(headers, t)
      ensures pages == old(pages) + 1
    {
      a := AllocPage(need);
      if EndOffset(need) >= PAGE_HEADER + FREE_HEADER {
        PageEnough(size, need, Size(headers, a));
      }
    }

    /** kfree of a live block's address. */
    method Kfree(p: Addr)
      requires Valid() && p.off >= OCCUPIED_HEADER
      requires var a := Addr(p.page, p.off - OCCUPIED_HEADER); a in Live(headers)
      modifies `headers, `lists
      ensures Valid() && headers == Marked(old(headers), Addr(p.page, p.off - OCCUPIED_HEADER), true)
      ensures Live(headers) == Live(old(headers)) - {Addr(p.page, p.off - OCCUPIED_HEADER)}
      ensures var a := Addr(p.page, p.off - OCCUPIED_HEADER); lists == PushedOn(old(lists), a, Size(old(headers), a))
    {
      Insert(Addr(p.page, p.off - OCCUPIED_HEADER));
    }
  }
}
