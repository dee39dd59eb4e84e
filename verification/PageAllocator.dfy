/** The pager: pages are carved from a flat region, and freed pages are linked to a free list. */
module PageAllocator {
  import opened FreeLists

  const PAGE_SIZE: nat := 0x10000
  const FREEPAGE_MAGIC: nat := 0x50474D43

  /** What a page holds while it is free. */
  datatype FreePage = FreePage(magic: nat, next: nat)

  /** The free list is that sequence of pages. */
  predicate Chain(pages: map<nat, FreePage>, first: nat, list: seq<nat>)
    decreases list
  {
    if list == [] then first == 0
    else first == list[0] != 0 && first in pages && pages[first].magic == FREEPAGE_MAGIC
         && Chain(pages, pages[first].next, list[1..])
  }

  lemma {:induction false} ChainKept(pages: map<nat, FreePage>, first: nat, list: seq<nat>, a: nat, page: FreePage)
    requires Chain(pages, first, list) && a !in list
    ensures Chain(pages[a := page], first, list)
    decreases list
  {
    if list != [] {
      assert list[0] in list;
      ChainKept(pages, pages[first].next, list[1..], a, page);
    }
  }

  /** Pages lie back to back from `base` on. */
  ghost predicate BackToBack(base: nat, carved: seq<nat>) {
    forall k :: 0 <= k < |carved| ==> carved[k] == base + k * PAGE_SIZE
  }

  /** Every page ever carved is either in use or free. */
  ghost predicate Placed(carved: seq<nat>, free: seq<nat>, live: set<nat>) {
    && NoDuplicates(free) && live !! Elements(free)
    && forall a :: a in carved <==> a in live || a in free
  }

  lemma CarvedIsFreePlusLive(base: nat, carved: seq<nat>, free: seq<nat>, live: set<nat>)
    requires BackToBack(base, carved) && Placed(carved, free, live)
    ensures |carved| == |free| + |live|
  {
    forall i, j | 0 <= i < j < |carved| ensures carved[i] != carved[j] {
      PageBounds(i, j);
    }
    SizeOfList(carved);
    SizeOfList(free);
    assert Elements(carved) == Elements(free) + live;
  }

  class Pager {
    var next: nat
    var limit: nat
    var freeList: nat
    var pages: map<nat, FreePage>  // the beginning of every page
    ghost var base: nat
    ghost var carved: seq<nat>
    ghost var free: seq<nat>
    ghost var live: set<nat>
    ghost var peak: nat    // the most pages that were in use at once
    ghost var failed: nat  // allocations that failed

    ghost predicate Valid()
      reads this
    {
      && 0 < base && base % PAGE_SIZE == 0 && limit % PAGE_SIZE == 0
      && next == base + (|carved| + failed) * PAGE_SIZE
      && (carved != [] ==> base + |carved| * PAGE_SIZE <= limit) && (failed > 0 ==> next > limit)
      && BackToBack(base, carved) && Chain(pages, freeList, free) && Placed(carved, free, live)
      && peak == |carved|
    }

    constructor (base: nat, size: nat)
      requires base > 0
      ensures Valid() && live == {} && carved == [] && failed == 0
      ensures base <= this.base < base + PAGE_SIZE && limit <= base + size < limit + PAGE_SIZE
    {
      var top := base + PAGE_SIZE - 1;
      next := top - top % PAGE_SIZE;
      limit := base + size - (base + size) % PAGE_SIZE;
      freeList, pages := 0, map[];
      this.base := top - top % PAGE_SIZE;
      carved, free, live, peak, failed := [], [], {}, 0, 0;
    }

    /** Gives out a page that is not in use; fails only when no page is free and none can be carved. */
    method Allocate() returns (p: nat)
      requires Valid()
      modifies this
      ensures Valid() && base == old(base) && limit == old(limit)
      ensures p == 0 <==> old(free) == [] && old(next) + PAGE_SIZE > limit
      ensures p == 0 ==> live == old(live) && carved == old(carved) && failed == old(failed) + 1
      ensures p != 0 ==> p !in old(live) && live == old(live) + {p} && p % PAGE_SIZE == 0
                         && base <= p && p + PAGE_SIZE <= limit && failed == old(failed)
      ensures carved == if p != 0 && old(free) == [] then old(carved) + [p] else old(carved)
    {
      if freeList != 0 {
        p := TakeFirst();
      } else {
        p := CarvePage();
      }
    }

    method TakeFirst() returns (p: nat)
      requires Valid() && freeList != 0
      modifies `freeList, `pages, `free, `live
      ensures Valid() && p == old(freeList) && p != 0 && old(free) != []
      ensures p !in old(live) && live == old(live) + {p} && p % PAGE_SIZE == 0 && base <= p && p + PAGE_SIZE <= limit
    {
      p := freeList;
      FirstIsFree();
      assert pages[p].magic == FREEPAGE_MAGIC;
      ChainKept(pages, pages[p].next, free[1..], p, pages[p].(magic := 0));
      TakeKeepsPlaced(carved, free, live);
      freeList := pages[p].next;
      pages := pages[p := pages[p].(magic := 0)];
      free, live := free[1..], live + {p};
      CarvedIsFreePlusLive(base, carved, free, live);
      assert |live| <= peak;
    }

    method CarvePage() returns (p: nat)
      requires Valid() && freeList == 0
      modifies `next, `carved, `live, `peak, `failed
      ensures Valid() && old(free) == []
      ensures p == if old(next) + PAGE_SIZE > limit then 0 else old(next)
      ensures if p == 0 then live == old(live) && carved == old(carved) && failed == old(failed) + 1
              else p !in old(live) && live == old(live) + {p} && carved == old(carved) + [p] && failed == old(failed)
                   && p % PAGE_SIZE == 0 && base <= p && p + PAGE_SIZE <= limit
    {
      p := next;
      next := next + PAGE_SIZE;
      if next > limit {
        failed := failed + 1;
        return 0;
      }
      FreshPage(base, carved, free, live, p);
      carved, live := carved + [p], live + {p};
      CarvedIsFreePlusLive(base, carved, free, live);
      if |live| > peak {
        peak := |live|;
      }
    }

    lemma FirstIsFree()
      requires Valid() && freeList != 0
      ensures free != [] && free[0] == freeList && freeList in pages && pages[freeList].magic == FREEPAGE_MAGIC
      ensures Chain(pages, pages[freeList].next, free[1..]) && freeList !in free[1..] && freeList !in live
      ensures freeList % PAGE_SIZE == 0 && base <= freeList && freeList + PAGE_SIZE <= limit
    {
      assert freeList in Elements(free);
      assert freeList in carved;
      var k: nat :| k < |carved| && carved[k] == freeList;
      PageBounds(k, |carved|);
    }

    /** Puts a page in use on the free list. */
    method Free(p: nat)
      requires Valid() && (p == 0 || p in live)
      modifies this
      ensures Valid() && base == old(base) && limit == old(limit) && carved == old(carved) && failed == old(failed)
      ensures live == old(live) - {p}
      ensures free == if p == 0 then old(free) else [p] + old(free)
    {
      CarvedNotZero(base, carved, free, live);
      if p == 0 {
        return;
      }
      assert p !in Elements(free);
      ChainKept(pages, freeList, free, p, FreePage(FREEPAGE_MAGIC, freeList));
      FreeKeepsPlaced(carved, free, live, p);
      pages := pages[p := FreePage(FREEPAGE_MAGIC, freeList)];
      freeList := p;
      free, live := [p] + free, live - {p};
    }

    /** How far the region is used up tells the most pages in use at once, exactly in runs without failures. */
    lemma UsedUpIsPeak()
      requires Valid()
      ensures next == base + peak * PAGE_SIZE <==> failed == 0
    {
    }
  }

  lemma PageBounds(k: nat, n: nat)
    requires k < n
    ensures k * PAGE_SIZE + PAGE_SIZE <= n * PAGE_SIZE && (k * PAGE_SIZE) % PAGE_SIZE == 0
  {
  }

  lemma TakeKeepsPlaced(carved: seq<nat>, free: seq<nat>, live: set<nat>)
    requires Placed(carved, free, live) && free != []
    ensures Placed(carved, free[1..], live + {free[0]})
  {
    assert free == [free[0]] + free[1..];
    assert free[0] !in free[1..];
    assert free[0] in Elements(free);
  }

  /** The page behind those carved so far. */
  lemma FreshPage(base: nat, carved: seq<nat>, free: seq<nat>, live: set<nat>, p: nat)
    requires BackToBack(base, carved) && Placed(carved, free, live) && base % PAGE_SIZE == 0
    requires p == base + |carved| * PAGE_SIZE
    ensures p !in carved && p !in live && p % PAGE_SIZE == 0 && base <= p
    ensures BackToBack(base, carved + [p]) && Placed(carved + [p], free, live + {p})
  {
    PageBounds(|carved|, |carved| + 1);
    CarveKeepsPlaced(base, carved, free, live, p);
  }

  lemma CarveKeepsPlaced(base: nat, carved: seq<nat>, free: seq<nat>, live: set<nat>, p: nat)
    requires BackToBack(base, carved) && Placed(carved, free, live) && p == base + |carved| * PAGE_SIZE
    ensures p !in carved && BackToBack(base, carved + [p]) && Placed(carved + [p], free, live + {p})
  {
  }

  lemma FreeKeepsPlaced(carved: seq<nat>, free: seq<nat>, live: set<nat>, p: nat)
    requires Placed(carved, free, live) && p in live
    ensures Placed(carved, [p] + free, live - {p})
  {
    assert p !in Elements(free);
  }

  lemma CarvedNotZero(base: nat, carved: seq<nat>, free: seq<nat>, live: set<nat>)
    requires BackToBack(base, carved) && Placed(carved, free, live) && base > 0
    ensures 0 !in live
  {
  }
}
