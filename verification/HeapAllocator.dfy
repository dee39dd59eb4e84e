/**
 The heap: blocks are carved from a flat region, and freed blocks go to the free list of their bucket.
 Sizes are 64-bit and wrap; the header of a block keeps the low 32 bits of its size.
 */
module HeapAllocator {
  import opened FreeLists

  type Byte = bv8

  const SIZE_RANGE: nat := 0x1_0000_0000_0000_0000
  const HEADER_RANGE: nat := 0x1_0000_0000
  const ALIGN: nat := 16
  const HEADER: nat := 16
  const MAX_BUCKETS: nat := 20

  /** A carved block: its header starts at addr, and the next header follows after `extent` bytes. */
  datatype Block = Block(addr: nat, extent: nat)
  {
    function Capacity(): int {
      extent - HEADER
    }
  }

  datatype Header = Header(size: nat, next: nat)

  /** How far a block of that size moves the start of the free region, computed modulo 2^64. */
  function Extent(size: nat): nat {
    var sum := (HEADER + size + ALIGN - 1) % SIZE_RANGE;
    sum - sum % ALIGN
  }

  /** A block that is carved is large enough exactly for sizes that do not wrap; wrapped ones get nothing at all. */
  lemma ExtentEnough(size: nat)
    requires size < SIZE_RANGE
    ensures Extent(size) % ALIGN == 0
    ensures Extent(size) == 0 || (Extent(size) >= HEADER + size <==> size < SIZE_RANGE - 15)
    ensures size >= SIZE_RANGE - 15 ==> Extent(size) == HEADER
    ensures Extent(size) == 0 <==> SIZE_RANGE - 31 <= size < SIZE_RANGE - 15
  {
    var sum := HEADER + size + ALIGN - 1;
    assert sum < SIZE_RANGE ==> sum % SIZE_RANGE == sum;
    assert sum >= SIZE_RANGE ==> sum % SIZE_RANGE == sum - SIZE_RANGE;
  }

  // ---------------------------------------------------------------- buckets

  ghost predicate Buckets(sizes: seq<nat>) {
    && |sizes| <= MAX_BUCKETS
    && (forall i :: 0 <= i < |sizes| ==> 0 < sizes[i] < HEADER_RANGE)
    && (forall i, j :: 0 <= i < j < |sizes| ==> sizes[i] < sizes[j])
  }

  /** The first bucket that is large enough, or the number of buckets. */
  function BucketFor(sizes: seq<nat>, size: nat): (i: nat)
    ensures i <= |sizes|
  {
    if sizes == [] || size <= sizes[0] then 0 else 1 + BucketFor(sizes[1..], size)
  }

  lemma {:induction false} BucketForIs(sizes: seq<nat>, size: nat, k: nat)
    requires k <= |sizes| && (forall i :: 0 <= i < k ==> size > sizes[i]) && (k < |sizes| ==> size <= sizes[k])
    ensures BucketFor(sizes, size) == k
  {
    if k > 0 {
      assert size > sizes[0];
      BucketForIs(sizes[1..], size, k - 1);
    }
  }

  function Rounded(sizes: seq<nat>, size: nat): nat {
    var i := BucketFor(sizes, size);
    if i < |sizes| then sizes[i] else size
  }

  // ---------------------------------------------------------------- layout

  /** The blocks lie back to back from `base` to `next`. */
  predicate Layout(base: nat, blocks: seq<Block>, next: nat) {
    if blocks == [] then next == base
    else
      var last := blocks[|blocks| - 1];
      && last.extent >= HEADER && last.extent % ALIGN == 0 && last.addr + last.extent == next
      && Layout(base, blocks[..|blocks| - 1], last.addr)
  }

  lemma {:induction false} InLayout(base: nat, blocks: seq<Block>, next: nat, i: nat)
    requires Layout(base, blocks, next) && i < |blocks| && base % ALIGN == 0
    ensures base <= blocks[i].addr && blocks[i].addr + blocks[i].extent <= next
    ensures blocks[i].addr % ALIGN == 0 && blocks[i].extent >= HEADER
    decreases |blocks|
  {
    LayoutAligned(base, blocks, next);
    var rest := blocks[..|blocks| - 1];
    LayoutAligned(base, rest, blocks[|blocks| - 1].addr);
    if i < |blocks| - 1 {
      InLayout(base, rest, blocks[|blocks| - 1].addr, i);
    }
  }

  lemma SumAligned(a: nat, b: nat)
    requires a % ALIGN == 0 && b % ALIGN == 0
    ensures (a + b) % ALIGN == 0
  {
  }

  lemma {:induction false} LayoutAligned(base: nat, blocks: seq<Block>, next: nat)
    requires Layout(base, blocks, next) && base % ALIGN == 0
    ensures next % ALIGN == 0 && base <= next
    decreases |blocks|
  {
    if blocks != [] {
      LayoutAligned(base, blocks[..|blocks| - 1], blocks[|blocks| - 1].addr);
      SumAligned(blocks[|blocks| - 1].addr, blocks[|blocks| - 1].extent);
    }
  }

  /** Two blocks never overlap. */
  lemma {:induction false} BlocksDisjoint(base: nat, blocks: seq<Block>, next: nat, i: nat, j: nat)
    requires Layout(base, blocks, next) && base % ALIGN == 0 && i < j < |blocks|
    ensures blocks[i].addr + blocks[i].extent <= blocks[j].addr
    decreases |blocks|
  {
    var rest := blocks[..|blocks| - 1];
    if j < |blocks| - 1 {
      BlocksDisjoint(base, rest, blocks[|blocks| - 1].addr, i, j);
    } else {
      InLayout(base, rest, blocks[|blocks| - 1].addr, i);
    }
  }

  // ---------------------------------------------------------------- free lists

  /** The chain of headers from `first` on is that list. */
  predicate Chain(headers: map<nat, Header>, first: nat, list: seq<nat>)
    decreases list
  {
    if list == [] then first == 0
    else first == list[0] != 0 && first in headers && Chain(headers, headers[first].next, list[1..])
  }

  /** A chain does not notice changes to headers outside it. */
  lemma {:induction false} ChainKept(headers: map<nat, Header>, headers': map<nat, Header>, first: nat, list: seq<nat>)
    requires Chain(headers, first, list)
    requires forall a :: a in list && a in headers ==> a in headers' && headers'[a] == headers[a]
    ensures Chain(headers', first, list)
    decreases list
  {
    if list != [] {
      assert list[0] in list;
      ChainKept(headers, headers', headers[first].next, list[1..]);
    }
  }

  // ---------------------------------------------------------------- the state of the heap

  /** The allocator and the headers in memory. */
  datatype Heap = Heap(next: nat, limit: nat, reserve: nat, lists: seq<nat>, headers: map<nat, Header>)

  /** All blocks ever carved, where each of them is now, and the most that were in use at once per bucket. */
  datatype Log = Log(base: nat, blocks: seq<Block>, free: seq<seq<nat>>, live: map<nat, nat>, lost: set<nat>, peak: seq<nat>)

  predicate Region(s: Heap, log: Log) {
    && 0 < log.base && log.base % ALIGN == 0 && Layout(log.base, log.blocks, s.next)
    && s.next <= s.limit < SIZE_RANGE && s.reserve <= s.limit
  }

  /** Every block has a header, and fits what the header says and what was asked for. */
  ghost predicate Headed(headers: map<nat, Header>, blocks: seq<Block>, live: map<nat, nat>) {
    && (forall i :: 0 <= i < |blocks| ==> BlockHeaded(headers, live, blocks[i]))
    && (forall a :: a in headers ==> exists i :: 0 <= i < |blocks| && blocks[i].addr == a)
  }

  predicate BlockHeaded(headers: map<nat, Header>, live: map<nat, nat>, b: Block) {
    && b.addr in headers && headers[b.addr].size <= b.Capacity() && headers[b.addr].size < HEADER_RANGE
    && (b.addr in live ==> live[b.addr] <= b.Capacity() && (live[b.addr] < HEADER_RANGE ==> live[b.addr] <= headers[b.addr].size))
  }

  /** Free list i holds free blocks of size i. */
  ghost predicate ListGood(size: nat, first: nat, list: seq<nat>, headers: map<nat, Header>, live: map<nat, nat>, lost: set<nat>) {
    && Chain(headers, first, list) && NoDuplicates(list)
    && forall a :: a in list ==> a in headers && headers[a].size == size && a !in live && a !in lost
  }

  /** Every block is in use, on the free list for its size, or lost because no bucket has its size. */
  ghost predicate Placed(sizes: seq<nat>, headers: map<nat, Header>, free: seq<seq<nat>>, live: map<nat, nat>, lost: set<nat>) {
    && live.Keys <= headers.Keys && lost <= headers.Keys && live.Keys !! lost
    && (forall a :: a in headers && a !in live && a !in lost ==> exists i :: 0 <= i < |free| && a in free[i])
    && (forall a :: a in lost ==> a in headers && headers[a].size !in sizes)
  }

  ghost predicate Sound(sizes: seq<nat>, s: Heap, log: Log) {
    && Buckets(sizes) && |s.lists| == |log.free| == |sizes|
    && Region(s, log) && Headed(s.headers, log.blocks, log.live)
    && (forall i :: 0 <= i < |sizes| ==> ListGood(sizes[i], s.lists[i], log.free[i], s.headers, log.live, log.lost))
    && Placed(sizes, s.headers, log.free, log.live, log.lost)
  }

  // ---------------------------------------------------------------- the steps

  /** The first block of free list i is taken for `size` bytes. */
  function AfterTake(s: Heap, i: nat): Heap
    requires i < |s.lists| && s.lists[i] in s.headers
  {
    var a := s.lists[i];
    s.(lists := s.lists[i := s.headers[a].next], headers := s.headers[a := s.headers[a].(next := 0)])
  }

  function LogTake(log: Log, i: nat, size: nat): Log
    requires i < |log.free| && log.free[i] != []
  {
    log.(free := log.free[i := log.free[i][1..]], live := log.live[log.free[i][0] := size])
  }

  lemma OtherListKept(sizes: seq<nat>, s: Heap, log: Log, i: nat, a: nat, header: Header, live: map<nat, nat>, lost: set<nat>)
    requires Sound(sizes, s, log) && i < |sizes| && a !in log.free[i]
    requires live.Keys <= log.live.Keys + {a} && lost <= log.lost + {a}
    ensures ListGood(sizes[i], s.lists[i], log.free[i], s.headers[a := header], live, lost)
  {
    assert ListGood(sizes[i], s.lists[i], log.free[i], s.headers, log.live, log.lost);
    ChainKept(s.headers, s.headers[a := header], s.lists[i], log.free[i]);
  }

  /** The free lists are disjoint, since their sizes differ. */
  lemma OnOneList(sizes: seq<nat>, s: Heap, log: Log, i: nat, j: nat, a: nat)
    requires Sound(sizes, s, log) && i < |sizes| && j < |sizes| && a in log.free[i] && a in log.free[j]
    ensures i == j
  {
    assert ListGood(sizes[i], s.lists[i], log.free[i], s.headers, log.live, log.lost);
    assert ListGood(sizes[j], s.lists[j], log.free[j], s.headers, log.live, log.lost);
  }

  lemma HeadedKept(headers: map<nat, Header>, blocks: seq<Block>, live: map<nat, nat>, a: nat, header: Header, live': map<nat, nat>)
    requires Headed(headers, blocks, live) && a in headers && header.size == headers[a].size
    requires forall b :: b in live' ==> if b == a then live'[b] <= headers[a].size else b in live && live'[b] == live[b]
    ensures Headed(headers[a := header], blocks, live')
  {
    forall i | 0 <= i < |blocks| ensures BlockHeaded(headers[a := header], live', blocks[i]) {
      assert BlockHeaded(headers, live, blocks[i]);
    }
  }

  lemma TakeKeepsSound(sizes: seq<nat>, s: Heap, log: Log, i: nat, size: nat)
    requires Sound(sizes, s, log) && i < |sizes| && s.lists[i] != 0 && size <= sizes[i]
    ensures s.lists[i] in s.headers && log.free[i] != [] && log.free[i][0] == s.lists[i]
    ensures Sound(sizes, AfterTake(s, i), LogTake(log, i, size))
  {
    var a, list := s.lists[i], log.free[i];
    assert ListGood(sizes[i], a, list, s.headers, log.live, log.lost);
    assert list[0] == a && a in list;
    var header := s.headers[a].(next := 0);
    var s', log' := AfterTake(s, i), LogTake(log, i, size);
    HeadedKept(s.headers, log.blocks, log.live, a, header, log'.live);
    TakeKeepsList(sizes[i], a, list, s.headers, log.live, log.lost, size);
    forall j | 0 <= j < |sizes| ensures ListGood(sizes[j], s'.lists[j], log'.free[j], s'.headers, log'.live, log'.lost) {
      if j != i {
        assert a in log.free[j] ==> false by {
          if a in log.free[j] {
            OnOneList(sizes, s, log, i, j, a);
          }
        }
        OtherListKept(sizes, s, log, j, a, header, log'.live, log'.lost);
      }
    }
    TakeKeepsPlaced(sizes, s.headers, log, i, header, size);
  }

  lemma TakeKeepsList(bucket: nat, a: nat, list: seq<nat>, headers: map<nat, Header>, live: map<nat, nat>, lost: set<nat>, size: nat)
    requires ListGood(bucket, a, list, headers, live, lost) && list != []
    ensures a in headers
    ensures ListGood(bucket, headers[a].next, list[1..], headers[a := headers[a].(next := 0)], live[a := size], lost)
  {
    assert list[0] == a;
    assert forall b :: b in list[1..] ==> b in list && b != a;
    ChainKept(headers, headers[a := headers[a].(next := 0)], headers[a].next, list[1..]);
  }

  lemma TakeKeepsPlaced(sizes: seq<nat>, headers: map<nat, Header>, log: Log, i: nat, header: Header, size: nat)
    requires Placed(sizes, headers, log.free, log.live, log.lost) && i < |log.free| && log.free[i] != []
    requires var a := log.free[i][0]; a in headers && header.size == headers[a].size && a !in log.lost
    ensures var (a, log') := (log.free[i][0], LogTake(log, i, size));
            Placed(sizes, headers[a := header], log'.free, log'.live, log'.lost)
  {
    var a, log' := log.free[i][0], LogTake(log, i, size);
    forall b | b in headers && b !in log'.live && b !in log'.lost ensures exists j :: 0 <= j < |log'.free| && b in log'.free[j] {
      var j :| 0 <= j < |log.free| && b in log.free[j];
      assert log.free[i] == [a] + log.free[i][1..];
      assert b in log'.free[j];
    }
  }

  /** A new block is carved for `size` bytes, of which `asked` were asked for. */
  function AfterCarve(s: Heap, size: nat): Heap {
    s.(next := s.next + Extent(size), headers := s.headers[s.next := Header(size % HEADER_RANGE, 0)])
  }

  function LogCarve(log: Log, next: nat, size: nat, asked: nat): Log {
    log.(blocks := log.blocks + [Block(next, Extent(size))], live := log.live[next := asked])
  }

  lemma NextIsFresh(s: Heap, log: Log)
    requires Region(s, log) && Headed(s.headers, log.blocks, log.live)
    ensures s.next !in s.headers && s.next > 0 && s.next % ALIGN == 0
  {
    LayoutAligned(log.base, log.blocks, s.next);
    if s.next in s.headers {
      var i :| 0 <= i < |log.blocks| && log.blocks[i].addr == s.next;
      InLayout(log.base, log.blocks, s.next, i);
    }
  }

  lemma CarveKeepsHeaded(headers: map<nat, Header>, blocks: seq<Block>, live: map<nat, nat>, a: nat, size: nat, asked: nat)
    requires Headed(headers, blocks, live) && a !in headers && asked <= size < SIZE_RANGE - 31
    requires asked == size || size < HEADER_RANGE
    ensures Headed(headers[a := Header(size % HEADER_RANGE, 0)], blocks + [Block(a, Extent(size))], live[a := asked])
  {
    ExtentEnough(size);
    assert asked < HEADER_RANGE ==> asked <= size % HEADER_RANGE;
    var headers', blocks' := headers[a := Header(size % HEADER_RANGE, 0)], blocks + [Block(a, Extent(size))];
    forall i | 0 <= i < |blocks'| ensures BlockHeaded(headers', live[a := asked], blocks'[i]) {
      if i < |blocks| {
        assert BlockHeaded(headers, live, blocks[i]);
      }
    }
    forall b | b in headers' ensures exists i :: 0 <= i < |blocks'| && blocks'[i].addr == b {
      if b == a {
        assert blocks'[|blocks|].addr == b;
      } else {
        var i :| 0 <= i < |blocks| && blocks[i].addr == b;
        assert blocks'[i].addr == b;
      }
    }
  }

  lemma CarveKeepsSound(sizes: seq<nat>, s: Heap, log: Log, size: nat, asked: nat)
    requires Sound(sizes, s, log) && asked <= size < SIZE_RANGE - 31 && s.next + Extent(size) <= s.limit
    requires asked == size || size < HEADER_RANGE
    ensures Sound(sizes, AfterCarve(s, size), LogCarve(log, s.next, size, asked))
  {
    var s', log' := AfterCarve(s, size), LogCarve(log, s.next, size, asked);
    NextIsFresh(s, log);
    ExtentEnough(size);
    assert log'.blocks[..|log.blocks|] == log.blocks;
    CarveKeepsHeaded(s.headers, log.blocks, log.live, s.next, size, asked);
    forall j | 0 <= j < |sizes| ensures ListGood(sizes[j], s'.lists[j], log'.free[j], s'.headers, log'.live, log'.lost) {
      assert ListGood(sizes[j], s.lists[j], log.free[j], s.headers, log.live, log.lost);
      OtherListKept(sizes, s, log, j, s.next, Header(size % HEADER_RANGE, 0), log'.live, log'.lost);
    }
    assert Placed(sizes, s'.headers, log'.free, log'.live, log'.lost);
  }

  /** A block goes to the front of the free list of its size. */
  function AfterFree(s: Heap, i: nat, a: nat): Heap
    requires i < |s.lists| && a in s.headers
  {
    s.(lists := s.lists[i := a], headers := s.headers[a := s.headers[a].(next := s.lists[i])])
  }

  function LogFree(log: Log, i: nat, a: nat): Log
    requires i < |log.free|
  {
    log.(free := log.free[i := [a] + log.free[i]], live := log.live - {a})
  }

  lemma FreeKeepsList(bucket: nat, first: nat, list: seq<nat>, headers: map<nat, Header>, live: map<nat, nat>, lost: set<nat>, a: nat)
    requires ListGood(bucket, first, list, headers, live, lost)
    requires a in live && a != 0 && a !in lost && a in headers && headers[a].size == bucket
    ensures ListGood(bucket, a, [a] + list, headers[a := headers[a].(next := first)], live - {a}, lost)
  {
    ChainKept(headers, headers[a := headers[a].(next := first)], first, list);
    assert ([a] + list)[1..] == list;
  }

  lemma FreeKeepsSound(sizes: seq<nat>, s: Heap, log: Log, i: nat, a: nat)
    requires Sound(sizes, s, log) && i < |sizes| && a in log.live && a != 0
    requires a in s.headers && s.headers[a].size == sizes[i]
    ensures Sound(sizes, AfterFree(s, i, a), LogFree(log, i, a))
  {
    var header := s.headers[a].(next := s.lists[i]);
    var s', log' := AfterFree(s, i, a), LogFree(log, i, a);
    HeadedKept(s.headers, log.blocks, log.live, a, header, log'.live);
    FreeKeepsPlaced(sizes, s.headers, log, i, a, header);
    forall j | 0 <= j < |sizes| ensures ListGood(sizes[j], s'.lists[j], log'.free[j], s'.headers, log'.live, log'.lost) {
      assert ListGood(sizes[j], s.lists[j], log.free[j], s.headers, log.live, log.lost);
      if j == i {
        FreeKeepsList(sizes[i], s.lists[i], log.free[i], s.headers, log.live, log.lost, a);
      } else {
        OtherListKept(sizes, s, log, j, a, header, log'.live, log'.lost);
      }
    }
  }

  lemma FreeKeepsPlaced(sizes: seq<nat>, headers: map<nat, Header>, log: Log, i: nat, a: nat, header: Header)
    requires Placed(sizes, headers, log.free, log.live, log.lost) && i < |log.free| && a in log.live
    requires a in headers && header.size == headers[a].size
    ensures var log' := LogFree(log, i, a); Placed(sizes, headers[a := header], log'.free, log'.live, log'.lost)
  {
    var log' := LogFree(log, i, a);
    forall b | b in headers && b !in log'.live && b !in log'.lost ensures exists j :: 0 <= j < |log'.free| && b in log'.free[j] {
      if b == a {
        assert b in log'.free[i];
      } else {
        var j :| 0 <= j < |log.free| && b in log.free[j];
        assert b in log'.free[j];
      }
    }
  }

  /** A block whose size is no bucket's is lost. */
  function LogLose(log: Log, a: nat): Log {
    log.(live := log.live - {a}, lost := log.lost + {a})
  }

  lemma LoseKeepsSound(sizes: seq<nat>, s: Heap, log: Log, a: nat)
    requires Sound(sizes, s, log) && a in log.live && a in s.headers && s.headers[a].size !in sizes
    ensures Sound(sizes, s, LogLose(log, a))
  {
    var log' := LogLose(log, a);
    forall j | 0 <= j < |sizes| ensures ListGood(sizes[j], s.lists[j], log.free[j], s.headers, log'.live, log'.lost) {
      assert ListGood(sizes[j], s.lists[j], log.free[j], s.headers, log.live, log.lost);
    }
    forall i | 0 <= i < |log.blocks| ensures BlockHeaded(s.headers, log'.live, log.blocks[i]) {
      assert BlockHeaded(s.headers, log.live, log.blocks[i]);
    }
  }

  // ---------------------------------------------------------------- what the invariant means

  lemma BlockInUse(sizes: seq<nat>, s: Heap, log: Log, a: nat) returns (i: nat)
    requires Sound(sizes, s, log) && a in log.live
    ensures i < |log.blocks| && log.blocks[i].addr == a && HEADER + log.live[a] <= log.blocks[i].extent
    ensures log.base <= a && a + log.blocks[i].extent <= s.next && a % ALIGN == 0
  {
    i :| i < |log.blocks| && log.blocks[i].addr == a;
    assert BlockHeaded(s.headers, log.live, log.blocks[i]);
    InLayout(log.base, log.blocks, s.next, i);
  }

  /** Blocks in use are disjoint, aligned, within the region, and as large as was asked for. */
  lemma LiveBlocks(sizes: seq<nat>, s: Heap, log: Log, a: nat, b: nat)
    requires Sound(sizes, s, log) && a in log.live && b in log.live && a < b
    ensures log.base <= a && b + HEADER + log.live[b] <= s.next <= s.limit
    ensures (a + HEADER) % ALIGN == 0 && (b + HEADER) % ALIGN == 0
    ensures a + HEADER + log.live[a] <= b
  {
    var i := BlockInUse(sizes, s, log, a);
    var j := BlockInUse(sizes, s, log, b);
    SumAligned(a, HEADER);
    SumAligned(b, HEADER);
    if i < j {
      BlocksDisjoint(log.base, log.blocks, s.next, i, j);
    } else {
      BlocksDisjoint(log.base, log.blocks, s.next, j, i);
    }
  }

  ghost function OfSize(headers: map<nat, Header>, size: nat): set<nat> {
    set a | a in headers && headers[a].size == size
  }

  ghost function LiveOfSize(headers: map<nat, Header>, live: map<nat, nat>, size: nat): set<nat> {
    set a | a in live && a in headers && headers[a].size == size
  }

  lemma OnSomeList(sizes: seq<nat>, headers: map<nat, Header>, free: seq<seq<nat>>, live: map<nat, nat>, lost: set<nat>,
                   i: nat, a: nat) returns (j: nat)
    requires Placed(sizes, headers, free, live, lost) && i < |sizes| && a in headers && headers[a].size == sizes[i] && a !in live
    ensures j < |free| && a in free[j]
  {
    assert a !in lost;
    j :| j < |free| && a in free[j];
  }

  lemma SameBucket(sizes: seq<nat>, i: nat, j: nat)
    requires Buckets(sizes) && i < |sizes| && j < |sizes| && sizes[i] == sizes[j]
    ensures i == j
  {
  }

  /** A block of a bucket's size is in use or on the free list of that bucket. */
  lemma WhereOfSize(sizes: seq<nat>, s: Heap, log: Log, i: nat, a: nat)
    requires Sound(sizes, s, log) && i < |sizes| && a in s.headers && s.headers[a].size == sizes[i] && a !in log.live
    ensures a in log.free[i]
  {
    var j := OnSomeList(sizes, s.headers, log.free, log.live, log.lost, i, a);
    assert ListGood(sizes[j], s.lists[j], log.free[j], s.headers, log.live, log.lost);
    SameBucket(sizes, i, j);
  }

  lemma UnionSize(all: set<nat>, x: set<nat>, y: set<nat>)
    requires x <= all && y <= all && x !! y && forall a :: a in all ==> a in x || a in y
    ensures |all| == |x| + |y|
  {
    assert all == x + y;
  }

  lemma ListHasNoDuplicates(sizes: seq<nat>, s: Heap, log: Log, i: nat)
    requires Sound(sizes, s, log) && i < |sizes|
    ensures |Elements(log.free[i])| == |log.free[i]|
  {
    assert ListGood(sizes[i], s.lists[i], log.free[i], s.headers, log.live, log.lost);
    SizeOfList(log.free[i]);
  }

  lemma FreeIsOfSize(sizes: seq<nat>, s: Heap, log: Log, i: nat)
    requires Sound(sizes, s, log) && i < |sizes|
    ensures Elements(log.free[i]) <= OfSize(s.headers, sizes[i])
    ensures Elements(log.free[i]) !! LiveOfSize(s.headers, log.live, sizes[i])
  {
    assert ListGood(sizes[i], s.lists[i], log.free[i], s.headers, log.live, log.lost);
  }

  lemma CarvedIsFreePlusLive(sizes: seq<nat>, s: Heap, log: Log, i: nat)
    requires Sound(sizes, s, log) && i < |sizes|
    ensures |OfSize(s.headers, sizes[i])| == |log.free[i]| + |LiveOfSize(s.headers, log.live, sizes[i])|
  {
    var all, free, live := OfSize(s.headers, sizes[i]), Elements(log.free[i]), LiveOfSize(s.headers, log.live, sizes[i]);
    ListHasNoDuplicates(sizes, s, log, i);
    FreeIsOfSize(sizes, s, log, i);
    forall a | a in all ensures a in free || a in live {
      if a !in log.live {
        WhereOfSize(sizes, s, log, i, a);
      }
    }
    UnionSize(all, free, live);
  }

  // ---------------------------------------------------------------- reuse is optimal

  /** The number of blocks of bucket i that are in use. */
  ghost function LiveCount(sizes: seq<nat>, s: Heap, log: Log, i: nat): nat
    requires i < |sizes|
  {
    |LiveOfSize(s.headers, log.live, sizes[i])|
  }

  ghost function Max(a: nat, b: nat): nat {
    if a < b then b else a
  }

  /** The log after the number of blocks in use was looked at. */
  ghost function Watched(sizes: seq<nat>, s: Heap, log: Log): Log
    requires |log.peak| == |sizes|
  {
    log.(peak := seq(|sizes|, i requires 0 <= i < |sizes| => Max(log.peak[i], LiveCount(sizes, s, log, i))))
  }

  /** For every bucket, as many blocks were ever carved as were in use at once at some time. */
  ghost predicate Optimal(sizes: seq<nat>, s: Heap, log: Log) {
    |log.peak| == |sizes| && forall i :: 0 <= i < |sizes| ==> OptimalAt(sizes, s, log, i)
  }

  ghost predicate OptimalAt(sizes: seq<nat>, s: Heap, log: Log, i: nat)
    requires i < |sizes| && |log.peak| == |sizes|
  {
    log.peak[i] == |OfSize(s.headers, sizes[i])|
  }

  /** Optimality is kept exactly when no block of the size is new, or when one is and none of them is free. */
  lemma OptimalStep(sizes: seq<nat>, s: Heap, log: Log, s': Heap, log': Log, i: nat, more: nat)
    requires i < |sizes| && |log.peak| == |sizes| && OptimalAt(sizes, s, log, i) && log'.peak == log.peak
    requires Sound(sizes, s', log') && more <= 1
    requires |OfSize(s'.headers, sizes[i])| == |OfSize(s.headers, sizes[i])| + more
    ensures OptimalAt(sizes, s', Watched(sizes, s', log'), i) <==> more == 0 || log'.free[i] == []
  {
    CarvedIsFreePlusLive(sizes, s', log', i);
  }

  lemma SameSizes(headers: map<nat, Header>, a: nat, header: Header, size: nat)
    requires a in headers && header.size == headers[a].size
    ensures OfSize(headers[a := header], size) == OfSize(headers, size)
  {
  }

  lemma TakeKeepsOptimal(sizes: seq<nat>, s: Heap, log: Log, i: nat, size: nat)
    requires Sound(sizes, s, log) && Optimal(sizes, s, log) && i < |sizes| && s.lists[i] != 0 && size <= sizes[i]
    ensures s.lists[i] in s.headers && log.free[i] != []
    ensures var (s', log') := (AfterTake(s, i), LogTake(log, i, size)); Optimal(sizes, s', Watched(sizes, s', log'))
  {
    TakeKeepsSound(sizes, s, log, i, size);
    var s', log' := AfterTake(s, i), LogTake(log, i, size);
    forall j | 0 <= j < |sizes| ensures OptimalAt(sizes, s', Watched(sizes, s', log'), j) {
      assert OptimalAt(sizes, s, log, j);
      SameSizes(s.headers, s.lists[i], s.headers[s.lists[i]].(next := 0), sizes[j]);
      OptimalStep(sizes, s, log, s', log', j, 0);
    }
  }

  lemma FreeKeepsOptimal(sizes: seq<nat>, s: Heap, log: Log, i: nat, a: nat)
    requires Sound(sizes, s, log) && Optimal(sizes, s, log) && i < |sizes| && a in log.live && a != 0
    requires a in s.headers && s.headers[a].size == sizes[i]
    ensures var (s', log') := (AfterFree(s, i, a), LogFree(log, i, a)); Optimal(sizes, s', Watched(sizes, s', log'))
  {
    FreeKeepsSound(sizes, s, log, i, a);
    var s', log' := AfterFree(s, i, a), LogFree(log, i, a);
    forall j | 0 <= j < |sizes| ensures OptimalAt(sizes, s', Watched(sizes, s', log'), j) {
      assert OptimalAt(sizes, s, log, j);
      SameSizes(s.headers, a, s.headers[a].(next := s.lists[i]), sizes[j]);
      OptimalStep(sizes, s, log, s', log', j, 0);
    }
  }

  lemma LoseKeepsOptimal(sizes: seq<nat>, s: Heap, log: Log, a: nat)
    requires Sound(sizes, s, log) && Optimal(sizes, s, log) && a in log.live && a in s.headers && s.headers[a].size !in sizes
    ensures Optimal(sizes, s, Watched(sizes, s, LogLose(log, a)))
  {
    LoseKeepsSound(sizes, s, log, a);
    var log' := LogLose(log, a);
    forall j | 0 <= j < |sizes| ensures OptimalAt(sizes, s, Watched(sizes, s, log'), j) {
      assert OptimalAt(sizes, s, log, j);
      OptimalStep(sizes, s, log, s, log', j, 0);
    }
  }

  lemma SizesAfterCarve(headers: map<nat, Header>, a: nat, header: Header, size: nat)
    requires a !in headers
    ensures |OfSize(headers[a := header], size)| == |OfSize(headers, size)| + if header.size == size then 1 else 0
  {
    var headers' := headers[a := header];
    if header.size == size {
      assert OfSize(headers', size) == OfSize(headers, size) + {a};
    } else {
      assert OfSize(headers', size) == OfSize(headers, size);
    }
  }

  /** A block is carved: bucket j stays optimal unless the header makes it one of its blocks while others are free. */
  lemma CarveKeepsOptimalAt(sizes: seq<nat>, s: Heap, log: Log, s': Heap, log': Log, size: nat, j: nat)
    requires |log.peak| == |sizes| && j < |sizes| && OptimalAt(sizes, s, log, j) && Sound(sizes, s', log')
    requires log'.peak == log.peak && log'.free == log.free
    requires s.next !in s.headers && s'.headers == s.headers[s.next := Header(size, 0)]
    ensures OptimalAt(sizes, s', Watched(sizes, s', log'), j) <==> size != sizes[j] || log.free[j] == []
  {
    SizesAfterCarve(s.headers, s.next, Header(size, 0), sizes[j]);
    OptimalStep(sizes, s, log, s', log', j, if size == sizes[j] then 1 else 0);
  }

  ghost predicate FreeOfSize(sizes: seq<nat>, free: seq<seq<nat>>, size: nat) {
    exists j :: 0 <= j < |sizes| == |free| && sizes[j] == size && free[j] != []
  }

  lemma CarveKeepsOptimal(sizes: seq<nat>, s: Heap, log: Log, s': Heap, log': Log, size: nat)
    requires Optimal(sizes, s, log) && Sound(sizes, s', log') && log'.peak == log.peak && log'.free == log.free
    requires s.next !in s.headers && s'.headers == s.headers[s.next := Header(size, 0)]
    ensures Optimal(sizes, s', Watched(sizes, s', log')) <==> !FreeOfSize(sizes, log.free, size)
  {
    forall j | 0 <= j < |sizes|
      ensures OptimalAt(sizes, s', Watched(sizes, s', log'), j) <==> size != sizes[j] || log.free[j] == []
    {
      assert OptimalAt(sizes, s, log, j);
      CarveKeepsOptimalAt(sizes, s, log, s', log', size, j);
    }
  }

  // ---------------------------------------------------------------- whole operations

  /** Block a was given out for `size` bytes; all other blocks keep their place and their size. */
  ghost predicate Grants(s: Heap, log: Log, s': Heap, log': Log, a: nat, size: nat) {
    && a % ALIGN == 0 && a > 0 && a !in log.live && log'.live == log.live[a := size] && log'.lost == log.lost
    && a in s'.headers && forall b :: b in s.headers ==> b in s'.headers && s'.headers[b].size == s.headers[b].size
  }

  predicate Fits(s: Heap, size: nat) {
    Extent(size) > 0 && s.next + Extent(size) <= s.limit - s.reserve
  }

  /** A size that is computed modulo 2^64 and yields a block with no room at all. */
  predicate Overflows(s: Heap, size: nat) {
    size >= SIZE_RANGE - 15 && Fits(s, size)
  }

  /** A new block is carved for the request. */
  predicate Carves(sizes: seq<nat>, s: Heap, size: nat) {
    var i := BucketFor(sizes, size);
    (i < |sizes| && i < |s.lists| ==> s.lists[i] == 0) && Fits(s, Rounded(sizes, size))
  }

  /** The 32-bit size in the header of the new block is that of a bucket which has free blocks. */
  ghost predicate WrapsOntoFree(sizes: seq<nat>, s: Heap, log: Log, size: nat) {
    Carves(sizes, s, size) && FreeOfSize(sizes, log.free, Rounded(sizes, size) % HEADER_RANGE)
  }

  /** What Allocate does: the heap and the log afterwards, and the block, or 0. */
  ghost function Serve(sizes: seq<nat>, s: Heap, log: Log, size: nat): (Heap, Log, nat)
    requires Sound(sizes, s, log) && |log.peak| == |sizes|
  {
    var (i, rounded) := (BucketFor(sizes, size), Rounded(sizes, size));
    if i < |sizes| && s.lists[i] != 0 then
      FirstIsFree(sizes, s, log, i);
      (AfterTake(s, i), Watched(sizes, AfterTake(s, i), LogTake(log, i, size)), s.lists[i])
    else if Fits(s, rounded) then
      (AfterCarve(s, rounded), Watched(sizes, AfterCarve(s, rounded), LogCarve(log, s.next, rounded, size)), s.next)
    else
      (s.(reserve := 0), log, 0)
  }

  /** What Free does with block a. */
  ghost function Release(sizes: seq<nat>, s: Heap, log: Log, a: nat): (Heap, Log)
    requires Sound(sizes, s, log) && |log.peak| == |sizes| && a in log.live
  {
    if s.headers[a].size in sizes then
      var i := IndexOf(sizes, s.headers[a].size);
      (AfterFree(s, i, a), Watched(sizes, AfterFree(s, i, a), LogFree(log, i, a)))
    else (s, Watched(sizes, s, LogLose(log, a)))
  }

  function IndexOf(sizes: seq<nat>, size: nat): (i: nat)
    requires size in sizes
    ensures i < |sizes| && sizes[i] == size
  {
    if sizes[0] == size then 0 else 1 + IndexOf(sizes[1..], size)
  }

  lemma {:induction false} IndexOfIs(sizes: seq<nat>, size: nat, i: nat)
    requires i < |sizes| && sizes[i] == size && size !in sizes[..i]
    ensures size in sizes && IndexOf(sizes, size) == i
  {
    if i > 0 {
      assert sizes[0] == sizes[..i][0];
      assert sizes[1..][..i - 1] == sizes[..i][1..];
      IndexOfIs(sizes[1..], size, i - 1);
    }
  }

  lemma BlockAligned(sizes: seq<nat>, s: Heap, log: Log, a: nat)
    requires Sound(sizes, s, log) && a in s.headers
    ensures a % ALIGN == 0 && a > 0
  {
    var i :| 0 <= i < |log.blocks| && log.blocks[i].addr == a;
    InLayout(log.base, log.blocks, s.next, i);
  }

  lemma FirstIsFree(sizes: seq<nat>, s: Heap, log: Log, i: nat)
    requires Sound(sizes, s, log) && i < |sizes|
    ensures s.lists[i] != 0 ==> s.lists[i] in s.headers && s.lists[i] !in log.live && s.headers[s.lists[i]].size == sizes[i]
    ensures if s.lists[i] == 0 then log.free[i] == [] else log.free[i] != [] && log.free[i][0] == s.lists[i]
  {
    assert ListGood(sizes[i], s.lists[i], log.free[i], s.headers, log.live, log.lost);
    if log.free[i] != [] {
      assert log.free[i][0] in log.free[i];
    }
  }

  lemma {:induction false} BucketForFits(sizes: seq<nat>, size: nat)
    ensures var i := BucketFor(sizes, size); if i < |sizes| then size <= sizes[i] else forall j :: 0 <= j < |sizes| ==> sizes[j] < size
  {
    if sizes != [] && size > sizes[0] {
      BucketForFits(sizes[1..], size);
      assert forall j :: 1 <= j < |sizes| ==> sizes[j] == sizes[1..][j - 1];
    }
  }

  /** Main result. A request keeps the heap sound if and only if its size does not overflow. */
  lemma ServeKeepsSound(sizes: seq<nat>, s: Heap, log: Log, size: nat)
    requires Sound(sizes, s, log) && |log.peak| == |sizes| && size < SIZE_RANGE
    ensures var (s', log', a) := Serve(sizes, s, log, size); Sound(sizes, s', log') <==> !Overflows(s, size)
  {
    hide Headed, Placed, ListGood, Layout;
    var i, rounded := BucketFor(sizes, size), Rounded(sizes, size);
    BucketForFits(sizes, size);
    ExtentEnough(rounded);
    if i < |sizes| && s.lists[i] != 0 {
      TakeKeepsSound(sizes, s, log, i, size);
    } else if Fits(s, rounded) {
      if size < SIZE_RANGE - 15 {
        CarveKeepsSound(sizes, s, log, rounded, size);
      } else {
        OverflowIsUnsound(s, log, size);
      }
    }
  }

  lemma OverflowIsUnsound(s: Heap, log: Log, size: nat)
    requires SIZE_RANGE - 15 <= size < SIZE_RANGE
    ensures var (s', log') := (AfterCarve(s, size), LogCarve(log, s.next, size, size)); !Headed(s'.headers, log'.blocks, log'.live)
  {
    ExtentEnough(size);
    var s', log' := AfterCarve(s, size), LogCarve(log, s.next, size, size);
    assert log'.blocks[|log.blocks|] == Block(s.next, HEADER);
    assert !BlockHeaded(s'.headers, log'.live, log'.blocks[|log.blocks|]);
  }

  /** A block that is given out was not in use before. */
  lemma ServeGrants(sizes: seq<nat>, s: Heap, log: Log, size: nat)
    requires Sound(sizes, s, log) && |log.peak| == |sizes|
    ensures var (s', log', a) := Serve(sizes, s, log, size); a != 0 ==> Grants(s, log, s', log', a, size)
  {
    hide Headed, ListGood, Layout;
    var i := BucketFor(sizes, size);
    if i < |sizes| && s.lists[i] != 0 {
      FirstIsFree(sizes, s, log, i);
      BlockAligned(sizes, s, log, s.lists[i]);
    } else if Fits(s, Rounded(sizes, size)) {
      NextIsFresh(s, log);
    }
  }

  /** What is left of the region at least: the reserve, which is given up only when a request has failed. */
  predicate Reserved(s: Heap) {
    s.next + s.reserve <= s.limit
  }

  /** Extent is the smallest multiple of 16 that has room for the header and the bytes. */
  lemma ExtentIs(size: nat, extent: nat)
    requires size < SIZE_RANGE - 31 && extent % 16 == 0 && 16 + size <= extent < 16 + size + 16
    ensures Extent(size) == extent
  {
    var sum := HEADER + size + ALIGN - 1;
    assert sum % SIZE_RANGE == sum;
    assert sum - extent < 16 && 0 <= sum - extent;
  }

  /**
   Main result. What a request comes to: bucket i, if there is one, is the first that is large enough for it. A
   free block of the bucket is used again. Otherwise a new block ends no later than the reserve begins; if it
   would, the request fails, and that gives up the reserve and changes nothing else.
   */
  lemma ServeIs(sizes: seq<nat>, s: Heap, log: Log, size: nat, i: nat, rounded: nat, extent: nat)
    requires Sound(sizes, s, log) && |log.peak| == |sizes|
    requires i <= |sizes| && (forall j :: 0 <= j < i ==> sizes[j] < size) && (i < |sizes| ==> size <= sizes[i])
    requires rounded == (if i < |sizes| then sizes[i] else size) && rounded < SIZE_RANGE - 31
    requires extent % 16 == 0 && 16 + rounded <= extent < 16 + rounded + 16
    ensures var (s', log', a) := Serve(sizes, s, log, size);
            if i < |sizes| && log.free[i] != [] then
              && a == log.free[i][0] && log'.free == log.free[i := log.free[i][1..]]
              && s'.next == s.next && s'.limit == s.limit && s'.reserve == s.reserve
            else if s.next + extent <= s.limit - s.reserve then
              && a == s.next && s' == s.(next := s.next + extent, headers := s.headers[a := Header(rounded % HEADER_RANGE, 0)])
              && log'.free == log.free
            else
              a == 0 && s' == s.(reserve := 0) && log' == log
  {
    hide Headed, Placed, Layout, ListGood;
    BucketForIs(sizes, size, i);
    ExtentIs(rounded, extent);
    if i < |sizes| {
      FirstIsFree(sizes, s, log, i);
    }
  }

  /** Whatever is requested, the reserve stays free until a request fails. */
  lemma ServeKeepsReserved(sizes: seq<nat>, s: Heap, log: Log, size: nat)
    requires Sound(sizes, s, log) && |log.peak| == |sizes|
    ensures var (s', log', a) := Serve(sizes, s, log, size);
            && s'.limit == s.limit && (Reserved(s) ==> Reserved(s')) && s.next <= s'.next
            && (if a == 0 then s'.reserve == 0 && s'.next == s.next else s'.reserve == s.reserve)
            && (s'.next != s.next ==> a == s.next && s'.next <= s.limit - s.reserve)
  {
    hide Headed, Placed, Layout, ListGood;
    var i := BucketFor(sizes, size);
    if i < |sizes| {
      FirstIsFree(sizes, s, log, i);
    }
    NextIsFresh(s, log) by {
      assert Region(s, log) && Headed(s.headers, log.blocks, log.live);
    }
  }

  lemma ReleaseKeepsReserved(sizes: seq<nat>, s: Heap, log: Log, a: nat)
    requires Sound(sizes, s, log) && |log.peak| == |sizes| && a in log.live
    ensures var (s', log') := Release(sizes, s, log, a); s'.next == s.next && s'.limit == s.limit && s'.reserve == s.reserve
    ensures Release(sizes, s, log, a).1.live == log.live - {a}
  {
  }

  /**
   Main result. A request keeps the number of blocks of every bucket at the most that were in use at once, if
   and only if its size does not wrap in the header onto a bucket that has free blocks; below 2^32 it never does.
   */
  lemma ServeKeepsOptimal(sizes: seq<nat>, s: Heap, log: Log, size: nat)
    requires Sound(sizes, s, log) && Optimal(sizes, s, log) && size < SIZE_RANGE && !Overflows(s, size)
    ensures var (s', log', a) := Serve(sizes, s, log, size); Optimal(sizes, s', log') <==> !WrapsOntoFree(sizes, s, log, size)
    ensures size < HEADER_RANGE ==> !WrapsOntoFree(sizes, s, log, size)
  {
    if size < HEADER_RANGE {
      SmallSizeFits(sizes, s, log, size);
    }
    var i, rounded := BucketFor(sizes, size), Rounded(sizes, size);
    BucketForFits(sizes, size);
    if i < |sizes| && s.lists[i] != 0 {
      TakeKeepsOptimal(sizes, s, log, i, size);
    } else if Fits(s, rounded) {
      NextIsFresh(s, log);
      ExtentEnough(rounded);
      CarveKeepsSound(sizes, s, log, rounded, size);
      CarveKeepsOptimal(sizes, s, log, AfterCarve(s, rounded), LogCarve(log, s.next, rounded, size), rounded % HEADER_RANGE);
    } else {
      forall j | 0 <= j < |sizes| ensures OptimalAt(sizes, s.(reserve := 0), log, j) {
        assert OptimalAt(sizes, s, log, j);
      }
    }
  }

  lemma SmallSizeFits(sizes: seq<nat>, s: Heap, log: Log, size: nat)
    requires Sound(sizes, s, log) && size < HEADER_RANGE
    ensures !WrapsOntoFree(sizes, s, log, size)
  {
    if Carves(sizes, s, size) {
      forall j | 0 <= j < |sizes| && sizes[j] == Rounded(sizes, size) % HEADER_RANGE ensures log.free[j] == [] {
        NoneFree(sizes, s, log, size, j);
      }
    }
  }

  /** For a size below 2^32 a block is carved only when its bucket has no free block. */
  lemma NoneFree(sizes: seq<nat>, s: Heap, log: Log, size: nat, j: nat)
    requires Sound(sizes, s, log) && size < HEADER_RANGE && Carves(sizes, s, size)
    requires j < |sizes| && sizes[j] == Rounded(sizes, size) % HEADER_RANGE
    ensures log.free[j] == []
  {
    BucketForFits(sizes, size);
    RoundedIsSmall(sizes, size);
    SameBucket(sizes, BucketFor(sizes, size), j);
    FirstIsFree(sizes, s, log, j);
  }

  lemma RoundedIsSmall(sizes: seq<nat>, size: nat)
    requires Buckets(sizes) && size < HEADER_RANGE
    ensures Rounded(sizes, size) % HEADER_RANGE == Rounded(sizes, size)
    ensures var i := BucketFor(sizes, size); i < |sizes| ==> Rounded(sizes, size) == sizes[i]
  {
    BucketForFits(sizes, size);
  }

  lemma ReleaseKeepsSound(sizes: seq<nat>, s: Heap, log: Log, a: nat)
    requires Sound(sizes, s, log) && |log.peak| == |sizes| && a in log.live
    ensures var (s', log') := Release(sizes, s, log, a); Sound(sizes, s', log')
  {
    BlockAligned(sizes, s, log, a);
    if s.headers[a].size in sizes {
      FreeKeepsSound(sizes, s, log, IndexOf(sizes, s.headers[a].size), a);
    } else {
      LoseKeepsSound(sizes, s, log, a);
    }
  }

  lemma ReleaseKeepsOptimal(sizes: seq<nat>, s: Heap, log: Log, a: nat)
    requires Sound(sizes, s, log) && Optimal(sizes, s, log) && a in log.live
    ensures var (s', log') := Release(sizes, s, log, a); Optimal(sizes, s', log')
  {
    BlockAligned(sizes, s, log, a);
    if s.headers[a].size in sizes {
      FreeKeepsOptimal(sizes, s, log, IndexOf(sizes, s.headers[a].size), a);
    } else {
      LoseKeepsOptimal(sizes, s, log, a);
    }
  }

  /** Block a, which is large enough already, now serves a request for `size` bytes. */
  ghost function Resized(log: Log, a: nat, size: nat): Log {
    log.(live := log.live[a := size])
  }

  lemma ResizeKeepsSound(sizes: seq<nat>, s: Heap, log: Log, a: nat, size: nat)
    requires Sound(sizes, s, log) && a in log.live && a in s.headers && size <= s.headers[a].size
    ensures Sound(sizes, s, Resized(log, a, size))
    ensures Optimal(sizes, s, log) ==> Optimal(sizes, s, Resized(log, a, size))
  {
    var log' := Resized(log, a, size);
    assert s.headers[a := s.headers[a]] == s.headers;
    HeadedKept(s.headers, log.blocks, log.live, a, s.headers[a], log'.live);
    forall j | 0 <= j < |sizes| ensures ListGood(sizes[j], s.lists[j], log.free[j], s.headers, log'.live, log.lost) {
      assert ListGood(sizes[j], s.lists[j], log.free[j], s.headers, log.live, log.lost);
    }
    if Optimal(sizes, s, log) {
      forall j | 0 <= j < |sizes| ensures OptimalAt(sizes, s, log', j) {
        assert OptimalAt(sizes, s, log, j);
      }
    }
  }

  /** The header of a block knows all the bytes that were asked for, if and only if these were fewer than 2^32. */
  lemma HeaderCoversRequest(sizes: seq<nat>, s: Heap, log: Log, a: nat)
    requires Sound(sizes, s, log) && a in log.live
    ensures a in s.headers && (log.live[a] <= s.headers[a].size <==> log.live[a] < HEADER_RANGE)
  {
    var i := BlockInUse(sizes, s, log, a);
    assert BlockHeaded(s.headers, log.live, log.blocks[i]);
  }

  /** All of this about one request. */
  lemma ServeKeeps(sizes: seq<nat>, s: Heap, log: Log, size: nat)
    requires Sound(sizes, s, log) && |log.peak| == |sizes| && size < SIZE_RANGE
    ensures var (s', log', a) := Serve(sizes, s, log, size);
            && |log'.peak| == |sizes| && (Sound(sizes, s', log') <==> !Overflows(s, size))
            && (Optimal(sizes, s, log) && !Overflows(s, size) ==>
                  (Optimal(sizes, s', log') <==> !WrapsOntoFree(sizes, s, log, size)))
  {
    ServeKeepsSound(sizes, s, log, size);
    if Optimal(sizes, s, log) && !Overflows(s, size) {
      ServeKeepsOptimal(sizes, s, log, size);
    }
  }

  lemma ReleaseKeeps(sizes: seq<nat>, s: Heap, log: Log, a: nat)
    requires Sound(sizes, s, log) && |log.peak| == |sizes| && a in log.live
    ensures var (s', log') := Release(sizes, s, log, a);
            && |log'.peak| == |sizes| && Sound(sizes, s', log') && log'.blocks == log.blocks
            && (Optimal(sizes, s, log) ==> Optimal(sizes, s', log'))
  {
    ReleaseKeepsSound(sizes, s, log, a);
    if Optimal(sizes, s, log) {
      ReleaseKeepsOptimal(sizes, s, log, a);
    }
  }

  // ---------------------------------------------------------------- the bytes of the blocks

  /** Every block has its bytes. */
  ghost predicate Filled(bytes: map<nat, seq<Byte>>, blocks: seq<Block>) {
    forall i :: 0 <= i < |blocks| ==> BlockFilled(bytes, blocks[i])
  }

  predicate BlockFilled(bytes: map<nat, seq<Byte>>, b: Block) {
    b.addr in bytes && |bytes[b.addr]| == b.Capacity()
  }

  lemma FillOneMore(bytes: map<nat, seq<Byte>>, blocks: seq<Block>, b: Block, data: seq<Byte>)
    requires Filled(bytes, blocks) && |data| == b.Capacity() && forall i :: 0 <= i < |blocks| ==> blocks[i].addr != b.addr
    ensures Filled(bytes[b.addr := data], blocks + [b])
  {
    forall i | 0 <= i < |blocks| + 1 ensures BlockFilled(bytes[b.addr := data], (blocks + [b])[i]) {
      assert i < |blocks| ==> BlockFilled(bytes, blocks[i]);
    }
  }

  lemma NextIsNew(s: Heap, log: Log)
    requires Region(s, log)
    ensures forall i :: 0 <= i < |log.blocks| ==> log.blocks[i].addr != s.next
  {
    forall i | 0 <= i < |log.blocks| ensures log.blocks[i].addr != s.next {
      InLayout(log.base, log.blocks, s.next, i);
    }
  }

  /** A block in use has room for its request and for what its header says. */
  lemma HasRoom(sizes: seq<nat>, s: Heap, log: Log, bytes: map<nat, seq<Byte>>, a: nat)
    requires Sound(sizes, s, log) && Filled(bytes, log.blocks) && a in log.live
    ensures a in s.headers && a in bytes && log.live[a] <= |bytes[a]| && s.headers[a].size <= |bytes[a]|
  {
    var i := BlockInUse(sizes, s, log, a);
    assert BlockHeaded(s.headers, log.live, log.blocks[i]) && BlockFilled(bytes, log.blocks[i]);
  }

  // ---------------------------------------------------------------- the allocator

  class Allocator {
    const sizes: seq<nat>
    var heap: Heap
    var bytes: map<nat, seq<Byte>>  // the data of every block
    ghost var log: Log

    ghost predicate Valid()
      reads this
    {
      Sound(sizes, heap, log) && |log.peak| == |sizes| && Filled(bytes, log.blocks)
    }

    constructor (sizes: seq<nat>)
      requires Buckets(sizes)
      ensures this.sizes == sizes && heap == Heap(0, 0, 0, seq(|sizes|, _ => 0), map[])
    {
      this.sizes := sizes;
      heap := Heap(0, 0, 0, seq(|sizes|, _ => 0), map[]);
      bytes := map[];
    }

    method Setup(base: nat, size: nat, reserve: nat)
      requires Buckets(sizes) && heap == Heap(0, 0, 0, seq(|sizes|, _ => 0), map[])
      requires 0 < base && base % ALIGN == 0 && base + size < SIZE_RANGE && reserve <= base + size
      modifies this
      ensures Valid() && Optimal(sizes, heap, log)
      ensures heap == old(heap).(next := base, limit := base + size, reserve := reserve) && (reserve <= size ==> Reserved(heap))
      ensures log == Log(base, [], seq(|sizes|, _ => []), map[], {}, seq(|sizes|, _ => 0))
    {
      heap := heap.(next := base);
      heap := heap.(limit := base + size);
      heap := heap.(reserve := reserve);
      log := Log(base, [], seq(|sizes|, _ => []), map[], {}, seq(|sizes|, _ => 0));
      assert forall i :: 0 <= i < |sizes| ==> ListGood(sizes[i], heap.lists[i], log.free[i], heap.headers, log.live, log.lost);
      assert forall i :: 0 <= i < |sizes| ==> OfSize(heap.headers, sizes[i]) == {};
      assert forall i :: 0 <= i < |sizes| ==> OptimalAt(sizes, heap, log, i);
    }

    /** The first bucket that is large enough. */
    method FindBucket(size: nat) returns (i: nat)
      ensures i == BucketFor(sizes, size)
    {
      i := 0;
      while i < |sizes|
        invariant i <= |sizes| && forall j :: 0 <= j < i ==> size > sizes[j]
      {
        if size <= sizes[i] {
          break;
        }
        i := i + 1;
      }
      BucketForIs(sizes, size, i);
    }

    /** Whatever the memory of a new block holds. */
    method Uninitialized(n: nat) returns (data: seq<Byte>)
      ensures |data| == n
    {
      data := seq(n, _ => 0);
    }

    method Take(i: nat) returns (block: nat)
      requires i < |heap.lists| && heap.lists[i] in heap.headers
      modifies `heap
      ensures block == old(heap).lists[i] && heap == AfterTake(old(heap), i)
    {
      block := heap.lists[i];
      heap := heap.(lists := heap.lists[i := heap.headers[block].next]);
      heap := heap.(headers := heap.headers[block := heap.headers[block].(next := 0)]);
    }

    method Carve(size: nat) returns (block: nat)
      requires size < SIZE_RANGE && heap.next > 0
      modifies `heap, `bytes
      ensures block == if Fits(old(heap), size) then old(heap).next else 0
      ensures heap == if Fits(old(heap), size) then AfterCarve(old(heap), size) else old(heap).(reserve := 0)
      ensures if block == 0 then bytes == old(bytes)
              else block in bytes && bytes == old(bytes)[block := bytes[block]] && |bytes[block]| == Extent(size) - HEADER
    {
      block := heap.next;
      var nextBlock := heap.next + Extent(size);
      if nextBlock <= heap.next || nextBlock > heap.limit - heap.reserve {
        if heap.reserve == 0 {
          return 0;
        }
        heap := heap.(reserve := 0);
        return 0;
      }
      ExtentEnough(size);
      heap := heap.(next := nextBlock);
      heap := heap.(headers := heap.headers[block := Header(size % HEADER_RANGE, 0)]);
      var data := Uninitialized(Extent(size) - HEADER);
      bytes := bytes[block := data];
    }

    /** Serves a request, and leaves the bytes of all other blocks alone. */
    method Allocate(size: nat) returns (p: nat, block: nat)
      requires size < SIZE_RANGE && (heap.next == 0 || Valid())
      modifies this
      ensures old(heap).next == 0 ==> p == block == 0 && heap == old(heap) && log == old(log) && bytes == old(bytes)
      ensures old(heap).next != 0 ==> (heap, log, block) == Serve(sizes, old(heap), old(log), size)
      ensures p == if block == 0 then 0 else block + HEADER
      ensures heap.limit == old(heap).limit && (old(Reserved(heap)) ==> Reserved(heap))
      ensures block == 0 ==> heap == old(heap).(reserve := heap.reserve) && (old(heap).next != 0 ==> heap.reserve == 0)
      ensures heap.next != old(heap).next ==> block == old(heap).next && heap.next <= heap.limit - old(heap).reserve == heap.limit - heap.reserve
      ensures bytes == old(bytes) || (block in bytes && block !in old(heap).headers && bytes == old(bytes)[block := bytes[block]])
      ensures if block != 0 then old(heap).next != 0 && Grants(old(heap), old(log), heap, log, block, size) else log == old(log)
      ensures old(heap).next != 0 ==> heap.next != 0 && Filled(bytes, log.blocks) && (Valid() <==> !Overflows(old(heap), size))
      ensures old(heap).next != 0 && old(Optimal(sizes, heap, log)) && Valid() ==>
                (Optimal(sizes, heap, log) <==> !WrapsOntoFree(sizes, old(heap), old(log), size))
    {
      hide Optimal, Layout, Headed, Placed, ListGood, WrapsOntoFree;
      block := 0;
      if heap.next == 0 {
        return 0, 0;
      }
      ServeKeeps(sizes, heap, log, size);
      ServeGrants(sizes, heap, log, size);
      ServeKeepsReserved(sizes, heap, log, size);
      var i := FindBucket(size);
      var rounded := if i < |sizes| then sizes[i] else size;
      ghost var r := Serve(sizes, heap, log, size);
      ghost var blocks := log.blocks;
      NextIsFresh(heap, log);
      var header;
      if i < |sizes| && heap.lists[i] != 0 {
        FirstIsFree(sizes, heap, log, i);
        header := Take(i);
      } else {
        NextIsNew(heap, log);
        header := Carve(rounded);
        if header != 0 {
          FillOneMore(old(bytes), blocks, Block(header, Extent(rounded)), bytes[header]);
        }
      }
      log := r.1;
      block := header;
      p := if header == 0 then 0 else header + HEADER;
    }

    /** Gives block a, whose data is at p, back to the free list of its size, if there is one. */
    method Free(p: nat, ghost a: nat)
      requires p != 0 ==> Sound(sizes, heap, log) && |log.peak| == |sizes| && p == a + HEADER && a in log.live
      modifies `heap, `log
      ensures if p == 0 then heap == old(heap) && log == old(log)
              else (heap, log) == Release(sizes, old(heap), old(log), a) && log.blocks == old(log).blocks
      ensures heap.next == old(heap).next && heap.limit == old(heap).limit && heap.reserve == old(heap).reserve
      ensures p != 0 ==> log.live == old(log).live - {a}
      ensures old(Valid()) ==> Valid() && (old(Optimal(sizes, heap, log)) ==> Optimal(sizes, heap, log))
    {
      hide Sound, Optimal, Release;
      if p == 0 {
        return;
      }
      ReleaseKeepsReserved(sizes, heap, log, a);
      FreeBlock(p - HEADER);
    }

    method FreeBlock(block: nat)
      requires Sound(sizes, heap, log) && |log.peak| == |sizes| && block in log.live
      modifies `heap, `log
      ensures (heap, log) == Release(sizes, old(heap), old(log), block) && log.blocks == old(log).blocks
      ensures Sound(sizes, heap, log) && |log.peak| == |sizes| && (old(Optimal(sizes, heap, log)) ==> Optimal(sizes, heap, log))
    {
      assert block in heap.headers;
      Unuse(block);
      log := Release(sizes, old(heap), old(log), block).1;
      ReleaseKeeps(sizes, old(heap), old(log), block);
    }

    /** Puts a block on the free list of its size, if there is one. */
    method Unuse(block: nat)
      requires |heap.lists| == |sizes| && block in heap.headers
      modifies `heap
      ensures var size := old(heap).headers[block].size;
              heap == if size in sizes then AfterFree(old(heap), IndexOf(sizes, size), block) else old(heap)
    {
      var size := heap.headers[block].size;
      var i := 0;
      while i < |sizes|
        invariant i <= |sizes| && size !in sizes[..i]
      {
        if size == sizes[i] {
          IndexOfIs(sizes, size, i);
          break;
        }
        i := i + 1;
      }
      if i < |sizes| {
        heap := heap.(headers := heap.headers[block := heap.headers[block].(next := heap.lists[i])]);
        heap := heap.(lists := heap.lists[i := block]);
      }
    }

    method Copy(from: nat, to: nat, n: nat, ghost blocks: seq<Block>)
      requires Filled(bytes, blocks) && from in bytes && to in bytes && n <= |bytes[from]| && n <= |bytes[to]|
      modifies `bytes
      ensures Copied(old(bytes), bytes, from, to, n) && OthersKept(old(bytes), bytes, to) && Filled(bytes, blocks)
    {
      bytes := bytes[to := bytes[from][..n] + bytes[to][n..]];
      forall i | 0 <= i < |blocks| ensures BlockFilled(bytes, blocks[i]) {
        assert BlockFilled(old(bytes), blocks[i]);
      }
    }

    /**
     Resizes block a, whose data is at p. A block that grows moves to another one, which gets all bytes that
     the header of the old block knows of, and so all that were asked for if these were fewer than 2^32; the
     old block is freed.
     */
    method ReAllocate(p: nat, size: nat, ghost a: nat) returns (q: nat, block: nat)
      requires size < SIZE_RANGE && (heap.next == 0 || Valid())
      requires p != 0 ==> heap.next != 0 && p == a + HEADER && a in log.live && !Overflows(heap, size)
      modifies this
      ensures OthersKept(old(bytes), bytes, block) && heap.limit == old(heap).limit && (old(Reserved(heap)) ==> Reserved(heap))
      ensures p == 0 ==> q == if block == 0 then 0 else block + HEADER
      ensures p == 0 ==> if old(heap).next == 0 then block == 0 && heap == old(heap) && log == old(log) && bytes == old(bytes)
                         else (heap, log, block) == Serve(sizes, old(heap), old(log), size)
      ensures p != 0 && size == 0 ==> q == 0 && (heap, log) == Release(sizes, old(heap), old(log), a) && bytes == old(bytes)
      ensures p != 0 && 0 < size <= SizeOf(old(heap), a) ==>
                q == p && heap == old(heap) && log == Resized(old(log), a, size) && bytes == old(bytes)
      ensures p != 0 && size > SizeOf(old(heap), a) ==>
                && (heap, log, block) == Regrow(sizes, old(heap), old(log), a, size)
                && q == (if block == 0 then 0 else block + HEADER)
                && (block != 0 ==> Moves(old(bytes), bytes, old(heap), old(log), a, block))
      ensures old(heap).next != 0 ==>
                log.live == if p == 0 then if block == 0 then old(log).live else old(log).live[block := size]
                            else if size == 0 then old(log).live - {a}
                            else if size <= SizeOf(old(heap), a) then old(log).live[a := size]
                            else if block == 0 then old(log).live else old(log).live[block := size] - {a}
      ensures old(heap).next != 0 ==> Filled(bytes, log.blocks) && (Valid() <==> !Overflows(old(heap), size))
      ensures old(heap).next != 0 && Valid() && size < HEADER_RANGE && old(Optimal(sizes, heap, log)) ==> Optimal(sizes, heap, log)
    {
      hide Optimal, Layout, Headed, Placed, ListGood;
      block := 0;
      if p == 0 {
        if heap.next != 0 && size < HEADER_RANGE {
          SmallSizeFits(sizes, heap, log, size);
        }
        q, block := Allocate(size);
        return;
      }
      if size == 0 {
        Free(p, a);
        return 0, 0;
      }
      HeaderCoversRequest(sizes, heap, log, a);
      if heap.headers[p - HEADER].size >= size {
        ResizeKeepsSound(sizes, heap, log, a, size);
        log := Resized(log, a, size);
        return p, p - HEADER;
      }
      q, block := Grow(p - HEADER, size);
    }

    method Grow(a: nat, size: nat) returns (q: nat, block: nat)
      requires Valid() && heap.next != 0 && a in log.live && SizeOf(heap, a) < size < SIZE_RANGE && !Overflows(heap, size)
      modifies this
      ensures (heap, log, block) == Regrow(sizes, old(heap), old(log), a, size)
      ensures q == if block == 0 then 0 else block + HEADER
      ensures OthersKept(old(bytes), bytes, block) && heap.limit == old(heap).limit && (old(Reserved(heap)) ==> Reserved(heap))
      ensures block != 0 ==> Moves(old(bytes), bytes, old(heap), old(log), a, block)
      ensures log.live == if block == 0 then old(log).live else old(log).live[block := size] - {a}
      ensures Valid() && (old(Optimal(sizes, heap, log)) && size < HEADER_RANGE ==> Optimal(sizes, heap, log))
    {
      hide Sound, Optimal;
      ServeForGrowth(sizes, heap, log, a, size);
      HasRoom(sizes, heap, log, bytes, a);
      HeaderCoversRequest(sizes, heap, log, a);
      if size < HEADER_RANGE {
        SmallSizeFits(sizes, heap, log, size);
      }
      var h := heap.headers[a].size;
      q, block := Allocate(size);
      if q == 0 {
        return;
      }
      assert bytes[a] == old(bytes)[a];
      MoveTo(a, block, h);
      CopiedLess(old(bytes), bytes, a, block, h, old(log).live[a]);
    }

    /** Copies the first h bytes of block a to another one and frees block a. */
    method MoveTo(a: nat, block: nat, h: nat)
      requires Valid() && a in log.live && block in log.live && a in bytes && h <= |bytes[a]| && h <= log.live[block]
      modifies this
      ensures Valid() && (heap, log) == Release(sizes, old(heap), old(log), a) && Copied(old(bytes), bytes, a, block, h)
      ensures OthersKept(old(bytes), bytes, block)
      ensures heap.next == old(heap).next && heap.limit == old(heap).limit && heap.reserve == old(heap).reserve
      ensures log.live == old(log).live - {a}
      ensures old(Optimal(sizes, heap, log)) ==> Optimal(sizes, heap, log)
    {
      HasRoom(sizes, heap, log, bytes, block);
      BlockAligned(sizes, heap, log, a) by {
        HasRoom(sizes, heap, log, bytes, a);
      }
      Copy(a, block, h, log.blocks);
      Free(a + HEADER, a);
    }
  }

  lemma CopiedLess(before: map<nat, seq<Byte>>, after: map<nat, seq<Byte>>, from: nat, to: nat, h: nat, n: nat)
    requires Copied(before, after, from, to, h)
    ensures n <= h ==> Copied(before, after, from, to, n)
  {
    if n <= h {
      assert after[to][..n] == after[to][..h][..n] == before[from][..h][..n] == before[from][..n];
    }
  }

  /** Block `to` begins with all bytes that the header of block a knew of, and with all that were asked for, if below 2^32. */
  predicate Moves(before: map<nat, seq<Byte>>, after: map<nat, seq<Byte>>, s: Heap, log: Log, a: nat, to: nat) {
    && Copied(before, after, a, to, SizeOf(s, a))
    && (a in log.live && log.live[a] < HEADER_RANGE ==> Copied(before, after, a, to, log.live[a]))
  }

  /** The first n bytes of a block are those that another block had. */
  predicate Copied(before: map<nat, seq<Byte>>, after: map<nat, seq<Byte>>, from: nat, to: nat, n: nat) {
    from in before && to in after && n <= |before[from]| && n <= |after[to]| && after[to][..n] == before[from][..n]
  }

  /** The bytes of all blocks but one are as they were. */
  predicate OthersKept(before: map<nat, seq<Byte>>, after: map<nat, seq<Byte>>, block: nat) {
    forall x :: x in before && x != block ==> x in after && after[x] == before[x]
  }

  function SizeOf(s: Heap, a: nat): nat {
    if a in s.headers then s.headers[a].size else 0
  }

  /** What ReAllocate does with a block that must grow. */
  ghost function Regrow(sizes: seq<nat>, s: Heap, log: Log, a: nat, size: nat): (Heap, Log, nat)
    requires Sound(sizes, s, log) && |log.peak| == |sizes| && size < SIZE_RANGE && !Overflows(s, size) && a in log.live
  {
    var (s1, log1, b) := Serve(sizes, s, log, size);
    ServeForGrowth(sizes, s, log, a, size);
    if b == 0 then (s1, log1, 0)
    else var (s2, log2) := Release(sizes, s1, log1, a); (s2, log2, b)
  }

  lemma ServeForGrowth(sizes: seq<nat>, s: Heap, log: Log, a: nat, size: nat)
    requires Sound(sizes, s, log) && |log.peak| == |sizes| && size < SIZE_RANGE && !Overflows(s, size) && a in log.live
    ensures a in s.headers
    ensures var (s1, log1, b) := Serve(sizes, s, log, size);
            Sound(sizes, s1, log1) && |log1.peak| == |sizes| && a in log1.live && (b != 0 ==> b != a && b in log1.live && log1.live[b] == size)
  {
    ServeKeepsSound(sizes, s, log, size);
    ServeGrants(sizes, s, log, size);
  }

  /** A block for 2^32 bytes has size 0 in its header, so when it grows none of its bytes are kept. */
  lemma LargeBlockKeepsNothing()
    ensures var s := Heap(ALIGN, 2 * HEADER_RANGE, 0, [], map[]);
            var log := Log(ALIGN, [], [], map[], {}, []);
            && Sound([], s, log)
            && var (s', log', a) := Serve([], s, log, HEADER_RANGE);
               a != 0 && Sound([], s', log') && log'.live[a] == HEADER_RANGE && SizeOf(s', a) == 0
  {
    var s, log := Heap(ALIGN, 2 * HEADER_RANGE, 0, [], map[]), Log(ALIGN, [], [], map[], {}, []);
    ExtentEnough(HEADER_RANGE);
    ServeKeepsSound([], s, log, HEADER_RANGE);
  }

  /** A block for 2^32 + 64 bytes counts as one of 64 bytes, although a block of that bucket was free. */
  lemma LargeBlockJoinsBucket()
    ensures var s, log := Heap(ALIGN, 2 * HEADER_RANGE, 0, [0], map[]), Log(ALIGN, [], [[]], map[], {}, [0]);
            && Sound([64], s, log) && Optimal([64], s, log)
            && var (s1, log1, a) := Serve([64], s, log, 64);
               && Sound([64], s1, log1) && |log1.peak| == 1 && a in log1.live
               && var (s2, log2) := Release([64], s1, log1, a);
                  && Sound([64], s2, log2) && |log2.peak| == 1 && Optimal([64], s2, log2)
                  && var (s3, log3, b) := Serve([64], s2, log2, HEADER_RANGE + 64);
                     Sound([64], s3, log3) && !Optimal([64], s3, log3)
  {
    hide Sound, Optimal;
    var s, log := Heap(ALIGN, 2 * HEADER_RANGE, 0, [0], map[]), Log(ALIGN, [], [[]], map[], {}, [0]);
    EmptyHeap();
    ServeKeeps([64], s, log, 64);
    var (s1, log1, a) := Serve([64], s, log, 64);
    assert a == ALIGN && s1.lists == [0] && s1.headers[a].size == 64 && a in log1.live;
    ReleaseKeeps([64], s1, log1, a);
    var (s2, log2) := Release([64], s1, log1, a);
    assert 64 in [64] && log1.free == [[]] && IndexOf([64], 64) == 0;
    assert log2.free[0] == [a] && s2.lists[0] == a;
    ServeKeeps([64], s2, log2, HEADER_RANGE + 64);
    assert WrapsOntoFree([64], s2, log2, HEADER_RANGE + 64);
  }

  lemma EmptyHeap()
    ensures var s, log := Heap(ALIGN, 2 * HEADER_RANGE, 0, [0], map[]), Log(ALIGN, [], [[]], map[], {}, [0]);
            Sound([64], s, log) && Optimal([64], s, log)
  {
    assert OfSize(map[], 64) == {};
  }

  /** With 64 bytes before the reserve, a request for 64 bytes fails; the next one is served out of what was the reserve. */
  lemma ReserveGivenUp()
    ensures var s, log := Heap(ALIGN, ALIGN + 64 + 0x40000, 0x40000, [0], map[]), Log(ALIGN, [], [[]], map[], {}, [0]);
            && Sound([64], s, log)
            && var (s1, log1, a) := Serve([64], s, log, 64);
               && a == 0 && s1 == s.(reserve := 0) && Sound([64], s1, log1) && |log1.peak| == 1
               && Serve([64], s1, log1, 64).2 == ALIGN
  {
    var s, log := Heap(ALIGN, ALIGN + 64 + 0x40000, 0x40000, [0], map[]), Log(ALIGN, [], [[]], map[], {}, [0]);
    ServeIs([64], s, log, 64, 0, 64, 80);
    ServeIs([64], s.(reserve := 0), log, 64, 0, 64, 80);
  }

  /** The heap with 16 bytes left serves a request for 2^64 - 1 bytes with a block that has no room, and is broken. */
  lemma WrappedSizeBreaksHeap()
    ensures var s, log := Heap(ALIGN, 2 * ALIGN, 0, [], map[]), Log(ALIGN, [], [], map[], {}, []);
            && Sound([], s, log)
            && var (s', log', a) := Serve([], s, log, SIZE_RANGE - 1);
               a == ALIGN && log'.live[a] == SIZE_RANGE - 1 && s'.next == a + HEADER && !Sound([], s', log')
  {
    var s, log := Heap(ALIGN, 2 * ALIGN, 0, [], map[]), Log(ALIGN, [], [], map[], {}, []);
    ServeKeepsSound([], s, log, SIZE_RANGE - 1);
  }
}
