/**
 The five transmit rings of the GENET Ethernet driver: one pool of 256 control blocks, 16-bit wrapping
 indices, wrapping pointers and a free count, shared by the sender, the hardware and the reclaim interrupt.

 The history of a ring (ghost) counts without bound; every wrapping field is tied to it.
 */
module GenetTx {
  import opened Modular

  const TOTAL_DESC: nat := 256
  const TX_QUEUES: nat := 4
  const TX_BDS_PER_Q: nat := 32
  const Q16_TX_BD_CNT: nat := 128
  const GENET_DESC_INDEX: nat := 16
  const TX_RING_INDEX: nat := 1
  const INDEX_RANGE: nat := 0x10000
  const ETH_ZLEN: nat := 60
  const ENET_MAX_MTU_SIZE: nat := 1536

  type Bytes = seq<bv8>

  datatype Ring = Ring(
    size: nat,
    cleanPtr: nat,
    cIndex: nat,
    freeBds: nat,
    writePtr: nat,
    cbPtr: nat,
    endPtr: nat,
    prodIndex: nat)

  /** A DMA descriptor: the bus address of the buffer and the length to send. */
  datatype Descriptor = Descriptor(address: nat, length: nat)

  /** One frame that was queued: its buffer and the bytes that must go out. */
  datatype Queued = Queued(buffer: nat, frame: Bytes)

  /** Everything that ever happened to a ring. */
  datatype History = History(sent: seq<Queued>, consumed: nat, reclaimed: nat)

  predicate Used(index: int) {
    0 <= index < TX_QUEUES || index == GENET_DESC_INDEX
  }

  function Start(index: nat): nat
    requires Used(index)
  {
    if index == GENET_DESC_INDEX then TX_QUEUES * TX_BDS_PER_Q else index * TX_BDS_PER_Q
  }

  function Size(index: nat): nat
    requires Used(index)
  {
    if index == GENET_DESC_INDEX then Q16_TX_BD_CNT else TX_BDS_PER_Q
  }

  function Padded(frame: Bytes): Bytes {
    if |frame| < ETH_ZLEN then frame + seq(ETH_ZLEN - |frame|, _ => 0) else frame
  }

  /** A frame goes out as it is, followed by as many zeros as it is short of 60 bytes. */
  lemma PaddedIs(frame: Bytes)
    ensures |Padded(frame)| == (if |frame| < 60 then 60 else |frame|)
    ensures forall i :: 0 <= i < |Padded(frame)| ==> Padded(frame)[i] == if i < |frame| then frame[i] else 0
  {
  }

  // ---------------------------------------------------------------- one ring and its history

  /** The control block of frame k of a ring. */
  function Slot(index: nat, k: nat): nat
    requires Used(index)
    ensures Start(index) <= Slot(index, k) < Start(index) + Size(index) <= TOTAL_DESC
  {
    Start(index) + Position(k, Size(index))
  }

  predicate InFlight(h: History, k: int) {
    h.reclaimed <= k < |h.sent|
  }

  predicate Plausible(index: nat, h: History)
    requires Used(index)
  {
    h.reclaimed <= h.consumed <= |h.sent| < h.reclaimed + Size(index)
  }

  /** The fields of the ring, `pending` reclaimed blocks not yet being added to the counters. */
  predicate Tracks(index: nat, r: Ring, h: History, pending: nat)
    requires Used(index)
  {
    && Plausible(index, h) && pending <= h.reclaimed
    && r.size == Size(index) && r.cbPtr == Start(index) && r.endPtr == Start(index) + Size(index) - 1
    && r.writePtr == Slot(index, |h.sent|)
    && r.cleanPtr == Slot(index, h.reclaimed)
    && r.prodIndex == Position(|h.sent|, INDEX_RANGE)
    && r.cIndex == Position(h.reclaimed - pending, INDEX_RANGE)
    && r.freeBds + pending == Size(index) - (|h.sent| - h.reclaimed)
  }

  /** Frame k of the ring owns its control block and its buffer, and both describe the frame. */
  predicate Owns(index: nat, h: History, k: nat, cbs: seq<nat>, bds: seq<Descriptor>,
                 heap: map<nat, Bytes>, owner: map<nat, (nat, nat)>)
    requires Used(index) && k < |h.sent| && |cbs| == |bds| == TOTAL_DESC
  {
    var b := h.sent[k].buffer;
    && cbs[Slot(index, k)] == b != 0
    && b in heap && b in owner && owner[b] == (index, k)
    && h.sent[k].frame <= heap[b]
    && bds[Slot(index, k)] == Descriptor(b, |h.sent[k].frame|)
  }

  ghost predicate RingOwns(index: nat, h: History, cbs: seq<nat>, bds: seq<Descriptor>,
                     heap: map<nat, Bytes>, owner: map<nat, (nat, nat)>)
    requires Used(index) && |cbs| == |bds| == TOTAL_DESC
  {
    forall k: nat :: InFlight(h, k) ==> Owns(index, h, k, cbs, bds, heap, owner)
  }

  /** Every frame buffer in memory belongs to one frame that is in flight: none leaks, none is shared. */
  ghost predicate NoLeak(hist: seq<History>, heap: map<nat, Bytes>, owner: map<nat, (nat, nat)>)
    requires |hist| == GENET_DESC_INDEX + 1
  {
    && owner.Keys == heap.Keys
    && forall b :: b in owner ==>
         var (i, k) := owner[b];
         Used(i) && InFlight(hist[i], k) && hist[i].sent[k].buffer == b
  }

  lemma SlotsDiffer(index: nat, j: nat, k: nat)
    requires Used(index) && j < k < j + Size(index)
    ensures Slot(index, j) != Slot(index, k)
  {
    PositionIsRemainder(j, Size(index));
    PositionIsRemainder(k, Size(index));
    CloseRemaindersDiffer(j, k, Size(index));
  }

  lemma NextSlot(index: nat, k: nat)
    requires Used(index)
    ensures Slot(index, k + 1) == if Slot(index, k) == Start(index) + Size(index) - 1 then Start(index) else Slot(index, k) + 1
  {
  }

  /** The five rings use disjoint control blocks and together all 256 of them. */
  lemma RingsPartition(slot: nat)
    requires slot < TOTAL_DESC
    ensures exists index: nat :: Used(index) && Start(index) <= slot < Start(index) + Size(index)
    ensures forall i: nat, j: nat ::
              Used(i) && Used(j) && Start(i) <= slot < Start(i) + Size(i) && Start(j) <= slot < Start(j) + Size(j) ==> i == j
  {
    var index := if slot < 32 then 0 else if slot < 64 then 1 else if slot < 96 then 2 else if slot < 128 then 3
                 else GENET_DESC_INDEX;
    assert Used(index) && Start(index) <= slot < Start(index) + Size(index);
  }

  /** The 16-bit indices, the free count and the pointers tell the number of frames in flight. */
  lemma CountersAgree(index: nat, r: Ring, h: History)
    requires Used(index) && Tracks(index, r, h, 0)
    ensures r.freeBds + (r.prodIndex - r.cIndex) % INDEX_RANGE == r.size
    ensures r.writePtr == r.cbPtr + r.prodIndex % r.size
    ensures r.cleanPtr == r.cbPtr + r.cIndex % r.size
    ensures 1 <= r.freeBds <= r.size
  {
    CountInFlight(|h.sent|, h.reclaimed);
    PointerFollowsIndex(|h.sent|, Size(index));
    PointerFollowsIndex(h.reclaimed, Size(index));
  }

  /** The 16-bit difference of two indices is the number of steps between them. */
  lemma CountInFlight(ahead: nat, behind: nat)
    requires behind <= ahead < behind + INDEX_RANGE
    ensures (Position(ahead, INDEX_RANGE) - Position(behind, INDEX_RANGE)) % INDEX_RANGE == ahead - behind
  {
    StepsBetween(ahead, behind, INDEX_RANGE);
  }

  lemma StepsBetween(ahead: nat, behind: nat, m: nat)
    requires behind <= ahead < behind + m
    ensures (Position(ahead, m) - Position(behind, m)) % m == ahead - behind
  {
    PositionIsRemainder(ahead, m);
    PositionIsRemainder(behind, m);
    WrappedDifference(ahead, behind, m);
    DivisionUnique(ahead - behind, 0, ahead - behind, m);
  }

  /** The size of every ring divides the range of the indices, so a pointer is its index modulo the size. */
  lemma PointerFollowsIndex(k: nat, size: nat)
    requires size == TX_BDS_PER_Q || size == Q16_TX_BD_CNT
    ensures Position(k, INDEX_RANGE) % size == Position(k, size)
  {
    PositionIsRemainder(k, INDEX_RANGE);
    PositionIsRemainder(k, size);
    RemainderOfRemainder(k, size, if size == TX_BDS_PER_Q then 2048 else 512);
  }

  // ---------------------------------------------------------------- steps keep ownership

  lemma QueueKeepsOwnership(index: nat, h: History, q: Queued, bytes: Bytes, cbs: seq<nat>, bds: seq<Descriptor>,
                            heap: map<nat, Bytes>, owner: map<nat, (nat, nat)>)
    requires Used(index) && Plausible(index, h) && |cbs| == |bds| == TOTAL_DESC
    requires |h.sent| + 1 < h.reclaimed + Size(index)
    requires RingOwns(index, h, cbs, bds, heap, owner)
    requires q.buffer != 0 && q.buffer !in heap && q.buffer !in owner && q.frame <= bytes
    ensures var n := |h.sent|;
            var slot := Slot(index, n);
            RingOwns(index, h.(sent := h.sent + [q]), cbs[slot := q.buffer],
                     bds[slot := Descriptor(q.buffer, |q.frame|)], heap[q.buffer := bytes], owner[q.buffer := (index, n)])
  {
    var n := |h.sent|;
    var slot := Slot(index, n);
    var h', cbs', bds' := h.(sent := h.sent + [q]), cbs[slot := q.buffer], bds[slot := Descriptor(q.buffer, |q.frame|)];
    forall k: nat | InFlight(h', k) ensures Owns(index, h', k, cbs', bds', heap[q.buffer := bytes], owner[q.buffer := (index, n)]) {
      if k < n {
        assert InFlight(h, k) && Owns(index, h, k, cbs, bds, heap, owner);
        SlotsDiffer(index, k, n);
      }
    }
  }

  lemma QueueKeepsOtherRing(index: nat, other: nat, h: History, n: nat, q: Queued, bytes: Bytes, cbs: seq<nat>,
                            bds: seq<Descriptor>, heap: map<nat, Bytes>, owner: map<nat, (nat, nat)>)
    requires Used(index) && Used(other) && index != other && |cbs| == |bds| == TOTAL_DESC
    requires RingOwns(other, h, cbs, bds, heap, owner)
    requires q.buffer !in heap && q.buffer !in owner
    ensures var slot := Slot(index, n);
            RingOwns(other, h, cbs[slot := q.buffer], bds[slot := Descriptor(q.buffer, |q.frame|)],
                     heap[q.buffer := bytes], owner[q.buffer := (index, n)])
  {
    forall k: nat | InFlight(h, k) ensures Slot(index, n) != Slot(other, k) {
    }
  }

  lemma ReclaimKeepsOwnership(index: nat, other: nat, h: History, first: Queued, slot: nat, cbs: seq<nat>,
                              bds: seq<Descriptor>, heap: map<nat, Bytes>, owner: map<nat, (nat, nat)>, k0: nat)
    requires Used(index) && Used(other) && |cbs| == |bds| == TOTAL_DESC && slot == Slot(index, k0)
    requires RingOwns(other, h, cbs, bds, heap, owner)
    requires first.buffer in owner && owner[first.buffer] == (index, k0)
    requires index == other ==> Plausible(index, h) && InFlight(h, k0) && k0 == h.reclaimed
    ensures RingOwns(other, if index == other then h.(reclaimed := h.reclaimed + 1) else h,
                     cbs[slot := 0], bds, heap - {first.buffer}, owner - {first.buffer})
  {
    var h' := if index == other then h.(reclaimed := h.reclaimed + 1) else h;
    forall k: nat | InFlight(h', k) ensures Owns(other, h', k, cbs[slot := 0], bds, heap - {first.buffer}, owner - {first.buffer}) {
      assert InFlight(h, k) && Owns(other, h, k, cbs, bds, heap, owner);
      if index == other {
        SlotsDiffer(index, k0, k);
      }
    }
  }

  // ---------------------------------------------------------------- the whole driver as a value

  /** What the hardware knows of a ring: its consumer index register and where it reads next. */
  datatype Consumer = Consumer(index: nat, slot: nat)

  /** Control blocks (the buffer of each, 0 if none), descriptors, rings, hardware and buffers in memory. */
  datatype State = State(cbs: seq<nat>, bds: seq<Descriptor>, rings: seq<Ring>, hw: seq<Consumer>, heap: map<nat, Bytes>)

  datatype Log = Log(hist: seq<History>, owner: map<nat, (nat, nat)>)

  predicate Shape(s: State, log: Log) {
    && |s.cbs| == |s.bds| == TOTAL_DESC
    && |s.rings| == |s.hw| == |log.hist| == GENET_DESC_INDEX + 1
  }

  ghost predicate RingGood(s: State, log: Log, index: nat, pending: nat)
    requires Shape(s, log) && Used(index)
  {
    && Tracks(index, s.rings[index], log.hist[index], pending)
    && s.hw[index] == Consumer(Position(log.hist[index].consumed, INDEX_RANGE), Slot(index, log.hist[index].consumed))
    && RingOwns(index, log.hist[index], s.cbs, s.bds, s.heap, log.owner)
  }

  /** All rings are consistent; on ring `index` the counters lag behind by `pending`. */
  ghost predicate Consistent(s: State, log: Log, index: nat, pending: nat) {
    && Shape(s, log)
    && (forall i: nat :: Used(i) ==> RingGood(s, log, i, if i == index then pending else 0))
    && NoLeak(log.hist, s.heap, log.owner)
  }

  function AfterSend(s: State, index: nat, slot: nat, address: nat, bytes: Bytes, length: nat): State
    requires index < |s.rings| && slot < |s.cbs| && slot < |s.bds|
  {
    var r := s.rings[index];
    State(s.cbs[slot := address], s.bds[slot := Descriptor(address, length)],
          s.rings[index := r.(writePtr := if r.writePtr == r.endPtr then r.cbPtr else r.writePtr + 1,
                              freeBds := if r.freeBds == 0 then 0 else r.freeBds - 1,
                              prodIndex := (r.prodIndex + 1) % INDEX_RANGE)],
          s.hw, s.heap[address := bytes])
  }

  function LogSend(log: Log, index: nat, q: Queued): Log
    requires index < |log.hist|
  {
    var h := log.hist[index];
    Log(log.hist[index := h.(sent := h.sent + [q])], log.owner[q.buffer := (index, |h.sent|)])
  }

  function AfterTransmit(s: State, index: nat): State
    requires index < |s.rings| && index < |s.hw|
  {
    var (r, c) := (s.rings[index], s.hw[index]);
    s.(hw := s.hw[index := Consumer((c.index + 1) % INDEX_RANGE, if c.slot == r.endPtr then r.cbPtr else c.slot + 1)])
  }

  function LogTransmit(log: Log, index: nat): Log
    requires index < |log.hist|
  {
    log.(hist := log.hist[index := log.hist[index].(consumed := log.hist[index].consumed + 1)])
  }

  function AfterFree(s: State, index: nat, slot: nat, buffer: nat): State
    requires index < |s.rings| && slot < |s.cbs|
  {
    var r := s.rings[index];
    s.(cbs := s.cbs[slot := 0], heap := s.heap - {buffer},
       rings := s.rings[index := r.(cleanPtr := if r.cleanPtr < r.endPtr then r.cleanPtr + 1 else r.cbPtr)])
  }

  function LogFree(log: Log, index: nat, buffer: nat): Log
    requires index < |log.hist|
  {
    log.(hist := log.hist[index := log.hist[index].(reclaimed := log.hist[index].reclaimed + 1)],
         owner := log.owner - {buffer})
  }

  function AfterCount(s: State, index: nat, processed: nat, cIndex: nat): State
    requires index < |s.rings|
  {
    s.(rings := s.rings[index := s.rings[index].(freeBds := s.rings[index].freeBds + processed, cIndex := cIndex)])
  }

  // ---------------------------------------------------------------- every step keeps consistency

  /** A frame may be queued: there is a free block besides the one that stays empty, and a fresh buffer. */
  ghost predicate MaySend(s: State, log: Log, index: nat, q: Queued, bytes: Bytes) {
    && Used(index) && Consistent(s, log, 0, 0) && s.rings[index].freeBds >= 2
    && q.buffer != 0 && q.buffer !in s.heap && q.frame <= bytes
  }

  lemma SendTracks(index: nat, r: Ring, h: History, q: Queued)
    requires Used(index) && Tracks(index, r, h, 0) && r.freeBds >= 2
    ensures Tracks(index, r.(writePtr := if r.writePtr == r.endPtr then r.cbPtr else r.writePtr + 1,
                             freeBds := r.freeBds - 1, prodIndex := (r.prodIndex + 1) % INDEX_RANGE),
                   h.(sent := h.sent + [q]), 0)
  {
  }

  lemma SendKeepsRing(s: State, log: Log, index: nat, q: Queued, bytes: Bytes, i: nat)
    requires MaySend(s, log, index, q, bytes) && Used(i)
    ensures var slot := Slot(index, |log.hist[index].sent|);
            var (s', log') := (AfterSend(s, index, slot, q.buffer, bytes, |q.frame|), LogSend(log, index, q));
            Shape(s', log') && RingGood(s', log', i, 0)
  {
    var h := log.hist[index];
    assert RingGood(s, log, i, 0);
    if i == index {
      SendTracks(index, s.rings[index], h, q);
      QueueKeepsOwnership(index, h, q, bytes, s.cbs, s.bds, s.heap, log.owner);
    } else {
      QueueKeepsOtherRing(index, i, log.hist[i], |h.sent|, q, bytes, s.cbs, s.bds, s.heap, log.owner);
    }
  }

  lemma SendKeepsNoLeak(hist: seq<History>, heap: map<nat, Bytes>, owner: map<nat, (nat, nat)>, index: nat, q: Queued, bytes: Bytes)
    requires |hist| == GENET_DESC_INDEX + 1 && NoLeak(hist, heap, owner) && Used(index)
    requires hist[index].reclaimed <= |hist[index].sent| && q.buffer !in heap
    ensures var log' := LogSend(Log(hist, owner), index, q); NoLeak(log'.hist, heap[q.buffer := bytes], log'.owner)
  {
  }

  lemma SendKeepsConsistent(s: State, log: Log, index: nat, q: Queued, bytes: Bytes)
    requires MaySend(s, log, index, q, bytes)
    ensures Consistent(AfterSend(s, index, Slot(index, |log.hist[index].sent|), q.buffer, bytes, |q.frame|),
                       LogSend(log, index, q), 0, 0)
  {
    assert RingGood(s, log, index, 0);
    SendKeepsNoLeak(log.hist, s.heap, log.owner, index, q, bytes);
    var s', log' := AfterSend(s, index, Slot(index, |log.hist[index].sent|), q.buffer, bytes, |q.frame|), LogSend(log, index, q);
    forall i: nat | Used(i) ensures RingGood(s', log', i, 0) {
      SendKeepsRing(s, log, index, q, bytes, i);
    }
  }

  /** Who owns a buffer does not depend on how far the hardware is. */
  lemma OwnsKept(index: nat, h: History, h': History, s: State, owner: map<nat, (nat, nat)>)
    requires Used(index) && |s.cbs| == |s.bds| == TOTAL_DESC && h'.sent == h.sent && h'.reclaimed == h.reclaimed
    requires RingOwns(index, h, s.cbs, s.bds, s.heap, owner)
    ensures RingOwns(index, h', s.cbs, s.bds, s.heap, owner)
  {
    forall k: nat | InFlight(h', k) ensures Owns(index, h', k, s.cbs, s.bds, s.heap, owner) {
      assert InFlight(h, k);
    }
  }

  lemma TransmitKeepsRing(s: State, log: Log, index: nat, i: nat)
    requires Used(index) && Consistent(s, log, 0, 0) && log.hist[index].consumed < |log.hist[index].sent| && Used(i)
    ensures RingGood(AfterTransmit(s, index), LogTransmit(log, index), i, 0)
  {
    hide NoLeak, RingOwns;
    assert RingGood(s, log, i, 0);
    OwnsKept(i, log.hist[i], LogTransmit(log, index).hist[i], s, log.owner);
  }

  lemma TransmitKeepsNoLeak(hist: seq<History>, heap: map<nat, Bytes>, owner: map<nat, (nat, nat)>, index: nat)
    requires |hist| == GENET_DESC_INDEX + 1 && NoLeak(hist, heap, owner) && Used(index)
    ensures NoLeak(LogTransmit(Log(hist, owner), index).hist, heap, owner)
  {
    forall b | b in owner ensures InFlight(hist[owner[b].0], owner[b].1) {
    }
  }

  lemma TransmitKeepsConsistent(s: State, log: Log, index: nat)
    requires Used(index) && Consistent(s, log, 0, 0) && log.hist[index].consumed < |log.hist[index].sent|
    ensures Consistent(AfterTransmit(s, index), LogTransmit(log, index), 0, 0)
  {
    TransmitKeepsNoLeak(log.hist, s.heap, log.owner, index);
    var s', log' := AfterTransmit(s, index), LogTransmit(log, index);
    forall i: nat | Used(i) ensures RingGood(s', log', i, 0) {
      TransmitKeepsRing(s, log, index, i);
    }
  }

  /** What goes out is the frame that was queued, whatever happened to the ring in between. */
  lemma TransmitsWhatWasSent(s: State, log: Log, index: nat)
    requires Used(index) && Consistent(s, log, 0, 0) && log.hist[index].consumed < |log.hist[index].sent|
    ensures var k := log.hist[index].consumed;
            && s.hw[index].slot < TOTAL_DESC
            && var bd := s.bds[s.hw[index].slot];
            && bd.address in s.heap && bd.length <= |s.heap[bd.address]|
            && s.heap[bd.address][..bd.length] == log.hist[index].sent[k].frame
  {
    var h := log.hist[index];
    assert RingGood(s, log, index, 0);
    assert InFlight(h, h.consumed) && Owns(index, h, h.consumed, s.cbs, s.bds, s.heap, log.owner);
  }

  ghost predicate MayFree(s: State, log: Log, index: nat, pending: nat) {
    Used(index) && Consistent(s, log, index, pending) && log.hist[index].reclaimed < log.hist[index].consumed
  }

  lemma FirstToFree(s: State, log: Log, index: nat, pending: nat)
    requires MayFree(s, log, index, pending)
    ensures var h := log.hist[index];
            var first := h.sent[h.reclaimed];
            && s.rings[index].cleanPtr == Slot(index, h.reclaimed)
            && s.cbs[s.rings[index].cleanPtr] == first.buffer != 0 && first.buffer in s.heap
            && first.buffer in log.owner && log.owner[first.buffer] == (index, h.reclaimed)
  {
    var h := log.hist[index];
    assert RingGood(s, log, index, pending);
    assert InFlight(h, h.reclaimed) && Owns(index, h, h.reclaimed, s.cbs, s.bds, s.heap, log.owner);
  }

  lemma FreeTracks(index: nat, r: Ring, h: History, pending: nat)
    requires Used(index) && Tracks(index, r, h, pending) && h.reclaimed < h.consumed
    ensures Tracks(index, r.(cleanPtr := if r.cleanPtr < r.endPtr then r.cleanPtr + 1 else r.cbPtr),
                   h.(reclaimed := h.reclaimed + 1), pending + 1)
  {
    NextSlot(index, h.reclaimed);
  }

  lemma FreeKeepsOwnRing(s: State, log: Log, index: nat, pending: nat, buffer: nat)
    requires MayFree(s, log, index, pending)
    requires buffer == log.hist[index].sent[log.hist[index].reclaimed].buffer
    ensures var (s', log') := (AfterFree(s, index, s.rings[index].cleanPtr, buffer), LogFree(log, index, buffer));
            RingGood(s', log', index, pending + 1)
  {
    var h, r := log.hist[index], s.rings[index];
    var s', log' := AfterFree(s, index, r.cleanPtr, buffer), LogFree(log, index, buffer);
    FirstToFree(s, log, index, pending);
    assert RingGood(s, log, index, pending);
    FreeTracks(index, r, h, pending);
    ReclaimKeepsOwnership(index, index, h, h.sent[h.reclaimed], Slot(index, h.reclaimed),
                          s.cbs, s.bds, s.heap, log.owner, h.reclaimed);
    assert s'.rings[index] == r.(cleanPtr := if r.cleanPtr < r.endPtr then r.cleanPtr + 1 else r.cbPtr);
    assert log'.hist[index] == h.(reclaimed := h.reclaimed + 1);
  }

  lemma FreeKeepsOtherRing(s: State, log: Log, index: nat, pending: nat, buffer: nat, i: nat)
    requires MayFree(s, log, index, pending) && Used(i) && i != index
    requires buffer == log.hist[index].sent[log.hist[index].reclaimed].buffer
    ensures var (s', log') := (AfterFree(s, index, s.rings[index].cleanPtr, buffer), LogFree(log, index, buffer));
            RingGood(s', log', i, 0)
  {
    var h := log.hist[index];
    FirstToFree(s, log, index, pending);
    assert RingGood(s, log, i, 0);
    ReclaimKeepsOwnership(index, i, log.hist[i], h.sent[h.reclaimed], Slot(index, h.reclaimed),
                          s.cbs, s.bds, s.heap, log.owner, h.reclaimed);
  }

  lemma FreeKeepsNoLeak(hist: seq<History>, heap: map<nat, Bytes>, owner: map<nat, (nat, nat)>, index: nat)
    requires |hist| == GENET_DESC_INDEX + 1 && NoLeak(hist, heap, owner) && Used(index)
    requires hist[index].reclaimed < |hist[index].sent|
    ensures var buffer := hist[index].sent[hist[index].reclaimed].buffer;
            var log' := LogFree(Log(hist, owner), index, buffer); NoLeak(log'.hist, heap - {buffer}, log'.owner)
  {
  }

  lemma FreeKeepsConsistent(s: State, log: Log, index: nat, pending: nat, buffer: nat)
    requires MayFree(s, log, index, pending)
    requires buffer == log.hist[index].sent[log.hist[index].reclaimed].buffer
    ensures s.rings[index].cleanPtr < TOTAL_DESC && s.cbs[s.rings[index].cleanPtr] == buffer != 0
    ensures Consistent(AfterFree(s, index, s.rings[index].cleanPtr, buffer), LogFree(log, index, buffer), index, pending + 1)
  {
    FirstToFree(s, log, index, pending);
    assert RingGood(s, log, index, pending);
    FreeKeepsNoLeak(log.hist, s.heap, log.owner, index);
    var s', log' := AfterFree(s, index, s.rings[index].cleanPtr, buffer), LogFree(log, index, buffer);
    forall i: nat | Used(i) ensures RingGood(s', log', i, if i == index then pending + 1 else 0) {
      if i == index {
        FreeKeepsOwnRing(s, log, index, pending, buffer);
      } else {
        FreeKeepsOtherRing(s, log, index, pending, buffer, i);
      }
    }
  }

  lemma CountKeepsConsistent(s: State, log: Log, index: nat, pending: nat)
    requires Used(index) && Consistent(s, log, index, pending)
    ensures Consistent(AfterCount(s, index, pending, Position(log.hist[index].reclaimed, INDEX_RANGE)), log, 0, 0)
  {
    var s' := AfterCount(s, index, pending, Position(log.hist[index].reclaimed, INDEX_RANGE));
    forall i: nat | Used(i) ensures RingGood(s', log, i, 0) {
      assert RingGood(s, log, i, if i == index then pending else 0);
    }
  }

  /**
   The buffers in memory are exactly the frames in flight: each such frame has its own buffer, no other
   buffer is left, so every buffer was freed once, and never before the hardware had consumed its frame.
   */
  lemma BuffersAreFramesInFlight(s: State, log: Log)
    requires Consistent(s, log, 0, 0)
    ensures forall i: nat, k: nat :: Used(i) && InFlight(log.hist[i], k) ==>
              log.hist[i].sent[k].buffer in s.heap && log.owner[log.hist[i].sent[k].buffer] == (i, k)
    ensures forall b :: b in s.heap ==> exists i: nat, k: nat ::
              Used(i) && InFlight(log.hist[i], k) && log.hist[i].sent[k].buffer == b
    ensures forall i: nat, k: nat :: Used(i) && log.hist[i].consumed <= k < |log.hist[i].sent| ==> InFlight(log.hist[i], k)
  {
    forall i: nat, k: nat | Used(i) && InFlight(log.hist[i], k)
      ensures log.hist[i].sent[k].buffer in s.heap && log.owner[log.hist[i].sent[k].buffer] == (i, k)
    {
      assert RingGood(s, log, i, 0) && Owns(i, log.hist[i], k, s.cbs, s.bds, s.heap, log.owner);
    }
    forall b | b in s.heap
      ensures exists i: nat, k: nat :: Used(i) && InFlight(log.hist[i], k) && log.hist[i].sent[k].buffer == b
    {
      var (i, k) := log.owner[b];
      assert Used(i) && InFlight(log.hist[i], k);
    }
    forall i: nat, k: nat | Used(i) && log.hist[i].consumed <= k < |log.hist[i].sent| ensures InFlight(log.hist[i], k) {
      assert RingGood(s, log, i, 0);
    }
  }

  // ---------------------------------------------------------------- the driver

  class Genet {
    const cbs: array<nat>
    const bds: array<Descriptor>
    const rings: array<Ring>
    const hw: array<Consumer>
    var heap: map<nat, Bytes>
    ghost var log: Log

    ghost function St(): State
      reads this, cbs, bds, rings, hw
    {
      State(cbs[..], bds[..], rings[..], hw[..], heap)
    }

    ghost predicate Valid()
      reads this, cbs, bds, rings, hw
    {
      Consistent(St(), log, 0, 0)
    }

    constructor ()
      ensures Valid() && fresh(cbs) && fresh(bds) && fresh(rings) && fresh(hw)
      ensures log == Log(seq(GENET_DESC_INDEX + 1, _ => History([], 0, 0)), map[])
    {
      cbs := new nat[TOTAL_DESC](_ => 0);
      bds := new Descriptor[TOTAL_DESC](_ => Descriptor(0, 0));
      rings := new Ring[GENET_DESC_INDEX + 1](_ => Ring(0, 0, 0, 0, 0, 0, 0, 0));
      hw := new Consumer[GENET_DESC_INDEX + 1](_ => Consumer(0, 0));
      heap := map[];
      log := Log(seq(GENET_DESC_INDEX + 1, _ => History([], 0, 0)), map[]);
      new;
      InitTxQueues();
    }

    method InitTxQueues()
      requires Shape(St(), log) && heap == map[] && log.owner == map[]
      requires forall i :: 0 <= i < |log.hist| ==> log.hist[i] == History([], 0, 0)
      modifies rings, hw
      ensures Valid()
    {
      for i := 0 to TX_QUEUES
        invariant forall j: nat :: j < i ==> RingGood(St(), log, j, 0)
      {
        InitTxRing(i, TX_BDS_PER_Q, i * TX_BDS_PER_Q, (i + 1) * TX_BDS_PER_Q);
      }
      InitTxRing(GENET_DESC_INDEX, Q16_TX_BD_CNT, TX_QUEUES * TX_BDS_PER_Q, TOTAL_DESC);
    }

    method InitTxRing(index: nat, size: nat, startPtr: nat, endPtr: nat)
      requires Shape(St(), log) && Used(index) && size == Size(index) && startPtr == Start(index) && endPtr == startPtr + size
      requires log.hist[index] == History([], 0, 0)
      modifies rings, hw
      ensures RingGood(St(), log, index, 0)
      ensures forall i: nat :: Used(i) && i != index && old(RingGood(St(), log, i, 0)) ==> RingGood(St(), log, i, 0)
    {
      rings[index] := Ring(size, startPtr, 0, size, startPtr, startPtr, endPtr - 1, 0);
      hw[index] := Consumer(0, startPtr);
      assert RingOwns(index, log.hist[index], cbs[..], bds[..], heap, log.owner);
    }

    /** The mapping strategy of SendFrame: the configured queue, priority queue 0. */
    method SendFrame(buffer: Bytes, address: nat, memory: Bytes) returns (ok: bool)
      requires Valid() && 0 < |buffer| <= ENET_MAX_MTU_SIZE
      requires address != 0 && address !in heap && |memory| == ENET_MAX_MTU_SIZE
      modifies this, cbs, bds, rings
      ensures Valid()
      ensures ok == (|old(log.hist[0]).sent| - old(log.hist[0]).reclaimed <= TX_BDS_PER_Q - 2)
      ensures log == if ok then LogSend(old(log), 0, Queued(address, Padded(buffer))) else old(log)
      ensures if ok then
                var (sent, n) := (log.hist[0].sent, |old(log).hist[0].sent|);
                && |sent| == n + 1 && sent[..n] == old(log).hist[0].sent && |sent[n].frame| == (if |buffer| < 60 then 60 else |buffer|)
                && forall i :: 0 <= i < |sent[n].frame| ==> sent[n].frame[i] == if i < |buffer| then buffer[i] else 0
              else
                St() == old(St())
    {
      var index := TX_RING_INDEX;
      if index == 0 {
        index := GENET_DESC_INDEX;
      } else {
        index := index - 1;
      }
      ok := SendOn(index, buffer, address, memory);
      PaddedIs(buffer);
    }

    /** Queues a frame on a ring. `address` is the new buffer and `memory` what it happens to hold. */
    method SendOn(index: nat, data: Bytes, address: nat, memory: Bytes) returns (ok: bool)
      requires Valid() && Used(index) && 0 < |data| <= ENET_MAX_MTU_SIZE
      requires address != 0 && address !in heap && |memory| == ENET_MAX_MTU_SIZE
      modifies this, cbs, bds, rings
      ensures Valid()
      ensures ok == (|old(log.hist[index]).sent| - old(log.hist[index]).reclaimed <= Size(index) - 2)
      ensures log == if ok then LogSend(old(log), index, Queued(address, Padded(data))) else old(log)
      ensures !ok ==> St() == old(St())
    {
      hide NoLeak, Slot, Owns;
      assert RingGood(St(), log, index, 0);
      if rings[index].freeBds < 2 {
        return false;
      }
      var txBuffer, length := FillBuffer(data, memory);
      ghost var q := Queued(address, Padded(data));
      SendKeepsConsistent(St(), log, index, q, txBuffer);
      PutFrame(index, address, txBuffer, length);
      log := LogSend(log, index, q);
      ok := true;
    }

    method PutFrame(index: nat, address: nat, txBuffer: Bytes, length: nat)
      requires index < rings.Length && rings[index].freeBds >= 2
      requires cbs.Length == bds.Length && rings[index].writePtr < cbs.Length && rings[index].cbPtr <= rings[index].writePtr
      modifies this`heap, cbs, bds, rings
      ensures St() == AfterSend(old(St()), index, old(rings[index].writePtr), address, txBuffer, length)
    {
      var slot := GetTxcb(index);
      heap := heap[address := txBuffer];
      cbs[slot] := address;
      bds[slot] := Descriptor(address, length);
      rings[index] := rings[index].(freeBds := rings[index].freeBds - 1);
      rings[index] := rings[index].(prodIndex := (rings[index].prodIndex + 1) % INDEX_RANGE);
    }

    method GetTxcb(index: nat) returns (slot: nat)
      requires index < rings.Length && rings[index].cbPtr <= rings[index].writePtr
      modifies rings
      ensures slot == old(rings[index]).writePtr
      ensures var r := old(rings[index]);
              rings[..] == old(rings[..])[index := r.(writePtr := if r.writePtr == r.endPtr then r.cbPtr else r.writePtr + 1)]
    {
      slot := rings[index].cbPtr + (rings[index].writePtr - rings[index].cbPtr);
      if rings[index].writePtr == rings[index].endPtr {
        rings[index] := rings[index].(writePtr := rings[index].cbPtr);
      } else {
        rings[index] := rings[index].(writePtr := rings[index].writePtr + 1);
      }
    }

    /** The hardware sends the next frame of a ring, straight from the memory its descriptor points to. */
    method Transmit(index: nat) returns (onWire: Bytes)
      requires Valid() && Used(index) && log.hist[index].consumed < |log.hist[index].sent|
      modifies this`log, hw
      ensures Valid()
      ensures onWire == old(log.hist[index]).sent[old(log.hist[index]).consumed].frame
      ensures log == LogTransmit(old(log), index)
    {
      hide RingGood, NoLeak, Tracks, AfterTransmit, LogTransmit;
      TransmitsWhatWasSent(St(), log, index);
      TransmitKeepsConsistent(St(), log, index);
      onWire := FetchNext(index);
      log := LogTransmit(log, index);
    }

    method FetchNext(index: nat) returns (onWire: Bytes)
      requires index < hw.Length && index < rings.Length && hw[index].slot < bds.Length
      requires var bd := bds[hw[index].slot]; bd.address in heap && bd.length <= |heap[bd.address]|
      modifies hw
      ensures St() == AfterTransmit(old(St()), index)
      ensures var bd := bds[old(hw[index].slot)]; onWire == heap[bd.address][..bd.length]
    {
      var bd := bds[hw[index].slot];
      onWire := heap[bd.address][..bd.length];
      hw[index] := Consumer((hw[index].index + 1) % INDEX_RANGE,
                            if hw[index].slot == rings[index].endPtr then rings[index].cbPtr else hw[index].slot + 1);
    }

    /** Frees the buffers of all frames that the hardware has consumed since the last call. */
    method TxReclaim(index: nat) returns (processed: nat)
      requires Valid() && Used(index)
      modifies this, cbs, rings
      ensures Valid()
      ensures processed == old(log.hist[index]).consumed - old(log.hist[index]).reclaimed
      ensures log.hist == old(log.hist)[index := old(log.hist[index]).(reclaimed := old(log.hist[index]).consumed)]
    {
      assert RingGood(St(), log, index, 0);
      ghost var h := log.hist[index];
      var cIndex := hw[index].index % INDEX_RANGE;
      var ready := (cIndex - rings[index].cIndex) % INDEX_RANGE;
      CountInFlight(h.consumed, h.reclaimed);
      assert Consistent(St(), log, index, 0);
      processed := FreeReady(index, ready);
      AddFreed(index, processed, cIndex);
    }

    /** Adds the freed blocks to the counters of the ring. */
    method AddFreed(index: nat, processed: nat, cIndex: nat)
      requires Used(index) && Consistent(St(), log, index, processed) && cIndex == Position(log.hist[index].reclaimed, INDEX_RANGE)
      modifies rings
      ensures Valid() && St() == AfterCount(old(St()), index, processed, cIndex)
    {
      CountKeepsConsistent(St(), log, index, processed);
      rings[index] := rings[index].(freeBds := rings[index].freeBds + processed);
      rings[index] := rings[index].(cIndex := cIndex);
      assert St() == AfterCount(old(St()), index, processed, cIndex);
    }

    /** The handler of the default queue. */
    method InterruptHandler0(done: bool)
      requires Valid()
      modifies this, cbs, rings
      ensures Valid() && |log.hist| == |old(log.hist)|
      ensures forall i: nat :: i < |log.hist| ==>
                log.hist[i] == if done && i == GENET_DESC_INDEX then old(log.hist[i]).(reclaimed := old(log.hist[i]).consumed) else old(log.hist[i])
    {
      if done {
        var _ := TxReclaim(GENET_DESC_INDEX);
      }
    }

    /** The handler of the priority queues: bit i of the status asks for queue i. */
    method InterruptHandler1(status: seq<bool>)
      requires Valid() && |status| == 32
      modifies this, cbs, rings
      ensures Valid() && |log.hist| == |old(log.hist)|
      ensures forall i: nat :: i < |log.hist| ==>
                log.hist[i] == if i < TX_QUEUES && status[i] then old(log.hist[i]).(reclaimed := old(log.hist[i]).consumed) else old(log.hist[i])
    {
      for index := 0 to TX_QUEUES
        invariant Valid() && |log.hist| == |old(log.hist)|
        invariant forall i: nat :: i < |log.hist| ==>
                    log.hist[i] == if i < index && status[i] then old(log.hist[i]).(reclaimed := old(log.hist[i]).consumed) else old(log.hist[i])
      {
        if status[index] {
          var _ := TxReclaim(index);
        }
      }
    }

    method FreeReady(index: nat, ready: nat) returns (processed: nat)
      requires Used(index) && Consistent(St(), log, index, 0) && log.hist[index].reclaimed + ready == log.hist[index].consumed
      modifies this, cbs, rings
      ensures processed == ready && Consistent(St(), log, index, processed)
      ensures log.hist == old(log.hist)[index := old(log.hist[index]).(reclaimed := old(log.hist[index]).consumed)]
    {
      ghost var h := log.hist[index];
      processed := 0;
      while processed < ready
        invariant processed <= ready && Consistent(St(), log, index, processed)
        invariant log.hist == old(log.hist)[index := h.(reclaimed := h.reclaimed + processed)]
      {
        FreeNext(index, processed);
        processed := processed + 1;
      }
    }

    method FreeNext(index: nat, ghost pending: nat)
      requires MayFree(St(), log, index, pending)
      modifies this, cbs, rings
      ensures Consistent(St(), log, index, pending + 1)
      ensures log.hist == old(log.hist)[index := old(log.hist[index]).(reclaimed := old(log.hist[index]).reclaimed + 1)]
    {
      hide NoLeak, Slot, Owns;
      ghost var buffer := log.hist[index].sent[log.hist[index].reclaimed].buffer;
      FreeKeepsConsistent(St(), log, index, pending, buffer);
      FreeAtCleanPtr(index);
      log := LogFree(log, index, buffer);
    }

    method FreeAtCleanPtr(index: nat)
      requires index < rings.Length && rings[index].cleanPtr < cbs.Length && cbs[rings[index].cleanPtr] != 0
      modifies `heap, cbs, rings
      ensures var slot := old(rings[index].cleanPtr);
              St() == AfterFree(old(St()), index, slot, old(cbs[slot]))
    {
      FreeTxCb(rings[index].cleanPtr);
      if rings[index].cleanPtr < rings[index].endPtr {
        rings[index] := rings[index].(cleanPtr := rings[index].cleanPtr + 1);
      } else {
        rings[index] := rings[index].(cleanPtr := rings[index].cbPtr);
      }
    }

    method FreeTxCb(slot: nat)
      requires slot < cbs.Length
      modifies `heap, cbs
      ensures cbs[..] == old(cbs[..])[slot := 0] && heap == if old(cbs[slot]) != 0 then old(heap) - {old(cbs[slot])} else old(heap)
    {
      var buffer := cbs[slot];
      if buffer != 0 {
        cbs[slot] := 0;
        heap := heap - {buffer};
      }
    }
  }

  method FillBuffer(data: Bytes, memory: Bytes) returns (txBuffer: Bytes, length: nat)
    requires 0 < |data| <= ENET_MAX_MTU_SIZE == |memory|
    ensures length == |Padded(data)| && |txBuffer| == ENET_MAX_MTU_SIZE && Padded(data) <= txBuffer
  {
    txBuffer, length := data + memory[|data|..], |data|;
    if length < ETH_ZLEN {
      txBuffer := txBuffer[..length] + seq(ETH_ZLEN - length, _ => 0) + txBuffer[ETH_ZLEN..];
      length := ETH_ZLEN;
    }
  }
}
