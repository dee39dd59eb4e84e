/**
 The receive ring of the GENET Ethernet driver. Every control block always has a buffer; the driver takes a
 received frame out of the ring by exchanging its buffer for a new one.
 */
module GenetRx {
  import opened GenetTx
  import opened Modular
  import opened Options

  const RX_BUF_LENGTH: nat := 2048
  const LEADING_PAD: nat := 2
  const ETH_FCS_LEN: nat := 4
  const FRAME_BUFFER_SIZE: nat := 1600
  const DISCARD_RANGE: nat := 0x1_0000
  const DISCARD_LIMIT: nat := 0xC000

  /** A frame as the hardware puts it into a buffer, and what its descriptor says about it. */
  datatype Frame = Frame(data: Bytes, startOfPacket: bool, endOfPacket: bool, error: bool)

  /** What the descriptor of a control block says. */
  datatype Status = Status(length: nat, startOfPacket: bool, endOfPacket: bool, error: bool)

  predicate Intact(f: Frame) {
    f.startOfPacket && f.endOfPacket && !f.error
  }

  /** What the hardware may deliver: frames fit a buffer, and intact ones hold more than padding and checksum, and not too much. */
  predicate Deliverable(f: Frame) {
    |f.data| <= RX_BUF_LENGTH && (Intact(f) ==> LEADING_PAD + ETH_FCS_LEN < |f.data| <= LEADING_PAD + FRAME_BUFFER_SIZE)
  }

  // ---------------------------------------------------------------- the ring and its history

  /** The control blocks, the descriptors, the buffers in memory; the indices of driver and hardware. */
  datatype RxState = RxState(cbs: seq<nat>, status: seq<Status>, heap: map<nat, Bytes>, readPtr: nat, cIndex: nat, pIndex: nat)

  datatype RxLog = RxLog(frames: seq<Frame>, consumed: nat)

  function RxSlot(k: nat): (slot: nat)
    ensures slot < TOTAL_DESC
  {
    Position(k, TOTAL_DESC)
  }

  predicate Indices(s: RxState, log: RxLog) {
    && log.consumed <= |log.frames| <= log.consumed + TOTAL_DESC
    && s.readPtr == RxSlot(log.consumed)
    && s.cIndex == Position(log.consumed, INDEX_RANGE) && s.pIndex == Position(|log.frames|, INDEX_RANGE)
  }

  /** The ring owns exactly as many buffers as it has control blocks, and memory holds no others. */
  ghost predicate Owned(cbs: seq<nat>, heap: map<nat, Bytes>) {
    && |cbs| == TOTAL_DESC
    && (forall i :: 0 <= i < TOTAL_DESC ==> cbs[i] != 0 && cbs[i] in heap && |heap[cbs[i]]| == RX_BUF_LENGTH)
    && (forall i, j :: 0 <= i < j < TOTAL_DESC ==> cbs[i] != cbs[j])
    && (forall b :: b in heap ==> b in cbs)
  }

  /** Frame k waits in its slot. */
  predicate Waits(s: RxState, log: RxLog, k: nat)
    requires |s.cbs| == |s.status| == TOTAL_DESC && k < |log.frames|
  {
    var (f, slot) := (log.frames[k], RxSlot(k));
    && s.cbs[slot] in s.heap && f.data <= s.heap[s.cbs[slot]] && Deliverable(f)
    && s.status[slot] == Status(|f.data|, f.startOfPacket, f.endOfPacket, f.error)
  }

  predicate Waiting(log: RxLog, k: int) {
    log.consumed <= k < |log.frames|
  }

  ghost predicate RxConsistent(s: RxState, log: RxLog) {
    && |s.status| == TOTAL_DESC && Owned(s.cbs, s.heap) && Indices(s, log)
    && forall k: nat :: Waiting(log, k) ==> Waits(s, log, k)
  }

  lemma RxSlotsDiffer(j: nat, k: nat)
    requires j < k < j + TOTAL_DESC
    ensures RxSlot(j) != RxSlot(k)
  {
    PositionIsRemainder(j, TOTAL_DESC);
    PositionIsRemainder(k, TOTAL_DESC);
    CloseRemaindersDiffer(j, k, TOTAL_DESC);
  }

  // ---------------------------------------------------------------- steps

  /** The hardware writes a frame into the buffer of the next slot. */
  function AfterProduce(s: RxState, slot: nat, f: Frame): RxState
    requires slot < |s.cbs| && slot < |s.status| && s.cbs[slot] in s.heap && |f.data| <= |s.heap[s.cbs[slot]]|
  {
    s.(heap := s.heap[s.cbs[slot] := f.data + s.heap[s.cbs[slot]][|f.data|..]],
       status := s.status[slot := Status(|f.data|, f.startOfPacket, f.endOfPacket, f.error)],
       pIndex := (s.pIndex + 1) % INDEX_RANGE)
  }

  /** The driver exchanges the buffer of a slot and frees the old one. */
  function AfterExchange(s: RxState, slot: nat, address: nat, memory: Bytes): RxState
    requires slot < |s.cbs|
  {
    s.(cbs := s.cbs[slot := address], heap := s.heap[address := memory] - {s.cbs[slot]})
  }

  function AfterAdvance(s: RxState): RxState {
    s.(readPtr := if s.readPtr < TOTAL_DESC - 1 then s.readPtr + 1 else 0, cIndex := (s.cIndex + 1) % INDEX_RANGE)
  }

  lemma ProduceKeepsOwned(cbs: seq<nat>, heap: map<nat, Bytes>, slot: nat, bytes: Bytes)
    requires Owned(cbs, heap) && slot < TOTAL_DESC && |bytes| == RX_BUF_LENGTH
    ensures Owned(cbs, heap[cbs[slot] := bytes])
  {
  }

  lemma ProduceKeepsConsistent(s: RxState, log: RxLog, f: Frame)
    requires RxConsistent(s, log) && Deliverable(f) && |log.frames| < log.consumed + TOTAL_DESC
    ensures RxConsistent(AfterProduce(s, RxSlot(|log.frames|), f), log.(frames := log.frames + [f]))
  {
    var n := |log.frames|;
    var slot := RxSlot(n);
    var s', log' := AfterProduce(s, slot, f), log.(frames := log.frames + [f]);
    ProduceKeepsOwned(s.cbs, s.heap, slot, f.data + s.heap[s.cbs[slot]][|f.data|..]);
    forall k: nat | Waiting(log', k) ensures Waits(s', log', k) {
      if k < n {
        assert Waiting(log, k) && Waits(s, log, k);
        RxSlotsDiffer(k, n);
      }
    }
  }

  lemma ExchangeKeepsOwned(cbs: seq<nat>, heap: map<nat, Bytes>, slot: nat, address: nat, memory: Bytes)
    requires Owned(cbs, heap) && slot < TOTAL_DESC && address != 0 && address !in heap && |memory| == RX_BUF_LENGTH
    ensures Owned(cbs[slot := address], heap[address := memory] - {cbs[slot]})
  {
    var cbs', heap' := cbs[slot := address], heap[address := memory] - {cbs[slot]};
    forall b | b in heap' ensures b in cbs' {
      if b == address {
        assert cbs'[slot] == b;
      } else {
        var i :| 0 <= i < |cbs| && cbs[i] == b;
        assert cbs'[i] == b;
      }
    }
  }

  lemma ExchangeKeepsWaiting(s: RxState, log: RxLog, address: nat, memory: Bytes, k: nat)
    requires RxConsistent(s, log) && log.consumed < k < |log.frames| && address !in s.heap
    ensures var s' := AfterExchange(s, RxSlot(log.consumed), address, memory); |s'.cbs| == TOTAL_DESC && Waits(s', log, k)
  {
    assert Waiting(log, k) && Waits(s, log, k);
    RxSlotsDiffer(log.consumed, k);
  }

  /** A frame was taken: `s1` is the state with its buffer exchanged, or the old state if there was no new buffer. */
  lemma AdvanceKeepsConsistent(s: RxState, log: RxLog, s1: RxState)
    requires |s1.status| == TOTAL_DESC && Owned(s1.cbs, s1.heap) && Indices(s1, log) && log.consumed < |log.frames|
    requires forall k: nat :: log.consumed < k < |log.frames| ==> Waits(s1, log, k)
    ensures RxConsistent(AfterAdvance(s1), log.(consumed := log.consumed + 1))
  {
    var s', log' := AfterAdvance(s1), log.(consumed := log.consumed + 1);
    forall k: nat | Waiting(log', k) ensures Waits(s', log', k) {
      assert Waits(s1, log, k);
    }
  }

  // ---------------------------------------------------------------- the driver

  class Receiver {
    const cbs: array<nat>
    const status: array<Status>
    var heap: map<nat, Bytes>
    var readPtr: nat
    var cIndex: nat
    var pIndex: nat
    var crcForward: bool
    var discards: nat  // the counter of the hardware, and what the driver has seen of it
    var oldDiscards: nat
    ghost var log: RxLog
    ghost var lost: nat  // the frames that have ever found the ring full
    ghost var cleared: nat  // how many of them the counter no longer shows

    ghost function St(): RxState
      reads this, cbs, status
    {
      RxState(cbs[..], status[..], heap, readPtr, cIndex, pIndex)
    }

    ghost predicate Valid()
      reads this, cbs, status
    {
      && RxConsistent(St(), log)
      && oldDiscards <= discards < DISCARD_RANGE && oldDiscards < DISCARD_LIMIT && cleared + discards == lost
    }

    /** The ring is set up with buffers at the given addresses. */
    constructor (addresses: seq<nat>, memory: Bytes, crcForward: bool)
      requires |addresses| == TOTAL_DESC && |memory| == RX_BUF_LENGTH
      requires forall i :: 0 <= i < TOTAL_DESC ==> addresses[i] != 0
      requires forall i, j :: 0 <= i < j < TOTAL_DESC ==> addresses[i] != addresses[j]
      ensures Valid() && log == RxLog([], 0) && lost == 0 && fresh(cbs) && fresh(status)
    {
      cbs := new nat[TOTAL_DESC](i requires 0 <= i < TOTAL_DESC => addresses[i]);
      status := new Status[TOTAL_DESC](_ => Status(0, false, false, false));
      heap := map a | a in addresses :: memory;
      readPtr, cIndex, pIndex, this.crcForward := 0, 0, 0, crcForward;
      discards, oldDiscards, lost, cleared := 0, 0, 0, 0;
      log := RxLog([], 0);
      new;
      assert cbs[..] == addresses;
    }

    /** The hardware receives a frame, if the ring has room. */
    method Produce(f: Frame, slot: nat)
      requires Valid() && Deliverable(f) && |log.frames| < log.consumed + TOTAL_DESC && slot == RxSlot(|log.frames|)
      modifies `heap, `pIndex, `log, status
      ensures Valid() && log == old(log).(frames := old(log).frames + [f])
    {
      ProduceKeepsConsistent(St(), log, f);
      heap := heap[cbs[slot] := f.data + heap[cbs[slot]][|f.data|..]];
      status[slot] := Status(|f.data|, f.startOfPacket, f.endOfPacket, f.error);
      pIndex := (pIndex + 1) % INDEX_RANGE;
      assert St() == AfterProduce(old(St()), slot, f);
      log := log.(frames := log.frames + [f]);
    }

    /** The hardware receives a frame and finds the ring full. */
    method Discard()
      requires Valid() && |log.frames| == log.consumed + TOTAL_DESC && discards < DISCARD_RANGE - 1
      modifies `discards, `lost
      ensures Valid() && lost == old(lost) + 1 && log == old(log)
    {
      discards, lost := discards + 1, lost + 1;
    }

    /** Takes in the counter of the hardware, and clears it before it can overflow. */
    method CountDiscards()
      requires Valid()
      modifies `discards, `oldDiscards, `cleared
      ensures Valid() && oldDiscards == discards && cleared + oldDiscards == lost
    {
      var more := discards;
      if more > oldDiscards {
        more := more - oldDiscards;
        oldDiscards := oldDiscards + more;
        if oldDiscards >= DISCARD_LIMIT {
          oldDiscards := 0;
          discards, cleared := 0, cleared + discards;
        }
      }
    }

    /**
     Takes the next frame out of the ring. `address` is the new buffer, or 0 if there is none, and `memory`
     what it happens to hold. Frames that are damaged, or for which there is no new buffer, are dropped; of any
     other the caller gets all bytes but the two in front and, if the hardware forwards it, the checksum behind.
     */
    method ReceiveFrame(address: nat, memory: Bytes) returns (result: Option<Bytes>)
      requires Valid() && (address != 0 ==> address !in heap && |memory| == RX_BUF_LENGTH)
      modifies this, cbs
      ensures Valid() && oldDiscards == discards && cleared + oldDiscards == lost == old(lost)
      ensures if old(log).consumed == |old(log).frames| then result == None && log == old(log)
              else
                var f := old(log).frames[old(log).consumed];
                && log == old(log).(consumed := old(log).consumed + 1)
                && (result.Some? <==> address != 0 && f.startOfPacket && f.endOfPacket && !f.error)
                && (result.Some? ==>
                      && |result.value| == |f.data| - 2 - (if crcForward then 4 else 0)
                      && forall i :: 0 <= i < |result.value| ==> result.value[i] == f.data[2 + i])
    {
      result := None;
      CountDiscards();
      var ready := (pIndex - cIndex) % INDEX_RANGE;
      CountInFlight(|log.frames|, log.consumed);
      if ready > 0 {
        result := TakeFrame(address, memory);
      }
    }

    /** What is done with a frame that is ready. */
    method TakeFrame(address: nat, memory: Bytes) returns (result: Option<Bytes>)
      requires Valid() && log.consumed < |log.frames| && (address != 0 ==> address !in heap && |memory| == RX_BUF_LENGTH)
      modifies `heap, `readPtr, `cIndex, `log, cbs
      ensures Valid() && log == old(log).(consumed := old(log).consumed + 1)
      ensures var f := old(log).frames[old(log).consumed];
              && (result.Some? <==> address != 0 && f.startOfPacket && f.endOfPacket && !f.error)
              && (result.Some? ==>
                    && |result.value| == |f.data| - 2 - (if crcForward then 4 else 0)
                    && forall i :: 0 <= i < |result.value| ==> result.value[i] == f.data[2 + i])
    {
      hide RxSlot;
      result := None;
      ghost var f := log.frames[log.consumed];
      assert Waiting(log, log.consumed) && Waits(St(), log, log.consumed);
      if address != 0 {
        var rxBuffer := Refill(address, memory);
        result := Extract(rxBuffer, status[readPtr], f);
      } else {
        assert forall k: nat :: log.consumed < k < |log.frames| ==> Waiting(log, k);
      }
      AdvanceKeepsConsistent(old(St()), log, St());
      Advance();
      log := log.(consumed := log.consumed + 1);
    }

    /** Exchanges the buffer of the next slot for a new one, whose old contents are then freed by the caller. */
    method Refill(address: nat, memory: Bytes) returns (rxBuffer: Bytes)
      requires Valid() && log.consumed < |log.frames|
      requires address != 0 && address !in heap && |memory| == RX_BUF_LENGTH
      modifies `heap, cbs
      ensures rxBuffer == old(heap[cbs[readPtr]]) && St() == AfterExchange(old(St()), readPtr, address, memory)
      ensures Owned(cbs[..], heap) && forall k: nat :: log.consumed < k < |log.frames| ==> Waits(St(), log, k)
    {
      ghost var s := St();
      forall k: nat | log.consumed < k < |log.frames|
        ensures Waits(AfterExchange(s, readPtr, address, memory), log, k)
      {
        ExchangeKeepsWaiting(s, log, address, memory, k);
      }
      ExchangeKeepsOwned(s.cbs, s.heap, readPtr, address, memory);
      rxBuffer := heap[cbs[readPtr]];
      heap := heap[address := memory] - {cbs[readPtr]};
      cbs[readPtr] := address;
      assert St() == AfterExchange(s, readPtr, address, memory);
    }

    /** Copies the payload of an intact frame. */
    method Extract(rxBuffer: Bytes, d: Status, ghost f: Frame) returns (result: Option<Bytes>)
      requires Deliverable(f) && f.data <= rxBuffer && d == Status(|f.data|, f.startOfPacket, f.endOfPacket, f.error)
      ensures result.Some? <==> f.startOfPacket && f.endOfPacket && !f.error
      ensures result.Some? ==>
                && |result.value| == |f.data| - 2 - (if crcForward then 4 else 0)
                && forall i :: 0 <= i < |result.value| ==> result.value[i] == f.data[2 + i]
    {
      if !d.endOfPacket || !d.startOfPacket {
        return None;
      }
      if d.error {
        return None;
      }
      var length := d.length - LEADING_PAD;
      if crcForward {
        length := length - ETH_FCS_LEN;
      }
      assert 0 < length <= FRAME_BUFFER_SIZE;
      assert rxBuffer[..|f.data|] == f.data;
      assert rxBuffer[LEADING_PAD..LEADING_PAD + length] == f.data[LEADING_PAD..LEADING_PAD + length];
      result := Some(rxBuffer[LEADING_PAD..LEADING_PAD + length]);
    }

    method Advance()
      modifies `readPtr, `cIndex
      ensures St() == AfterAdvance(old(St()))
    {
      if readPtr < TOTAL_DESC - 1 {
        readPtr := readPtr + 1;
      } else {
        readPtr := 0;
      }
      cIndex := (cIndex + 1) % INDEX_RANGE;
    }
  }
}
