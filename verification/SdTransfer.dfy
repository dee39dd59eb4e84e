/**
 Programmed I/O of the SDHOST driver: the scatter iterator over the request's buffer and the loops that
 move one block between the buffer and the data FIFO, in bursts, under a timeout.

 What the registers show, turn by turn of the loops, is an arbitrary function; the timer ticks at least once
 whenever it is read.
 */
module SdTransfer {
  import opened Options

  type Word = bv32

  datatype Error = NoError | EILSEQ | ETIMEDOUT | EINVAL

  /** The bits of the host status register that the driver looks at. */
  datatype Status = Status(busy: bool, block: bool, data: bool, rewTimeOut: bool, cmdTimeOut: bool,
                           crc16: bool, crc7: bool, fifo: bool)
  {
    predicate HasError() {
      rewTimeOut || cmdTimeOut || crc16 || crc7 || fifo
    }
  }

  /** Every bit but those of the three interrupts tells of an error. */
  lemma HasErrorMeans(s: Status)
    ensures s.HasError() <==> s != Status(s.busy, s.block, s.data, false, false, false, false, false)
  {
  }

  const SDDATA_FIFO_PIO_BURST: nat := 8
  const SDDATA_FIFO_WORDS: nat := 16
  const WORD_BYTES: nat := 4

  /** The scatter iterator: where the current piece starts, its length, and how much of it is used up. */
  datatype Iterator = Iterator(addr: nat, length: nat, consumed: nat)
  {
    /** The iterator stands at byte `offset`, a word boundary, and `rest` bytes follow. */
    predicate At(offset: nat, rest: nat) {
      addr + consumed == offset && length == consumed + rest && offset % WORD_BYTES == 0
    }
  }

  // ---------------------------------------------------------------- the hardware as the loops see it

  type Held = w: nat | w < 32

  /** What one turn reads: the words in the FIFO, whether its state machine is in an expected state, the status, and how long the clock took. */
  datatype Reading = Reading(held: Held, expected: bool, status: Status, elapsed: nat)
  {
    /** How many words the FIFO has for a read, or has room for in a write. */
    function Ready(read: bool): int {
      if read then held else SDDATA_FIFO_WORDS - held
    }

    predicate Fails() {
      !expected && status.HasError()
    }
  }

  /** Where a loop gave up: at that turn, begun and ended at those ticks. */
  datatype Cut = Cut(turn: nat, started: nat, ended: nat)

  /** Words move in bursts of eight, fewer only at the end of the block. */
  function Offered(ready: int, left: nat): (n: nat)
    ensures n <= left
    ensures n == if ready < 8 && ready < left then 0 else if ready > left then left else ready
  {
    var burst := if SDDATA_FIFO_PIO_BURST > left then left else SDDATA_FIFO_PIO_BURST;
    if ready < burst then 0 else if ready > left then left else ready
  }

  datatype Hardware = Hardware(turns: nat -> Reading, timeout: nat)
  {
    /** The FIFO failed in that turn, or the loop had taken too long. */
    predicate GaveUp(c: Cut) {
      turns(c.turn).Fails() || c.ended > c.started + timeout
    }

    /** How many of `count` words move in the turns from `first` up to `last`. */
    function MovedBy(read: bool, first: nat, last: nat, count: nat): (n: nat)
      requires first <= last
      ensures n <= count
      decreases last
    {
      if first == last then 0
      else
        var n := MovedBy(read, first, last - 1, count);
        n + Offered(turns(last - 1).Ready(read), count - n)
    }
  }

  /** n words starting at `start` went through the FIFO in order, and nothing else of the buffer changed. */
  ghost predicate Moved(before: seq<Word>, after: seq<Word>, fifoBefore: seq<Word>, fifoAfter: seq<Word>, start: nat, n: nat) {
    && start + n <= |before| == |after|
    && after[..start] == before[..start] && after[start + n..] == before[start + n..]
    && fifoAfter == fifoBefore + after[start..start + n]
  }

  lemma MovedThen(s0: seq<Word>, s1: seq<Word>, s2: seq<Word>, f0: seq<Word>, f1: seq<Word>, f2: seq<Word>,
                  start: nat, m: nat, n: nat)
    requires Moved(s0, s1, f0, f1, start, m) && Moved(s1, s2, f1, f2, start + m, n)
    ensures Moved(s0, s2, f0, f2, start, m + n)
  {
    assert s2[..start] == s2[..start + m][..start] == s1[..start + m][..start] == s1[..start];
    assert s2[start + m + n..] == s1[start + m + n..] == s1[start + m..][n..] == s0[start + m..][n..] == s0[start + m + n..];
    assert s2[start..start + m] == s2[..start + m][start..] == s1[..start + m][start..] == s1[start..start + m];
    assert s2[start..start + m + n] == s2[start..start + m] + s2[start + m..start + m + n];
  }

  lemma NothingMovedYet(sg: seq<Word>, fifo: seq<Word>, start: nat)
    requires start <= |sg|
    ensures Moved(sg, sg, fifo, fifo, start, 0)
  {
  }

  class Transfer {
    const hw: Hardware
    var sg: array<Word>
    var iter: Iterator
    var ticks: nat
    var turn: nat               // how often the loops have looked at the registers
    ghost var fifo: seq<Word>   // every word that went through the data register, in order

    constructor (hw: Hardware)
      ensures this.hw == hw && fresh(sg) && fifo == [] && ticks == turn == 0
    {
      this.hw := hw;
      sg := new Word[0];
      iter := Iterator(0, 0, 0);
      ticks, turn := 0, 0;
      fifo := [];
    }

    method ReadTicks() returns (now: nat)
      modifies `ticks, `turn
      ensures now == ticks == old(ticks) + 1 + hw.turns(old(turn)).elapsed && turn == old(turn) + 1
    {
      ticks, turn := ticks + 1 + hw.turns(turn).elapsed, turn + 1;
      now := ticks;
    }

    method MiterStart(buffer: array<Word>, size: nat)
      modifies `sg, `iter, `fifo
      ensures sg == buffer && iter == Iterator(0, size, 0) && fifo == []
    {
      sg := buffer;
      iter := Iterator(0, size, 0);
      fifo := [];
    }

    method MiterNext() returns (more: bool)
      requires iter.consumed <= iter.length
      modifies `iter
      ensures more == (old(iter).length > old(iter).consumed)
      ensures more ==> iter == Iterator(old(iter).addr + old(iter).consumed, old(iter).length - old(iter).consumed, 0)
    {
      iter := iter.(length := iter.length - iter.consumed);
      if iter.length == 0 {
        return false;
      }
      iter := iter.(addr := iter.addr + iter.consumed);
      iter := iter.(consumed := 0);
      more := true;
    }

    /** Moves words from the data register into the buffer. */
    method Drain(start: nat, count: nat)
      requires start + count <= sg.Length
      modifies `fifo, sg
      ensures Moved(old(sg[..]), sg[..], old(fifo), fifo, start, count)
    {
      var buf, words := start, count;
      while words > 0
        invariant 0 <= words <= count && buf == start + (count - words)
        invariant Moved(old(sg[..]), sg[..], old(fifo), fifo, start, count - words)
      {
        var word: Word := *;
        sg[buf] := word;
        fifo := fifo + [word];
        buf := buf + 1;
        words := words - 1;
      }
    }

    /** Moves words from the buffer into the data register. */
    method Fill(start: nat, count: nat)
      requires start + count <= sg.Length
      modifies `fifo
      ensures Moved(sg[..], sg[..], old(fifo), fifo, start, count)
    {
      var buf, words := start, count;
      while words > 0
        invariant 0 <= words <= count && buf == start + (count - words)
        invariant Moved(sg[..], sg[..], old(fifo), fifo, start, count - words)
      {
        fifo := fifo + [sg[buf]];
        buf := buf + 1;
        words := words - 1;
      }
    }

    /** Reads one block. It is cut short only by a hardware error or the timeout. */
    method ReadBlockPio(blksz: nat, ghost offset: nat, ghost rest: nat) returns (error: Error, ghost cut: Option<Cut>)
      requires 0 < blksz <= rest && iter.At(offset, rest) && offset + rest < WORD_BYTES * (sg.Length + 1)
      modifies `iter, `ticks, `turn, `fifo, sg
      ensures error == if blksz % WORD_BYTES == 0 then NoError else EINVAL
      ensures BlockDone(old(sg[..]), old(fifo), true, old(turn), old(ticks), offset, rest, blksz, error, cut)
    {
      hide Moved;
      var blksize := blksz;
      error, cut := NoError, None;
      var start := ReadTicks();
      while blksize > 0
        invariant blksize == 0 || blksize == blksz
        invariant error == NoError && (blksize == 0 ==> blksz % WORD_BYTES == 0)
        invariant blksize == blksz ==>
                    && cut == None && iter == old(iter) && sg[..] == old(sg[..]) && fifo == old(fifo)
                    && turn == old(turn) + 1 && old(ticks) < start == ticks
        invariant blksize == 0 ==> BlockDone(old(sg[..]), old(fifo), true, old(turn), old(ticks), offset, rest, blksz, error, cut)
      {
        var more := MiterNext();
        if !more {
          error := EINVAL;
          break;
        }
        var len := if iter.length < blksize then iter.length else blksize;
        if len % WORD_BYTES != 0 {
          error := EINVAL;
          break;
        }
        blksize := blksize - len;
        iter := iter.(consumed := len);
        var cutShort := ReadWords(iter.addr / WORD_BYTES, len / WORD_BYTES, start);
        if cutShort {
          cut := Some(Cut(turn - 1, start, ticks));
          break;
        }
      }
    }

    method WriteBlockPio(blksz: nat, ghost offset: nat, ghost rest: nat) returns (error: Error, ghost cut: Option<Cut>)
      requires 0 < blksz <= rest && iter.At(offset, rest) && offset + rest < WORD_BYTES * (sg.Length + 1)
      modifies `iter, `ticks, `turn, `fifo
      ensures error == if blksz % WORD_BYTES == 0 then NoError else EINVAL
      ensures BlockDone(sg[..], old(fifo), false, old(turn), old(ticks), offset, rest, blksz, error, cut)
    {
      hide Moved;
      var blksize := blksz;
      error, cut := NoError, None;
      var start := ReadTicks();
      while blksize > 0
        invariant blksize == 0 || blksize == blksz
        invariant error == NoError && (blksize == 0 ==> blksz % WORD_BYTES == 0)
        invariant blksize == blksz ==>
                    cut == None && iter == old(iter) && fifo == old(fifo) && turn == old(turn) + 1 && old(ticks) < start == ticks
        invariant blksize == 0 ==> BlockDone(sg[..], old(fifo), false, old(turn), old(ticks), offset, rest, blksz, error, cut)
      {
        var more := MiterNext();
        if !more {
          error := EINVAL;
          break;
        }
        var len := if iter.length < blksize then iter.length else blksize;
        if len % WORD_BYTES != 0 {
          error := EINVAL;
          break;
        }
        blksize := blksize - len;
        iter := iter.(consumed := len);
        var cutShort := WriteWords(iter.addr / WORD_BYTES, len / WORD_BYTES, start);
        if cutShort {
          cut := Some(Cut(turn - 1, start, ticks));
          break;
        }
      }
    }

    /**
     The block at `offset` is done since turn `first`: the words that the FIFO offered went through, which are
     all unless the loop gave up; after EINVAL none did.
     */
    ghost predicate BlockDone(sg0: seq<Word>, fifo0: seq<Word>, read: bool, first: nat, ticks0: nat,
                              offset: nat, rest: nat, blksz: nat, error: Error, cut: Option<Cut>)
      requires blksz <= rest
      reads this, sg
    {
      && first < turn && ticks0 < ticks
      && if error == NoError then
           && blksz % WORD_BYTES == 0 && iter.At(offset + blksz, rest - blksz)
           && (var n := hw.MovedBy(read, first + 1, turn, blksz / WORD_BYTES);
               (cut.Some? <==> n < blksz / WORD_BYTES) && Moved(sg0, sg[..], fifo0, fifo, offset / WORD_BYTES, n))
           && (cut.Some? ==> hw.GaveUp(cut.value) && ticks0 < cut.value.started && cut.value.ended == ticks && cut.value.turn == turn - 1)
         else
           cut == None && sg[..] == sg0 && fifo == fifo0
    }

    /** One look at the FIFO: how many words the next burst moves, and whether the loop gives up. */
    method Burst(ready: int, copyWords: nat, start: nat) returns (count: nat, cutShort: bool)
      requires copyWords > 0 && start <= ticks
      modifies `ticks, `turn
      ensures Turned(old(turn), old(ticks), ready, copyWords, start, count, cutShort)
    {
      var burstWords := SDDATA_FIFO_PIO_BURST;
      if burstWords > copyWords {
        burstWords := copyWords;
      }
      var reading := hw.turns(turn);
      if ready < burstWords {
        if !reading.expected {
          if reading.status.HasError() {
            turn := turn + 1;
            return 0, true;
          }
        }
        var now := ReadTicks();
        return 0, now - start > hw.timeout;
      }
      turn := turn + 1;
      return if ready > copyWords then copyWords else ready, false;
    }

    /**
     One turn of a loop: a burst if the FIFO is ready for it. Otherwise the loop gives up on a hardware error,
     or when it has taken too long.
     */
    ghost predicate Turned(turn0: nat, ticks0: nat, ready: int, left: nat, start: nat, count: nat, cutShort: bool)
      reads this
    {
      && turn == turn0 + 1 && count == Offered(ready, left)
      && if count > 0 then !cutShort && ticks == ticks0
         else if hw.turns(turn0).Fails() then cutShort && ticks == ticks0
         else cutShort == (ticks - start > hw.timeout) && ticks == ticks0 + 1 + hw.turns(turn0).elapsed
    }

    /** One turn of the read loop: another burst behind `done` words, of no more than the FIFO holds, or a look at the time. */
    method ReadBurst(buf: nat, done: nat, left: nat, start: nat, ghost sg0: seq<Word>, ghost fifo0: seq<Word>)
      returns (words: nat, cutShort: bool)
      requires 0 < left && buf + done + left <= sg.Length && Moved(sg0, sg[..], fifo0, fifo, buf, done) && start <= ticks
      modifies `ticks, `turn, `fifo, sg
      ensures Turned(old(turn), old(ticks), hw.turns(old(turn)).Ready(true), left, start, words, cutShort)
      ensures words <= left && Moved(sg0, sg[..], fifo0, fifo, buf, done + words) && words <= hw.turns(old(turn)).held
    {
      var held := hw.turns(turn).held;
      words, cutShort := Burst(held, left, start);
      ghost var sg1, fifo1 := sg[..], fifo;
      Drain(buf + done, words);
      MovedThen(sg0, sg1, sg[..], fifo0, fifo1, fifo, buf, done, words);
    }

    /** One turn of the write loop; the FIFO has room for the words. */
    method WriteBurst(buf: nat, done: nat, left: nat, start: nat, ghost fifo0: seq<Word>) returns (words: nat, cutShort: bool)
      requires 0 < left && buf + done + left <= sg.Length && Moved(sg[..], sg[..], fifo0, fifo, buf, done) && start <= ticks
      modifies `ticks, `turn, `fifo
      ensures Turned(old(turn), old(ticks), hw.turns(old(turn)).Ready(false), left, start, words, cutShort)
      ensures words <= left && Moved(sg[..], sg[..], fifo0, fifo, buf, done + words) && (words > 0 ==> hw.turns(old(turn)).held + words <= 16)
    {
      var held := hw.turns(turn).held;
      words, cutShort := Burst(SDDATA_FIFO_WORDS - held, left, start);
      ghost var fifo1 := fifo;
      Fill(buf + done, words);
      MovedThen(sg[..], sg[..], sg[..], fifo0, fifo1, fifo, buf, done, words);
    }

    /** Of `count` words the loop has moved what the FIFO offered in its turns; it goes on unless it gave up. */
    ghost predicate Looped(read: bool, first: nat, count: nat, left: nat, start: nat, cutShort: bool)
      reads this
    {
      && first <= turn && start <= ticks && left <= count && left == count - hw.MovedBy(read, first, turn, count)
      && (cutShort ==> left > 0 && first < turn && hw.GaveUp(Cut(turn - 1, start, ticks)))
    }

    method ReadWords(buf: nat, count: nat, start: nat) returns (cutShort: bool)
      requires buf + count <= sg.Length && start <= ticks
      modifies `ticks, `turn, `fifo, sg
      ensures old(turn) <= turn && (cutShort <==> hw.MovedBy(true, old(turn), turn, count) < count)
      ensures Moved(old(sg[..]), sg[..], old(fifo), fifo, buf, hw.MovedBy(true, old(turn), turn, count))
      ensures start <= ticks && (cutShort ==> old(turn) < turn && hw.GaveUp(Cut(turn - 1, start, ticks)))
    {
      hide Moved, Offered;
      NothingMovedYet(sg[..], fifo, buf);
      var copyWords := count;
      cutShort := false;
      while copyWords > 0 && !cutShort
        invariant Looped(true, old(turn), count, copyWords, start, cutShort)
        invariant Moved(old(sg[..]), sg[..], old(fifo), fifo, buf, count - copyWords)
        decreases copyWords, !cutShort, start + hw.timeout - ticks
      {
        var words;
        words, cutShort := ReadBurst(buf, count - copyWords, copyWords, start, old(sg[..]), old(fifo));
        copyWords := copyWords - words;
      }
    }

    method WriteWords(buf: nat, count: nat, start: nat) returns (cutShort: bool)
      requires buf + count <= sg.Length && start <= ticks
      modifies `ticks, `turn, `fifo
      ensures old(turn) <= turn && (cutShort <==> hw.MovedBy(false, old(turn), turn, count) < count)
      ensures Moved(sg[..], sg[..], old(fifo), fifo, buf, hw.MovedBy(false, old(turn), turn, count))
      ensures start <= ticks && (cutShort ==> old(turn) < turn && hw.GaveUp(Cut(turn - 1, start, ticks)))
    {
      hide Moved, Offered;
      NothingMovedYet(sg[..], fifo, buf);
      var copyWords := count;
      cutShort := false;
      while copyWords > 0 && !cutShort
        invariant Looped(false, old(turn), count, copyWords, start, cutShort)
        invariant Moved(sg[..], sg[..], old(fifo), fifo, buf, count - copyWords)
        decreases copyWords, !cutShort, start + hw.timeout - ticks
      {
        var words;
        words, cutShort := WriteBurst(buf, count - copyWords, copyWords, start, old(fifo));
        copyWords := copyWords - words;
      }
    }
  }

  // ---------------------------------------------------------------- a loop that gives up

  const QUIET: Status := Status(false, false, false, false, false, false, false, false)

  /** A FIFO that is empty for good. */
  ghost predicate StaysEmpty(hw: Hardware) {
    forall k :: hw.turns(k).held == 0
  }

  lemma {:induction false} EmptyMovesNothing(hw: Hardware, first: nat, last: nat, count: nat)
    requires StaysEmpty(hw) && first <= last
    ensures hw.MovedBy(true, first, last, count) == 0
    decreases last
  {
    if first < last {
      EmptyMovesNothing(hw, first, last - 1, count);
      assert hw.turns(last - 1).held == 0;
    }
  }

  /** The loop that reads a block from it gives up without a word, and that is no error. */
  method EmptyFifoRun(pio: Transfer, blksz: nat, ghost offset: nat, ghost rest: nat) returns (error: Error, ghost cut: Option<Cut>)
    requires 0 < blksz <= rest && pio.iter.At(offset, rest) && offset + rest < WORD_BYTES * (pio.sg.Length + 1)
    requires StaysEmpty(pio.hw) && blksz % WORD_BYTES == 0
    modifies pio, pio.sg
    ensures error == NoError && cut.Some? && pio.hw.GaveUp(cut.value) && pio.fifo == old(pio.fifo)
  {
    hide Offered, StaysEmpty;
    ghost var first := pio.turn;
    error, cut := pio.ReadBlockPio(blksz, offset, rest);
    EmptyMovesNothing(pio.hw, first + 1, pio.turn, blksz / WORD_BYTES);
  }
}
