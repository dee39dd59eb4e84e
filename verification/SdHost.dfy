/**
 The request engine of the SDHOST driver. A request goes through its command, its data, its stop command
 and completion, driven by the requesting task and by interrupts.

 The driver holds a spin lock except while it polls for the end of a command. What runs between two
 polling windows is one step here; a routine that polls is a frame on a stack, so the steps of the task
 and of any number of interrupts interleave freely. The environment, which is an arbitrary function, tells
 for every step which one it is and what the registers show. Every routine is proved to do what its
 function in SdProtocol does, and to keep the invariants about requests and data.
 */
module SdHost {
  import opened Modular
  import opened Options
  import opened SdProtocol
  import opened SdTransfer
  import opened SdVerdict

  const MAX_BLK_SIZE: nat := 512
  const MAX_BLK_COUNT: nat := 65535
  const MAX_REQ_SIZE: nat := 524288

  /** A request that was signalled done, with the words that went over the data register and the buffer. */
  datatype Outcome = Outcome(req: Request, trace: Trace, fifo: seq<Word>, buffer: seq<Word>)

  /** One more block of w words, n of which were moved, at word o. */
  lemma BlockStreamed(sg0: seq<Word>, sg1: seq<Word>, fifo0: seq<Word>, fifo1: seq<Word>, o: nat, n: nat, w: nat, short: bool)
    requires Moved(sg0, sg1, fifo0, fifo1, o, n) && n <= w && o + w <= |sg0|
    requires if short then |fifo0| < o else fifo0 == sg0[..o]
    ensures if short || n < w then |fifo1| < o + w else fifo1 == sg1[..o + w]
  {
    if !short && n == w {
      assert sg1[..o + w] == sg1[..o] + sg1[o..o + w];
    }
  }

  lemma WordOffsets(offset: nat, blksz: nat, size: nat)
    requires offset % WORD_BYTES == 0 && blksz % WORD_BYTES == 0 && offset + blksz <= size
    ensures (offset + blksz) / WORD_BYTES == offset / WORD_BYTES + blksz / WORD_BYTES <= size / WORD_BYTES
    ensures (offset + blksz) % WORD_BYTES == 0
  {
  }

  // ---------------------------------------------------------------- checking a request

  /** The size of the data is within the limits of the host and that of the buffer, which is not empty. */
  predicate Prepared(req: Request, words: nat) {
    req.data.Some? ==>
      var d := req.data.value;
      && 0 < d.blksz <= MAX_BLK_SIZE && 0 < d.blocks <= MAX_BLK_COUNT
      && Span(d.blocks, d.blksz) <= MAX_REQ_SIZE && words == Span(d.blocks, d.blksz) / WORD_BYTES
  }

  /** What PrepareRequest accepts, the size of a buffer of sgLen bytes included; there may be no data at all. */
  predicate Acceptable(req: Request, sgLen: nat) {
    req.data.Some? ==>
      var d := req.data.value;
      d.blksz <= MAX_BLK_SIZE && d.blocks <= MAX_BLK_COUNT && Span(d.blocks, d.blksz) <= MAX_REQ_SIZE && Span(d.blocks, d.blksz) == sgLen
  }

  method PrepareRequest(req: Request, sgLen: nat) returns (error: Error)
    ensures error == if Acceptable(req, sgLen) then NoError else EINVAL
  {
    if req.data.Some? {
      var d := req.data.value;
      var size := TotalSize(d);
      if d.blksz > MAX_BLK_SIZE || d.blocks > MAX_BLK_COUNT || size > MAX_REQ_SIZE || size != sgLen {
        return EINVAL;
      }
    }
    error := NoError;
  }

  /** The scatter iterator asserts that the buffer is not empty; then there are blocks, and they are not empty either. */
  lemma AcceptableIsPrepared(req: Request, sgLen: nat)
    requires Acceptable(req, sgLen) && (req.data.Some? ==> sgLen > 0)
    ensures Prepared(req, sgLen / WORD_BYTES)
  {
    if req.data.Some? && (req.data.value.blksz == 0 || req.data.value.blocks == 0) {
      EmptySpan(req.data.value.blocks, req.data.value.blksz);
    }
  }

  lemma {:induction false} EmptySpan(k: nat, w: nat)
    requires k == 0 || w == 0
    ensures Span(k, w) == 0
  {
    if k > 0 {
      EmptySpan(k - 1, w);
    }
  }

  // ---------------------------------------------------------------- what a finished request may look like

  /** The data phase is over: without error every block was moved, and in full unless a PIO loop gave up. */
  predicate Transferred(req: Request, trace: Trace, fifo: seq<Word>, buffer: seq<Word>) {
    req.data.Some? && req.data.value.error == NoError ==>
      && trace.pios == req.data.value.blocks
      && req.data.value.bytesXfered == Span(req.data.value.blocks, req.data.value.blksz)
      && (trace.cut.Some? <==> fifo != buffer)
  }

  /**
   The commands that were written are those of the request: the stop command exactly when it was tried, and
   the register was free and the response supported at that step. A loop that is said to have given up did.
   */
  predicate Explained(env: Environment, hw: Hardware, req: Request, t: Trace) {
    && |t.sent| <= 2 && (t.sent != [] ==> SameCommand(t.sent[0], req.cmd))
    && (t.stopTried.Some? ==>
          && req.stop.Some? && t.began <= t.stopTried.value && t.sent != []
          && (|t.sent| == 2 <==> StopBegins(req.stop.value, env.Regs(t.stopTried.value))))
    && (|t.sent| == 2 ==> t.stopTried.Some? && SameCommand(t.sent[1], req.stop.value))
    && (t.cut.Some? ==> t.looks <= t.cut.value.turn && hw.GaveUp(t.cut.value))
  }

  /** The command was written, and ended with an error or was retired; everything after that follows in order. */
  predicate Carried(env: Environment, o: Outcome) {
    && o.trace.sent != []
    && (o.req.cmd.error == NoError ==> o.trace.retired)
    && (if o.trace.retired
        then Transferred(o.req, o.trace, o.fifo, o.buffer) && (o.trace.stopTried.Some? <==> o.req.data.Some? && o.req.stop.Some?)
        else o.trace.stopTried == None)
    && (|o.trace.sent| == 1 && o.trace.stopTried.Some? && !env.Regs(o.trace.stopTried.value).newFlag ==>
          o.req.stop.Some? && o.req.stop.value.error == EINVAL)
    && (o.req.data.Some? ==> o.trace.pios <= o.req.data.value.blocks)
  }

  /** What a request is reported as that the controller did not take. */
  function Refused(asked: Request, regs: Registers): Request {
    AsReported(WithCommandError(WithoutErrors(asked), Main, Refusal(asked, regs)))
  }

  /** When the controller takes a command, and what is returned if it does not. */
  lemma RequestMeans(c: Command, data: Option<Data>, regs: Registers)
    ensures Begins(RequestFor(c, data), regs)
            <==> (data.Some? ==> IsPowerOf2(data.value.blksz)) && regs.ready && !regs.newFlag && !(c.long && c.busy)
    ensures !Begins(RequestFor(c, data), regs) ==>
              ResultOf(Refused(RequestFor(c, data), regs))
              == if data.Some? && !IsPowerOf2(data.value.blksz) then EINVAL else if !regs.ready then EILSEQ
                 else if !regs.newFlag then EINVAL
                 else if c.opcode == 1 || c.opcode == 5 || c.opcode == 41 then ETIMEDOUT else NoError
  {
    hide IsPowerOf2;
  }

  /** An outcome of the request `asked`. It was carried out exactly if the controller took it where it began. */
  predicate Good(env: Environment, hw: Hardware, asked: Request, o: Outcome) {
    && SameButResults(asked, o.req) && Explained(env, hw, o.req, o.trace)
    && if Begins(asked, env.Regs(o.trace.began)) then Carried(env, o)
       else o.trace == Untouched(o.trace.began, o.trace.looks) && o.req == Refused(asked, env.Regs(o.trace.began))
  }

  /** Every request that was signalled came to a good outcome. */
  ghost predicate AllGood(env: Environment, hw: Hardware, issued: seq<Request>, finished: seq<Outcome>)
    requires |finished| <= |issued|
    decreases |finished|
  {
    finished == [] ||
    var n := |finished| - 1;
    Good(env, hw, issued[n], finished[n]) && AllGood(env, hw, issued, finished[..n])
  }

  lemma {:induction false} AllGoodMeans(env: Environment, hw: Hardware, issued: seq<Request>, finished: seq<Outcome>, i: nat)
    requires |finished| <= |issued| && AllGood(env, hw, issued, finished) && i < |finished|
    ensures Good(env, hw, issued[i], finished[i])
    decreases |finished|
  {
    if i < |finished| - 1 {
      AllGoodMeans(env, hw, issued, finished[..|finished| - 1], i);
    }
  }

  lemma {:induction false} OneMoreIssued(env: Environment, hw: Hardware, issued: seq<Request>, finished: seq<Outcome>, req: Request)
    requires |finished| <= |issued| && AllGood(env, hw, issued, finished)
    ensures AllGood(env, hw, issued + [req], finished)
    decreases |finished|
  {
    if finished != [] {
      OneMoreIssued(env, hw, issued, finished[..|finished| - 1], req);
    }
  }

  lemma OneMoreFinished(env: Environment, hw: Hardware, issued: seq<Request>, finished: seq<Outcome>, o: Outcome)
    requires |finished| < |issued| && AllGood(env, hw, issued, finished) && Good(env, hw, issued[|finished|], o)
    ensures AllGood(env, hw, issued, finished + [o])
  {
    assert (finished + [o])[..|finished|] == finished;
  }

  lemma SameBegins(a: Request, b: Request, regs: Registers)
    requires SameButResults(a, b)
    ensures Begins(a, regs) == Begins(b, regs)
  {
  }

  lemma SentIsExplained(env: Environment, hw: Hardware, req: Request, req': Request, t: Trace, slot: Slot, now: Now)
    requires SameButResults(req, req') && Explained(env, hw, req, t) && now.regs == env.Regs(now.turn)
    requires match slot
             case Main => t.sent == [] && t.stopTried == None
             case Stopping => req.stop.Some? && |t.sent| == 1 && t.began <= now.turn && StopBegins(req.stop.value, now.regs)
             case Nothing => false
    ensures var t1 := Tried(t, slot, now); Explained(env, hw, req', t1.(sent := t1.sent + [CommandOf(req, slot)]))
  {
  }

  lemma ErrorIsExplained(env: Environment, hw: Hardware, req: Request, slot: Slot, error: Error, t: Trace)
    requires Explained(env, hw, req, t) && (slot == Stopping ==> req.stop.Some?)
    ensures Explained(env, hw, WithCommandError(req, slot, error), t)
  {
  }

  /** b is the request a with errors noted: in its commands, or in its data. */
  predicate Fails(a: Request, b: Request) {
    && b.cmd == a.cmd.(error := b.cmd.error)
    && a.stop.Some? == b.stop.Some? && (a.stop.Some? ==> b.stop.value == a.stop.value.(error := b.stop.value.error))
    && a.data.Some? == b.data.Some?
    && (a.data.Some? ==> b.data == a.data || (b.data.value.error != NoError && b.data.value == a.data.value.(error := b.data.value.error)))
  }

  lemma FailureIsExplained(env: Environment, hw: Hardware, a: Request, b: Request, t: Trace)
    requires Explained(env, hw, a, t) && Fails(a, b)
    ensures Explained(env, hw, b, t) && SameButResults(a, b)
  {
  }

  /** Reporting a faked timeout changes nothing of this. */
  lemma ReportedIsCarried(env: Environment, hw: Hardware, asked: Request, o: Outcome)
    requires SameButResults(asked, o.req) && Explained(env, hw, o.req, o.trace) && Carried(env, o)
    requires Begins(asked, env.Regs(o.trace.began))
    ensures Good(env, hw, asked, o.(req := AsReported(o.req)))
  {
  }

  /** The whole buffer went over the data register, in order, unless a loop gave up, and the stop command was sent if the register was free. */
  predicate Delivered(env: Environment, hw: Hardware, o: Outcome) {
    && o.req.data.Some? && o.trace.sent != [] && o.trace.pios == o.req.data.value.blocks
    && (o.fifo == o.buffer <==> o.trace.cut == None) && (o.trace.cut.Some? ==> hw.GaveUp(o.trace.cut.value))
    && (o.req.stop.Some? ==> o.trace.stopTried.Some? && (|o.trace.sent| == 2 <==> !env.Regs(o.trace.stopTried.value).newFlag))
  }

  /**
   Main result. When Command returns success, every block of the buffer was moved, once and in order, unless a
   PIO loop gave up; or the command was never written because the previous one was still in progress.
   */
  lemma CompleteOrNeverStarted(env: Environment, hw: Hardware, asked: Request, o: Outcome)
    requires Good(env, hw, asked, o) && ResultOf(o.req) == NoError && o.req.data.Some?
    ensures if Begins(asked, env.Regs(o.trace.began)) then Delivered(env, hw, o)
            else o.trace.sent == [] && o.trace.pios == 0 && env.Regs(o.trace.began).newFlag
  {
  }

  // ---------------------------------------------------------------- the driver

  method TotalSize(d: Data) returns (size: nat)
    ensures size == Span(d.blocks, d.blksz)
  {
    SpanIsProduct(d.blocks, d.blksz);
    size := d.blksz * d.blocks;
  }

  class SdHost {
    const env: Environment
    const pio: Transfer
    var turn: nat            // the step that the environment is at
    var mrq: Option<Request>
    var cmd: Slot
    var data: bool           // host->data is set; it is the data of mrq
    var dataComplete: bool
    var useBusy: bool
    var dataIrpt: bool       // SDHCFG_DATA_IRPT_EN
    var blockIrpt: bool      // SDHCFG_BLOCK_IRPT_EN
    var blocks: nat
    var sg: array<Word>      // the buffer of mrq's data
    var frames: seq<Rest>    // the routines that are polling, in the order in which they began
    var signalled: Option<Request>   // the request that was signalled done last
    ghost var trace: Trace
    ghost var seen: Seen
    ghost var issued: seq<Request>  // every request that Request was called with
    ghost var finished: seq<Outcome>

    constructor (env: Environment, hw: Hardware)
      ensures Valid() && this.env == env && pio.hw == hw && fresh(pio) && fresh(pio.sg)
      ensures turn == 0 && mrq == None && frames == [] && issued == [] && finished == []
    {
      this.env := env;
      pio := new Transfer(hw);
      turn := 0;
      mrq, cmd, data, dataComplete, useBusy := None, Nothing, false, false, false;
      dataIrpt, blockIrpt, blocks := false, false, 0;
      sg := new Word[0];
      signalled := None;
      frames, trace, seen, issued, finished := [], Untouched(0, 0), UNSEEN, [], [];
    }

    ghost function St(): State
      reads this
    {
      State(mrq, cmd, data, dataComplete, useBusy, dataIrpt, blockIrpt, blocks, frames, signalled, trace, seen)
    }

    /** What the present step goes by. */
    ghost function Here(): Now
      reads `turn
    {
      Now(turn, env.Regs(turn))
    }

    // ------------------------------------------------------------ invariants

    /** Requests are neither lost nor signalled twice; every one that was signalled came to a good outcome. */
    ghost predicate Conserved()
      reads this
    {
      && |finished| + (if mrq.Some? then 1 else 0) == |issued|
      && AllGood(env, pio.hw, issued, finished)
      && (mrq.Some? ==> SameButResults(issued[|finished|], mrq.value) && Explained(env, pio.hw, mrq.value, trace))
      && (finished != [] ==> signalled == Some(finished[|finished| - 1].req))
    }

    /** What the trace tells lies between the request and now. */
    ghost predicate Timely()
      reads this, pio
    {
      && trace.began <= turn && trace.looks <= pio.turn
      && (trace.stopTried.Some? ==> trace.stopTried.value <= turn)
      && (trace.cut.Some? ==> trace.cut.value.turn < pio.turn)
      && (trace.busyError.Some? ==> trace.began < trace.busyError.value <= turn && BusyErrorAt(trace.busyError.value))
    }

    /** A busy interrupt with an error came in that step. */
    ghost predicate BusyErrorAt(k: nat) {
      env.At(k).Interrupt? && env.At(k).mask.busy && env.At(k).mask.HasError()
    }

    /** After blocks worth `offset` of `size` bytes: where the iterator stands and what went through the FIFO. */
    ghost predicate StreamedTo(offset: nat, size: nat)
      reads this, pio, pio.sg
    {
      && offset <= size && pio.iter.At(offset, size - offset)
      && pio.sg.Length == size / WORD_BYTES
      && (if trace.cut.Some? then |pio.fifo| < offset / WORD_BYTES else pio.fifo == pio.sg[..offset / WORD_BYTES])
    }

    ghost predicate Streamed(d: Data)
      reads this, pio, pio.sg
    {
      && trace.pios <= d.blocks
      && (d.error == NoError ==> StreamedTo(Span(trace.pios, d.blksz), Span(d.blocks, d.blksz)))
    }

    /** Which interrupts are enabled while data is transferred, and how the countdown stands. */
    ghost predicate Transferring(d: Data)
      reads this
    {
      && 0 < blocks <= d.blocks && 0 < d.blksz
      && dataIrpt == !blockIrpt && (d.read ==> dataIrpt)
      && trace.pios == d.blocks - blocks + (if blockIrpt then 1 else 0)
      && (!d.read && dataIrpt ==> blocks == d.blocks)
    }

    /** The data phase is over. */
    ghost predicate Done()
      requires mrq.Some?
      reads this, pio, pio.sg
    {
      && mrq.value.data.Some? && trace.pios <= mrq.value.data.value.blocks
      && Transferred(mrq.value, trace, pio.fifo, pio.sg[..])
    }

    ghost predicate DataPhase()
      requires mrq.Some?
      reads this, pio, pio.sg
    {
      && mrq.value.data.Some?
      && (if dataComplete then !dataIrpt && !blockIrpt && Done()
          else Streamed(mrq.value.data.value) && Transferring(mrq.value.data.value))
    }

    ghost predicate CommandPhase()
      requires mrq.Some?
      reads this, pio, pio.sg
    {
      match cmd
      case Main => |trace.sent| == 1 && !trace.retired && trace.stopTried == None && (data <==> mrq.value.data.Some?) && (!data ==> trace.pios == 0)
      case Nothing => |trace.sent| == 1 && trace.retired && trace.stopTried == None && data && !dataComplete
      case Stopping => && trace.retired && trace.stopTried.Some? && |trace.sent| == 2
                       && !data && mrq.value.stop.Some? && Done()
    }

    /** The controller has taken the command of the current request. */
    ghost predicate Taken()
      reads this
    {
      mrq.Some? && trace.sent != [] && Begins(mrq.value, env.Regs(trace.began))
    }

    ghost predicate Active()
      reads this, pio, pio.sg
    {
      Taken() && CommandPhase() && (data ==> DataPhase())
    }

    ghost predicate Idle()
      reads this
    {
      mrq == None && cmd == Nothing && !data
    }

    /** What holds whenever the lock changes hands, apart from the frames. */
    ghost predicate Core()
      reads this, pio, pio.sg
    {
      Conserved() && Timely() && (Idle() || Active())
    }

    ghost predicate Valid()
      reads this, pio, pio.sg
    {
      Core() && OnePoller(St()) && StuckByError()
    }

    /** Only a busy interrupt with an error, seen or still to be served, leaves a request stuck. */
    ghost predicate StuckByError()
      reads this
    {
      && (Stuck() ==> trace.busyError.Some?)
      && (frames != [] && frames[0].BusyThenData? && frames[0].mask.busy && frames[0].mask.HasError() ==> trace.busyError.Some?)
    }

    /** The request waits for nothing any more. */
    ghost predicate Stuck()
      reads this
    {
      St().Stuck()
    }

    /** The request is polled, or waits for an interrupt that is enabled. */
    ghost predicate Waiting()
      reads this
    {
      mrq.Some? && (frames != [] || St().BusyWaiting() || (cmd == Nothing && data && (dataIrpt || blockIrpt)))
    }

    /** The data of the current request goes into the buffer. */
    ghost predicate Reading()
      reads this
    {
      mrq.Some? && mrq.value.data.Some? && mrq.value.data.value.read
    }

    /** The trace and the buffer of the outcome are those of now. */
    ghost predicate AsItIs(o: Outcome)
      reads this, pio, pio.sg
    {
      o.trace == trace && o.buffer == pio.sg[..]
    }

    /**
     What every step keeps: no request is added, those that were signalled stay, one that is signalled now is
     recorded with what it came to, and only a read changes the buffer.
     */
    twostate predicate Onward()
      reads this, pio, pio.sg
    {
      && issued == old(issued) && old(finished) <= finished && pio.sg == old(pio.sg)
      && trace.began == old(trace).began && trace.looks == old(trace).looks
      && (|finished| > |old(finished)| ==> AsItIs(finished[|finished| - 1]))
      && (!old(Reading()) ==> pio.sg[..] == old(pio.sg[..]))
      && (old(trace).busyError.Some? ==> trace.busyError.Some?)
    }

    /** What is known of the present request or the last one, by what the registers have shown; a stuck one is never signalled. */
    ghost predicate Told()
      reads this
    {
      St().WellFormed() && (Stuck() || Known(env, St(), turn))
    }

    /** A request that was not signalled yet waits for something, unless a busy interrupt came with an error. */
    lemma WaitsOrStuck()
      requires Valid() && |issued| != |finished|
      ensures mrq.Some? && (Waiting() <==> !Stuck())
      ensures Stuck() ==> trace.busyError.Some?
    {
    }

    // ------------------------------------------------------------ routines that run under the lock

    method SetCommandError(error: Error)
      requires mrq.Some? && cmd != Nothing && (cmd == Stopping ==> mrq.value.stop.Some?)
      modifies `mrq
      ensures mrq == Some(WithCommandError(old(mrq).value, cmd, error))
    {
      if cmd == Stopping {
        mrq := Some(mrq.value.(stop := Some(mrq.value.stop.value.(error := error))));
      } else {
        mrq := Some(mrq.value.(cmd := mrq.value.cmd.(error := error)));
      }
    }

    /** Stores the response of the current command, if it has one. */
    method SetResponse(resp0: nat)
      requires mrq.Some? && cmd != Nothing && (cmd == Stopping ==> mrq.value.stop.Some?)
      modifies `mrq
      ensures mrq == Some(WithCommand(old(mrq).value, cmd, Answered(CommandOf(old(mrq).value, cmd), resp0)))
    {
      var c := if cmd == Stopping then mrq.value.stop.value else mrq.value.cmd;
      if c.present {
        c := c.(resp0 := resp0);
      }
      mrq := Some(if cmd == Stopping then mrq.value.(stop := Some(c)) else mrq.value.(cmd := c));
    }

    method SetDataError(error: Error)
      requires mrq.Some? && mrq.value.data.Some?
      modifies `mrq
      ensures mrq == Some(WithDataError(old(mrq).value, error))
    {
      mrq := Some(mrq.value.(data := Some(mrq.value.data.value.(error := error))));
    }

    /** The request may be signalled: its command was carried out, or it is not taken at all. */
    ghost predicate MaySignal()
      reads this, pio, pio.sg
    {
      && Conserved() && Timely() && mrq.Some?
      && if Begins(mrq.value, env.Regs(trace.began)) then Carried(env, Outcome(mrq.value, trace, pio.fifo, pio.sg[..]))
         else trace == Untouched(trace.began, trace.looks) && AsReported(mrq.value) == Refused(issued[|finished|], env.Regs(trace.began))
    }

    /** Signals the current request done. */
    method TaskletFinish()
      requires MaySignal()
      modifies `mrq, `cmd, `data, `signalled, `finished
      ensures Idle() && Conserved() && Timely() && St() == Signal(old(St()), old(mrq).value)
      ensures finished == old(finished) + [Outcome(AsReported(old(mrq).value), trace, pio.fifo, pio.sg[..])]
    {
      hide AllGood, Good, Explained, Carried, Refused, AsReported, Begins, SameButResults;
      Record();
      var req := FakeTimeout(mrq.value);
      mrq, cmd, data := None, Nothing, false;
      signalled := Some(req);
    }

    /** Records what the current request came to. */
    ghost method Record()
      requires MaySignal()
      modifies `finished
      ensures finished == old(finished) + [Outcome(AsReported(mrq.value), trace, pio.fifo, pio.sg[..])]
      ensures |finished| == |issued| && AllGood(env, pio.hw, issued, finished) && finished[|finished| - 1].req == AsReported(mrq.value)
    {
      hide AllGood, Good, Explained, Carried, Refused, AsReported, Begins, SameButResults;
      ghost var o := Outcome(AsReported(mrq.value), trace, pio.fifo, pio.sg[..]);
      SignalledIsGood();
      OneMoreFinished(env, pio.hw, issued, finished, o);
      finished := finished + [o];
    }

    lemma SignalledIsGood()
      requires MaySignal()
      ensures Good(env, pio.hw, issued[|finished|], Outcome(AsReported(mrq.value), trace, pio.fifo, pio.sg[..]))
    {
      hide AllGood, Carried, Refusal, WithoutErrors;
      var o, asked := Outcome(mrq.value, trace, pio.fifo, pio.sg[..]), issued[|finished|];
      SameBegins(asked, mrq.value, env.Regs(trace.began));
      if Begins(asked, env.Regs(trace.began)) {
        ReportedIsCarried(env, pio.hw, asked, o);
      }
    }

    /** A zero answer to a voltage query is taken for a timeout. */
    method FakeTimeout(req: Request) returns (reported: Request)
      ensures reported == AsReported(req)
    {
      reported := req;
      if (req.cmd.opcode == MMC_SEND_OP_COND || req.cmd.opcode == SD_IO_SEND_OP_COND || req.cmd.opcode == SD_APP_OP_COND)
         && req.cmd.error == NoError && req.cmd.resp0 == 0 {
        reported := req.(cmd := req.cmd.(error := ETIMEDOUT));
      }
    }

    /** Ends the request because its current command has failed. */
    method FailCommand(error: Error)
      requires mrq.Some? && cmd != Nothing && (cmd == Stopping ==> mrq.value.stop.Some?) && Conserved() && Timely()
      requires var req := WithCommandError(mrq.value, cmd, error);
               if Begins(mrq.value, env.Regs(trace.began)) then Carried(env, Outcome(req, trace, pio.fifo, pio.sg[..]))
               else trace == Untouched(trace.began, trace.looks) && AsReported(req) == Refused(issued[|finished|], env.Regs(trace.began))
      modifies `mrq, `cmd, `data, `signalled, `finished
      ensures Idle() && Conserved() && Timely() && St() == Signal(old(St()), WithCommandError(old(mrq).value, old(cmd), error))
      ensures old(finished) <= finished && finished != [] && AsItIs(finished[|finished| - 1])
    {
      hide AllGood, Good, Carried, Refused, AsReported, Explained;
      ErrorIsExplained(env, pio.hw, mrq.value, cmd, error, trace);
      SetCommandError(error);
      TaskletFinish();
    }

    /** A command may be sent: the main command of a fresh request, or the stop command after the data. */
    ghost predicate MaySend(slot: Slot)
      reads this, pio, pio.sg
    {
      && Conserved() && Timely() && mrq.Some? && !data
      && match slot
         case Main => && trace == Untouched(turn, pio.turn) && Prepared(mrq.value, sg.Length)
                      && mrq.value == WithoutErrors(issued[|finished|]) && GoodBlockSize(mrq.value) && env.Regs(turn).ready
         case Stopping => && Taken() && |trace.sent| == 1 && trace.retired && trace.stopTried == None
                          && mrq.value.stop.Some? && Done()
         case Nothing => false
    }

    /** Sends a command, unless the previous one is still in the register, or its response type is not supported. */
    method SendCommand(slot: Slot) returns (ok: bool)
      requires MaySend(slot) && cmd == Nothing
      modifies `mrq, `cmd, `data, `dataComplete, `useBusy, `dataIrpt, `blockIrpt, `blocks, `trace, `signalled, `finished
      modifies pio`sg, pio`iter, pio`fifo
      ensures Core() && St() == Send(old(St()), slot, Here()) && ok == mrq.Some? && (ok ==> cmd == slot)
      ensures old(finished) <= finished && (|finished| > |old(finished)| ==> AsItIs(finished[|finished| - 1]))
      ensures pio.sg == old(pio.sg) || (slot == Main && pio.sg == sg)
      ensures slot == Main && ok && data ==> pio.sg == sg
      ensures slot == Stopping ==> Onward() && trace.cut == old(trace).cut && unchanged(`dataIrpt)
    {
      hide AllGood, Good, Explained, Carried, Begins, Send, Transferred, Prepared;
      if env.Regs(turn).newFlag {
        StillNew(slot);
        return false;
      }
      var c := if slot == Stopping then mrq.value.stop.value else mrq.value.cmd;
      if c.long && c.busy {
        NotSupported(slot);
        return false;
      }
      if slot == Stopping {
        IssueStop(c);
      } else {
        IssueMain(c);
      }
      ok := true;
    }

    /** The previous command never completed. */
    method StillNew(slot: Slot)
      requires MaySend(slot) && cmd == Nothing && env.Regs(turn).newFlag
      modifies `mrq, `cmd, `data, `trace, `signalled, `finished
      ensures Idle() && Conserved() && Timely() && St() == Send(old(St()), slot, Here())
      ensures trace == old(trace).(stopTried := trace.stopTried)
      ensures old(finished) <= finished && finished != [] && AsItIs(finished[|finished| - 1])
    {
      hide AllGood, Good;
      trace := Tried(trace, slot, Here());
      TaskletFinish();
    }

    /** The response type is not supported. */
    method NotSupported(slot: Slot)
      requires MaySend(slot) && cmd == Nothing && !env.Regs(turn).newFlag && Unsupported(CommandOf(mrq.value, slot))
      modifies `mrq, `cmd, `data, `trace, `signalled, `finished
      ensures Idle() && Conserved() && Timely() && St() == Send(old(St()), slot, Here())
      ensures trace == old(trace).(stopTried := trace.stopTried)
      ensures old(finished) <= finished && finished != [] && AsItIs(finished[|finished| - 1])
    {
      hide AllGood, Good;
      cmd := slot;
      trace := Tried(trace, slot, Here());
      FailCommand(EINVAL);
    }

    /** The main command is prepared and written. */
    method IssueMain(c: Command)
      requires MaySend(Main) && cmd == Nothing && c == mrq.value.cmd && StopBegins(c, env.Regs(turn))
      modifies `mrq, `cmd, `data, `dataComplete, `useBusy, `dataIrpt, `blockIrpt, `blocks, `trace
      modifies pio`sg, pio`iter, pio`fifo
      ensures Core() && St() == Send(old(St()), Main, Here()) && mrq.Some? && cmd == Main
      ensures pio.sg == if data then sg else old(pio.sg)
    {
      hide AllGood, Good, Explained;
      ghost var req, t := mrq.value, trace;
      cmd := Main;
      WriteCommand(c);
      SentIsExplained(env, pio.hw, req, mrq.value, t, cmd, Here());
      MainIsActive();
    }

    method IssueStop(c: Command)
      requires MaySend(Stopping) && cmd == Nothing && c == mrq.value.stop.value && StopBegins(c, env.Regs(turn))
      modifies `mrq, `cmd, `data, `dataComplete, `useBusy, `dataIrpt, `blockIrpt, `blocks, `trace
      modifies pio`sg, pio`iter, pio`fifo
      ensures Core() && St() == Send(old(St()), Stopping, Here()) && pio.sg == old(pio.sg) && cmd == Stopping
      ensures trace == old(trace).(sent := trace.sent, stopTried := trace.stopTried) && mrq.Some? && unchanged(`dataIrpt)
    {
      hide AllGood, Good, Explained;
      ghost var req, t := mrq.value, trace;
      cmd := Stopping;
      WriteCommand(c);
      SentIsExplained(env, pio.hw, req, mrq.value, t, cmd, Here());
    }

    /** Prepares the data and writes the command register. */
    method WriteCommand(c: Command)
      requires mrq.Some? && !data && cmd != Nothing && (cmd == Main ==> Prepared(mrq.value, sg.Length))
      requires (cmd == Stopping ==> mrq.value.stop.Some?) && c == CommandOf(mrq.value, cmd)
      modifies `mrq, `data, `dataComplete, `useBusy, `dataIrpt, `blockIrpt, `blocks, `trace
      modifies pio`sg, pio`iter, pio`fifo
      ensures St() == SdProtocol.Issue(old(St()), Here()) && pio.sg == if data then sg else old(pio.sg)
      ensures if data then FreshData(mrq.value.data.value) else unchanged(pio)
    {
      PrepareData();
      useBusy := false;
      if c.present && c.busy {
        useBusy := true;
      }
      ghost var t := Tried(trace, cmd, Here());
      trace := t.(sent := t.sent + [c]);
    }

    lemma MainIsActive()
      requires Taken() && |trace.sent| == 1 && trace == Untouched(trace.began, trace.looks).(sent := trace.sent) && cmd == Main
      requires data <==> mrq.value.data.Some?
      requires data ==> !dataComplete && dataIrpt && !blockIrpt && FreshData(mrq.value.data.value)
      ensures Active()
    {
      if data {
        NothingStreamed(mrq.value.data.value);
      }
    }

    ghost predicate FreshData(d: Data)
      reads this, pio, pio.sg
    {
      && 0 < blocks == d.blocks && 0 < d.blksz && pio.fifo == []
      && pio.iter == Iterator(0, Span(d.blocks, d.blksz), 0) && pio.sg.Length == Span(d.blocks, d.blksz) / WORD_BYTES
    }

    lemma NothingStreamed(d: Data)
      requires trace.pios == 0 && trace.cut == None && FreshData(d)
      ensures Streamed(d)
    {
    }

    method PrepareData()
      requires mrq.Some? && !data && (cmd == Main ==> Prepared(mrq.value, sg.Length))
      modifies `mrq, `data, `dataComplete, `dataIrpt, `blockIrpt, `blocks
      modifies pio`sg, pio`iter, pio`fifo
      ensures data == (cmd == Main && old(mrq).value.data.Some?)
      ensures pio.sg == if data then sg else old(pio.sg)
      ensures !data ==> unchanged(`mrq) && unchanged(pio) && unchanged(`dataIrpt) && unchanged(`blockIrpt)
                        && unchanged(`blocks) && unchanged(`dataComplete)
      ensures data ==>
                && old(mrq).value.data.Some? && mrq == Some(WithBytes(old(mrq).value, 0))
                && !dataComplete && dataIrpt && !blockIrpt && blocks == mrq.value.data.value.blocks
                && FreshData(mrq.value.data.value)
    {
      assert !data;  // WARN_ON(host->data)
      data := cmd == Main && mrq.value.data.Some?;
      if !data {
        return;
      }
      var d := mrq.value.data.value;
      var size := TotalSize(d);
      assert size <= MAX_REQ_SIZE;       // BUG_ON
      assert d.blksz <= MAX_BLK_SIZE;    // BUG_ON
      assert d.blocks <= MAX_BLK_COUNT;  // BUG_ON
      dataComplete := false;
      mrq := Some(mrq.value.(data := Some(d.(bytesXfered := 0))));
      pio.MiterStart(sg, size);
      blocks := d.blocks;
      dataIrpt, blockIrpt := true, false;
      assert data;  // BUG_ON(!host->data)
    }

    /** The end of the data phase: after the last block, or after an error. */
    ghost predicate MayFinishData()
      reads this, pio, pio.sg
    {
      && Conserved() && Timely() && Taken() && data && !dataComplete && CommandPhase()
      && mrq.value.data.Some? && Streamed(mrq.value.data.value)
      && (mrq.value.data.value.error == NoError ==> trace.pios == mrq.value.data.value.blocks)
    }

    method FinishData() returns (polling: bool)
      requires MayFinishData()
      modifies `mrq, `cmd, `data, `dataComplete, `useBusy, `dataIrpt, `blockIrpt, `blocks, `trace, `signalled, `finished, `seen
      modifies pio`sg, pio`iter, pio`fifo
      ensures Core() && Onward() && St() == SdProtocol.FinishData(old(St()), Here()) && trace.cut == old(trace).cut
      ensures (polling <==> old(cmd) == Nothing && St().Polled()) && !dataIrpt
    {
      hide AllGood, Good, Explained, SameButResults, Begins, Complete;
      assert data;  // BUG_ON(!data)
      CloseData();
      if cmd != Nothing {
        polling := false;
      } else {
        polling := TransferComplete();
      }
    }

    /** The data phase is over, and its interrupts are off. With the command still in progress that is all. */
    method CloseData()
      requires MayFinishData()
      modifies `mrq, `dataComplete, `dataIrpt, `blockIrpt
      ensures St() == SdProtocol.CloseData(old(St())) && (if cmd != Nothing then Core() else MayComplete())
    {
      hide AllGood, Good, Explained;
      dataIrpt, blockIrpt := false, false;
      RecordBytes();
      dataComplete := true;
    }

    method RecordBytes()
      requires MayFinishData()
      modifies `mrq
      ensures Conserved() && Taken() && CommandPhase() && Done()
      ensures var d := old(mrq).value.data.value;
              mrq == Some(WithBytes(old(mrq).value, if d.error != NoError then 0 else Span(d.blocks, d.blksz)))
    {
      hide AllGood, Good;
      var d := mrq.value.data.value;
      var size := TotalSize(d);
      StreamedToEnd(d);
      mrq := Some(mrq.value.(data := Some(d.(bytesXfered := if d.error != NoError then 0 else size))));
    }

    lemma StreamedToEnd(d: Data)
      requires Streamed(d) && d.error == NoError ==> trace.pios == d.blocks
      ensures Streamed(d) && d.error == NoError ==> (trace.cut.Some? <==> pio.fifo != pio.sg[..])
    {
    }

    /** Command and data are both over. */
    ghost predicate MayComplete()
      reads this, pio, pio.sg
    {
      && Conserved() && Timely() && Taken() && |trace.sent| == 1 && trace.retired && trace.stopTried == None
      && cmd == Nothing && data && dataComplete && Done()
    }

    method TransferComplete() returns (polling: bool)
      requires MayComplete()
      modifies `mrq, `cmd, `data, `dataComplete, `useBusy, `dataIrpt, `blockIrpt, `blocks, `trace, `signalled, `finished, `seen
      modifies pio`sg, pio`iter, pio`fifo
      ensures Core() && Onward() && St() == Complete(old(St()), Here()) && trace.cut == old(trace).cut && (polling <==> St().Polled())
      ensures unchanged(`dataIrpt)
    {
      hide AllGood, Good, Explained, SameButResults, Begins, Send;
      assert cmd == Nothing;  // BUG_ON(host->cmd)
      assert data;            // BUG_ON(!host->data)
      assert dataComplete;    // BUG_ON(!host->data_complete)
      data := false;
      if mrq.value.stop.Some? {
        polling := SendStop();
      } else {
        EndTransfer();
        polling := false;
      }
    }

    /** Without a stop command the request ends when the controller is idle, or does not become so. */
    method EndTransfer()
      requires Conserved() && Timely() && Taken() && trace.retired && trace.stopTried == None && Done() && mrq.value.stop.None?
      modifies `mrq, `cmd, `data, `signalled, `finished, `seen
      ensures Idle() && Conserved() && Timely() && old(finished) <= finished && AsItIs(finished[|finished| - 1])
      ensures St() == if env.Regs(turn).idle then Signal(old(St()), old(mrq).value)
                      else Signal(old(St()).(seen := Sees(old(seen), NotIdle)), WithDataError(old(mrq).value, ETIMEDOUT))
    {
      hide AllGood, Good;
      WaitTransferComplete();
      TaskletFinish();
    }

    /** Sends the stop command, and begins to poll it unless it waits for busy. */
    method SendStop() returns (polling: bool)
      requires MaySend(Stopping) && cmd == Nothing
      modifies `mrq, `cmd, `data, `dataComplete, `useBusy, `dataIrpt, `blockIrpt, `blocks, `trace, `signalled, `finished
      modifies pio`sg, pio`iter, pio`fifo
      ensures Core() && St() == Send(old(St()), Stopping, Here()) && (polling <==> St().Polled())
      ensures Onward() && trace.cut == old(trace).cut && unchanged(`dataIrpt)
    {
      hide AllGood, Good, Explained, SameButResults, Begins, Transferred, Prepared, WithoutErrors, GoodBlockSize, Send;
      var ok := SendCommand(Stopping);
      polling := false;
      if ok && !useBusy {
        polling := FinishCommand();
      }
    }

    /** May find that the controller does not become idle. */
    method WaitTransferComplete()
      requires mrq.Some? && Done()
      modifies `mrq, `seen
      ensures mrq.Some? && Done()
      ensures mrq == if env.Regs(turn).idle then old(mrq) else Some(WithDataError(old(mrq).value, ETIMEDOUT))
      ensures seen == if env.Regs(turn).idle then old(seen) else Sees(old(seen), NotIdle)
    {
      if !env.Regs(turn).idle {
        seen := Sees(seen, NotIdle);
        SetDataError(ETIMEDOUT);
      }
    }

    /** Where a command begins to be polled. What follows is AfterPolling. */
    method FinishCommand() returns (polling: bool)
      requires St().Polled()
      ensures polling
    {
      assert cmd != Nothing && mrq.Some?;  // BUG_ON(!host->cmd || !host->mrq)
      polling := true;
    }

    /** The rest of finish_command, once the command register was read for the last time. */
    method AfterPolling(poll: Poll) returns (polling: bool)
      requires Core() && St().Polled()
      modifies `mrq, `cmd, `data, `dataComplete, `useBusy, `dataIrpt, `blockIrpt, `blocks, `trace, `signalled, `finished, `seen
      modifies pio`sg, pio`iter, pio`fifo
      ensures Core() && Onward() && St() == SdProtocol.AfterPolling(old(St()), poll, Here()) && (polling <==> St().Polled())
    {
      hide AllGood, Good, Explained, SameButResults, Begins, SdProtocol.Proceed;
      polling := false;
      seen := PollSeen(seen, cmd, turn);
      if poll.StillNew? {
        FailCommand(EILSEQ);
        return;
      }
      if poll.Failed? && !(poll.hsts.crc7 && Opcode() == 1) {
        FailCommand(if poll.hsts.cmdTimeOut then ETIMEDOUT else EILSEQ);
        return;
      }
      polling := Proceed(poll.resp0);
    }

    /** The command has succeeded. */
    method Proceed(resp0: nat) returns (polling: bool)
      requires Core() && St().Polled()
      modifies `mrq, `cmd, `data, `dataComplete, `useBusy, `dataIrpt, `blockIrpt, `blocks, `trace, `signalled, `finished, `seen
      modifies pio`sg, pio`iter, pio`fifo
      ensures Core() && Onward() && St() == SdProtocol.Proceed(old(St()), resp0, Here()) && (polling <==> St().Polled())
    {
      hide AllGood, Good, SdProtocol.Retire, Refused;
      polling := false;
      SetResponse(resp0);
      if cmd == Stopping {
        TaskletFinish();
      } else {
        polling := Retire();
      }
    }

    function Opcode(): nat
      requires mrq.Some? && (cmd == Stopping ==> mrq.value.stop.Some?)
      reads this
    {
      if cmd == Stopping then mrq.value.stop.value.opcode else mrq.value.cmd.opcode
    }

    /** The actual command was processed. */
    method Retire() returns (polling: bool)
      requires Core() && St().Polled() && cmd == Main
      modifies `mrq, `cmd, `data, `dataComplete, `useBusy, `dataIrpt, `blockIrpt, `blocks, `trace, `signalled, `finished, `seen
      modifies pio`sg, pio`iter, pio`fifo
      ensures Core() && Onward() && St() == SdProtocol.Retire(old(St()), Here()) && (polling <==> St().Polled())
    {
      hide AllGood, Good, Complete, Begins, Refused;
      polling := false;
      trace := trace.(retired := true);
      cmd := Nothing;
      if !data {
        TaskletFinish();
      } else if dataComplete {
        polling := TransferComplete();
      }
    }

    // ------------------------------------------------------------ interrupts

    ghost predicate MayMoveBlock()
      reads this, pio, pio.sg
    {
      && mrq.Some? && data && mrq.value.data.Some? && Streamed(mrq.value.data.value)
      && mrq.value.data.value.error == NoError && 0 < mrq.value.data.value.blksz
      && trace.pios < mrq.value.data.value.blocks
    }

    /** What is known of the data after a block was moved; only a read has changed the buffer. */
    twostate predicate BlockMoved()
      reads this, pio, pio.sg
    {
      && mrq.Some? && mrq.value.data.Some? && Streamed(mrq.value.data.value)
      && (!old(Reading()) ==> pio.sg[..] == old(pio.sg[..]))
      && old(pio.turn) < pio.turn
      && (if old(trace).cut.Some? then trace.cut == old(trace).cut
          else trace.cut.Some? ==> old(pio.turn) <= trace.cut.value.turn < pio.turn && pio.hw.GaveUp(trace.cut.value))
    }

    /** Moves one block, and notes an error that the status register shows afterwards. */
    method TransferPio()
      requires MayMoveBlock() && St().WellFormed()
      modifies `mrq, `trace, pio`iter, pio`ticks, pio`turn, pio`fifo, pio.sg, `seen
      ensures St() == SdProtocol.MoveBlock(old(St()), Here(), trace.cut) && BlockMoved()
    {
      hide Moved, Span;
      assert data;  // BUG_ON(!host->data)
      MoveBlock();
      var sdhsts := env.Regs(turn).hsts;
      seen := Sees(seen, BehindBlock(sdhsts));
      if sdhsts.crc16 || sdhsts.crc7 || sdhsts.fifo {
        SetDataError(EILSEQ);
      } else if sdhsts.cmdTimeOut || sdhsts.rewTimeOut {
        SetDataError(ETIMEDOUT);
      }
    }

    method MoveBlock()
      requires MayMoveBlock()
      modifies `mrq, `trace, pio`iter, pio`ticks, pio`turn, pio`fifo, pio.sg
      ensures trace == old(trace).(pios := old(trace).pios + 1, cut := trace.cut) && BlockMoved()
      ensures var error := if old(mrq).value.data.value.blksz % WORD_BYTES == 0 then NoError else EINVAL;
              mrq == Some(WithDataError(old(mrq).value, error))
    {
      hide Moved, Span;
      var d := mrq.value.data.value;
      ghost var sg0, fifo0, cut0 := pio.sg[..], pio.fifo, trace.cut;
      SpanMonotone(trace.pios, d.blocks, d.blksz);
      var error;
      ghost var cut;
      error, cut := BlockPio(d.read, d.blksz, Span(trace.pios, d.blksz), Span(d.blocks, d.blksz));
      trace := trace.(pios := trace.pios + 1, cut := if cut0.Some? then cut0 else cut);
      if error != NoError {
        SetDataError(error);
      } else {
        StreamOneMore(d, sg0, fifo0, cut0, cut, old(pio.turn), old(pio.ticks));
      }
    }

    method BlockPio(read: bool, blksz: nat, ghost offset: nat, ghost size: nat) returns (error: Error, ghost cut: Option<Cut>)
      requires 0 < blksz && offset + blksz <= size && pio.iter.At(offset, size - offset) && pio.sg.Length == size / WORD_BYTES
      modifies pio`iter, pio`ticks, pio`turn, pio`fifo, pio.sg
      ensures error == if blksz % WORD_BYTES == 0 then NoError else EINVAL
      ensures pio.BlockDone(old(pio.sg[..]), old(pio.fifo), read, old(pio.turn), old(pio.ticks), offset, size - offset, blksz, error, cut)
      ensures !read ==> pio.sg[..] == old(pio.sg[..])
    {
      if read {
        error, cut := pio.ReadBlockPio(blksz, offset, size - offset);
      } else {
        error, cut := pio.WriteBlockPio(blksz, offset, size - offset);
      }
    }

    /** One more block moves the stream on by one block. */
    lemma StreamOneMore(d: Data, sg0: seq<Word>, fifo0: seq<Word>, cut0: Option<Cut>, cut: Option<Cut>, turn0: nat, ticks0: nat)
      requires 0 < trace.pios <= d.blocks && trace.cut == if cut0.Some? then cut0 else cut
      requires var (offset, size) := (Span(trace.pios - 1, d.blksz), Span(d.blocks, d.blksz));
               && offset + d.blksz <= size && |sg0| == pio.sg.Length == size / WORD_BYTES && offset % WORD_BYTES == 0
               && (if cut0.Some? then |fifo0| < offset / WORD_BYTES else fifo0 == sg0[..offset / WORD_BYTES])
               && pio.BlockDone(sg0, fifo0, d.read, turn0, ticks0, offset, size - offset, d.blksz, NoError, cut)
      ensures Streamed(d)
    {
      hide Moved;
      StreamOn(sg0, fifo0, Span(trace.pios - 1, d.blksz), d.blksz, Span(d.blocks, d.blksz), d.read, cut0, cut, turn0, ticks0);
    }

    lemma StreamOn(sg0: seq<Word>, fifo0: seq<Word>, offset: nat, blksz: nat, size: nat, read: bool,
                   cut0: Option<Cut>, cut: Option<Cut>, turn0: nat, ticks0: nat)
      requires trace.cut == if cut0.Some? then cut0 else cut
      requires offset + blksz <= size && |sg0| == pio.sg.Length == size / WORD_BYTES && offset % WORD_BYTES == 0
      requires if cut0.Some? then |fifo0| < offset / WORD_BYTES else fifo0 == sg0[..offset / WORD_BYTES]
      requires pio.BlockDone(sg0, fifo0, read, turn0, ticks0, offset, size - offset, blksz, NoError, cut)
      ensures StreamedTo(offset + blksz, size)
    {
      var w := blksz / WORD_BYTES;
      WordOffsets(offset, blksz, size);
      var n := pio.hw.MovedBy(read, turn0 + 1, pio.turn, w);
      BlockStreamed(sg0, pio.sg[..], fifo0, pio.fifo, offset / WORD_BYTES, n, w, cut0.Some?);
    }

    /** The busy interrupt ends a busy wait: by polling, or, when it comes with an error, by nothing at all. */
    method BusyIrq(mask: Status) returns (polling: bool)
      requires Core()
      modifies `useBusy, `mrq
      ensures Core() && St() == SdProtocol.BusyIrq(old(St()), mask)
      ensures polling == (old(St()).BusyWaiting() && !mask.HasError())
    {
      hide AllGood, Good, Explained, SameButResults, Transferred, Begins, WithBusyError;
      polling := false;
      if cmd == Nothing {
        return;
      }
      if !useBusy {
        return;
      }
      useBusy := false;
      if mask.HasError() {
        NoteBusyError(mask);
      } else {
        polling := FinishCommand();
      }
    }

    method NoteBusyError(mask: Status)
      requires Core() && cmd != Nothing
      modifies `mrq
      ensures Core() && old(mrq).Some? && mrq == Some(WithBusyError(old(mrq).value, cmd, mask))
    {
      hide AllGood, Good, Explained, SameButResults;
      var req := mrq.value;
      if mask.crc7 {
        req := WithCommandError(req, cmd, EILSEQ);
      } else if mask.crc16 || mask.fifo || mask.rewTimeOut {
        var error := if mask.crc16 || mask.fifo then EILSEQ else ETIMEDOUT;
        req := if req.data.Some? then WithDataError(req, error) else WithCommandError(req, cmd, error);
      } else if mask.cmdTimeOut {
        req := WithCommandError(req, cmd, ETIMEDOUT);
      }
      Fail(req);
    }

    /** Notes errors in the request. */
    method Fail(req: Request)
      requires Core() && mrq.Some? && Fails(mrq.value, req)
      modifies `mrq
      ensures Core() && mrq == Some(req)
    {
      hide AllGood, Good, Explained;
      FailureIsExplained(env, pio.hw, mrq.value, req, trace);
      mrq := Some(req);
    }

    /** A data or block interrupt that comes with an error marks the data as failed. */
    method NoteDataError(mask: Status)
      requires Core() && data && !dataComplete
      modifies `mrq, `seen
      ensures Core() && old(mrq).Some? && old(mrq).value.data.Some? && mrq == Some(WithMaskError(old(mrq).value, mask))
      ensures seen == Sees(old(seen), AtInterrupt(mask))
    {
      hide AllGood, Good, Explained, SameButResults;
      seen := Sees(seen, AtInterrupt(mask));
      if mask.crc16 || mask.fifo || mask.rewTimeOut {
        Fail(WithDataError(mrq.value, if mask.crc16 || mask.fifo then EILSEQ else ETIMEDOUT));
      }
    }

    method DataIrq(mask: Status) returns (polling: bool)
      requires Core() && dataIrpt
      modifies `mrq, `cmd, `data, `dataComplete, `useBusy, `dataIrpt, `blockIrpt, `blocks, `trace, `signalled, `finished, `seen
      modifies pio`sg, pio`iter, pio`ticks, pio`turn, pio`fifo, pio.sg
      ensures Core() && Onward() && St() == SdProtocol.DataIrq(old(St()), mask, Here(), trace.cut)
      ensures !old(data) ==> trace == old(trace)
      ensures polling <==> old(cmd) == Nothing && St().Polled()
    {
      hide AllGood, Good, Explained, SameButResults, SdProtocol.ServeData;
      polling := false;
      if !data {
        return;
      }
      NoteDataError(mask);
      polling := ServeData();
    }

    /** Moves a block of a read, or the first one of a write, unless the data has failed. */
    method ServeData() returns (polling: bool)
      requires Core() && dataIrpt && data
      modifies `mrq, `cmd, `data, `dataComplete, `useBusy, `dataIrpt, `blockIrpt, `blocks, `trace, `signalled, `finished, `seen
      modifies pio`sg, pio`iter, pio`ticks, pio`turn, pio`fifo, pio.sg
      ensures Core() && Onward() && St() == SdProtocol.ServeData(old(St()), Here(), trace.cut)
      ensures polling <==> old(cmd) == Nothing && St().Polled()
    {
      hide AllGood, Good, SdProtocol.FinishData;
      polling := false;
      if mrq.value.data.value.error != NoError {
        polling := FinishData();
      } else if !mrq.value.data.value.read {
        // the block interrupt is used for writes after the first block
        dataIrpt := false;
        blockIrpt := true;
        TransferPio();
      } else {
        polling := ReadNextBlock();
      }
    }

    method ReadNextBlock() returns (polling: bool)
      requires Core() && dataIrpt && data && mrq.value.data.value.read && mrq.value.data.value.error == NoError
      modifies `mrq, `cmd, `data, `dataComplete, `useBusy, `dataIrpt, `blockIrpt, `blocks, `trace, `signalled, `finished, `seen
      modifies pio`sg, pio`iter, pio`ticks, pio`turn, pio`fifo, pio.sg
      ensures Core() && Onward() && St() == SdProtocol.ServeData(old(St()), Here(), trace.cut)
      ensures polling <==> old(cmd) == Nothing && St().Polled()
    {
      hide AllGood, Good, Explained, SameButResults, SdProtocol.FinishData, SdProtocol.MoveBlock;
      polling := false;
      ReadAndCount();
      if blocks == 0 || mrq.value.data.value.error != NoError {
        polling := FinishData();
      }
    }

    method ReadAndCount()
      requires Core() && dataIrpt && data && mrq.value.data.value.read && mrq.value.data.value.error == NoError
      modifies `mrq, `blocks, `trace, pio`iter, pio`ticks, pio`turn, pio`fifo, pio.sg, `seen
      ensures St() == SdProtocol.MoveBlock(old(St()), Here(), trace.cut).(blocks := Before(old(blocks)))
      ensures trace == old(trace).(pios := old(trace).pios + 1, cut := trace.cut)
      ensures mrq.Some? && mrq.value.data.Some? && cmd == old(cmd)
      ensures if blocks == 0 || mrq.value.data.value.error != NoError then MayFinishData() else Core()
    {
      hide AllGood, Good;
      TransferPio();
      blocks := blocks - 1;
    }

    /** Requires that the interrupt was enabled. */
    method BlockIrq(mask: Status) returns (polling: bool)
      requires Core() && blockIrpt
      modifies `mrq, `cmd, `data, `dataComplete, `useBusy, `dataIrpt, `blockIrpt, `blocks, `trace, `signalled, `finished, `seen
      modifies pio`sg, pio`iter, pio`ticks, pio`turn, pio`fifo, pio.sg
      ensures Core() && Onward() && St() == SdProtocol.BlockIrq(old(St()), mask, Here(), trace.cut)
      ensures polling <==> old(cmd) == Nothing && St().Polled()
      ensures old(data) ==> !dataIrpt
    {
      hide AllGood, Good, Explained, SameButResults, SdProtocol.ServeBlock;
      polling := false;
      if !data {
        return;
      }
      NoteDataError(mask);
      polling := ServeBlock();
    }

    /** Counts a written block, and moves the next one if there is one. */
    method ServeBlock() returns (polling: bool)
      requires Core() && blockIrpt && data
      modifies `mrq, `cmd, `data, `dataComplete, `useBusy, `dataIrpt, `blockIrpt, `blocks, `trace, `signalled, `finished, `seen
      modifies pio`sg, pio`iter, pio`ticks, pio`turn, pio`fifo, pio.sg
      ensures Core() && Onward() && St() == SdProtocol.ServeBlock(old(St()), Here(), trace.cut)
      ensures polling <==> old(cmd) == Nothing && St().Polled()
      ensures old(data) ==> !dataIrpt
    {
      hide AllGood, Good, SdProtocol.FinishData;
      polling := false;
      assert blocks != 0;  // BUG_ON(!host->blocks)
      if mrq.value.data.value.error != NoError {
        polling := FinishData();
        return;
      }
      blocks := blocks - 1;
      if blocks == 0 {
        polling := FinishData();
      } else {
        TransferPio();
      }
    }

    // ------------------------------------------------------------ the steps

    /**
     The interrupt handler, up to its end or to its first polling. `mask` is the status register; it shows
     a block interrupt only while that interrupt is enabled.
     */
    method IrqHandler(mask: Status)
      requires Valid() && (mask.block ==> blockIrpt) && trace.began < turn
      requires mask.busy && mask.HasError() ==> BusyErrorAt(turn)
      modifies `frames, `mrq, `cmd, `data, `dataComplete, `useBusy, `dataIrpt, `blockIrpt, `blocks, `trace, `signalled, `finished, `seen
      modifies pio`sg, pio`iter, pio`ticks, pio`turn, pio`fifo, pio.sg
      ensures Valid() && Onward() && St() == SdProtocol.IrqHandler(old(St()), mask, Here(), trace.cut)
    {
      hide AllGood, Good, Explained, SdProtocol.AllParts, Arrived, Transferred, Begins;
      NoteArrival(mask);
      AllParts(mask);
    }

    /** Block part, busy part and data part. */
    method AllParts(mask: Status)
      requires Valid() && (mask.block ==> blockIrpt) && (mask.busy && mask.HasError() ==> trace.busyError.Some?)
      modifies `frames, `mrq, `cmd, `data, `dataComplete, `useBusy, `dataIrpt, `blockIrpt, `blocks, `trace, `signalled, `finished, `seen
      modifies pio`sg, pio`iter, pio`ticks, pio`turn, pio`fifo, pio.sg
      ensures Valid() && Onward() && St() == SdProtocol.AllParts(old(St()), mask, Here(), trace.cut)
    {
      hide AllGood, Good, Explained, SdProtocol.BlockPart, SdProtocol.BusyPart, Transferred, Begins;
      ghost var s := St();
      var polling := BlockPart(mask);
      ghost var cut := trace.cut;
      AfterBlockPart(polling, mask);
      NothingMoved(s, mask, Here(), cut, trace.cut);
    }

    /** The busy part follows, unless the block part has begun to poll. */
    method AfterBlockPart(polling: bool, mask: Status)
      requires if polling then Core() && St().Polled() && frames == [] else Valid()
      requires mask.busy && mask.HasError() ==> trace.busyError.Some?
      modifies `frames, `mrq, `cmd, `data, `dataComplete, `useBusy, `dataIrpt, `blockIrpt, `blocks, `trace, `signalled, `finished, `seen
      modifies pio`sg, pio`iter, pio`ticks, pio`turn, pio`fifo, pio.sg
      ensures Valid() && Onward()
      ensures St() == if polling then Push(old(St()), BusyThenData(mask)) else SdProtocol.BusyPart(old(St()), mask, Here(), trace.cut)
      ensures (trace.cut == old(trace).cut || old(dataIrpt)) && (old(mrq) == None ==> trace == old(trace))
    {
      hide AllGood, Good, Explained, SameButResults, SdProtocol.BusyPart, Transferred, Begins;
      if polling {
        Park(BusyThenData(mask));
      } else {
        BusyPart(mask);
      }
    }

    /** A routine goes to poll; this is what it has to do afterwards. */
    method Park(rest: Rest)
      requires Core() && St().Polled() && frames == []
      requires rest.BusyThenData? && rest.mask.busy && rest.mask.HasError() ==> trace.busyError.Some?
      modifies `frames
      ensures Valid() && St() == Push(old(St()), rest)
    {
      hide AllGood, Good, Explained, SameButResults, Begins;
      frames := frames + [rest];
    }

    ghost method NoteArrival(mask: Status)
      requires Valid() && trace.began < turn && (mask.busy && mask.HasError() ==> BusyErrorAt(turn))
      modifies `trace
      ensures Valid() && St() == Arrived(old(St()), mask, Here())
      ensures trace == old(trace).(busyError := trace.busyError)
      ensures (mask.busy && mask.HasError()) || old(trace).busyError.Some? ==> trace.busyError.Some?
    {
      hide AllGood, Good;
      if mask.busy && mask.HasError() {
        trace := trace.(busyError := Some(turn));
      }
    }

    /** The part of the handler for the block interrupt. Where data was moved, the data interrupt is off. */
    method BlockPart(mask: Status) returns (polling: bool)
      requires Valid() && (mask.block ==> blockIrpt)
      modifies `mrq, `cmd, `data, `dataComplete, `useBusy, `dataIrpt, `blockIrpt, `blocks, `trace, `signalled, `finished, `seen
      modifies pio`sg, pio`iter, pio`ticks, pio`turn, pio`fifo, pio.sg
      ensures Core() && Onward() && St() == SdProtocol.BlockPart(old(St()), mask, Here(), trace.cut)
      ensures polling <==> old(cmd) == Nothing && St().Polled()
      ensures mask.block && old(data) ==> !dataIrpt
      ensures if polling then frames == [] else Valid()
    {
      hide AllGood, Good, Explained, SameButResults, SdProtocol.BlockIrq;
      ghost var s := St();
      polling := false;
      if mask.block {
        polling := BlockIrq(mask);
        BlockIrqLeavesCommand(s, mask, Here(), trace.cut);
      }
    }

    /** The part for the busy interrupt, and the data part behind it unless it has begun to poll. */
    method BusyPart(mask: Status)
      requires Valid() && (mask.busy && mask.HasError() ==> trace.busyError.Some?)
      modifies `frames, `mrq, `cmd, `data, `dataComplete, `useBusy, `dataIrpt, `blockIrpt, `blocks, `trace, `signalled, `finished, `seen
      modifies pio`sg, pio`iter, pio`ticks, pio`turn, pio`fifo, pio.sg
      ensures Valid() && Onward() && St() == SdProtocol.BusyPart(old(St()), mask, Here(), trace.cut)
      ensures old(mrq) == None ==> trace == old(trace)
      ensures trace.cut == old(trace).cut || old(dataIrpt)
    {
      hide AllGood, Good, Explained, SameButResults;
      ghost var s := St();
      var polling := false;
      if mask.busy {
        polling := BusyIrq(mask);
      }
      if polling {
        Park(DataOnly(mask));
      } else {
        DataPart(mask);
      }
    }

    /** The part for the data interrupt, which counts only while it is enabled. */
    method DataPart(mask: Status)
      requires Valid()
      modifies `frames, `mrq, `cmd, `data, `dataComplete, `useBusy, `dataIrpt, `blockIrpt, `blocks, `trace, `signalled, `finished, `seen
      modifies pio`sg, pio`iter, pio`ticks, pio`turn, pio`fifo, pio.sg
      ensures Valid() && Onward() && St() == SdProtocol.DataPart(old(St()), mask, Here(), trace.cut)
      ensures old(mrq) == None ==> trace == old(trace)
      ensures trace.cut == old(trace).cut || old(dataIrpt)
    {
      hide AllGood, Good, Explained, SameButResults, SdProtocol.DataIrq;
      ghost var s := St();
      var polling := false;
      if mask.data && dataIrpt {
        polling := DataIrq(mask);
      }
      if polling {
        Park(Return);
      }
      DataPartSticks(s, mask, Here(), trace.cut);
    }

    /** The polling of the routine that polls ends; it goes on with what it had not done yet. */
    method Resume(poll: Poll)
      requires Valid() && frames != []
      modifies `frames, `mrq, `cmd, `data, `dataComplete, `useBusy, `dataIrpt, `blockIrpt, `blocks, `trace, `signalled, `finished, `seen
      modifies pio`sg, pio`iter, pio`ticks, pio`turn, pio`fifo, pio.sg
      ensures Valid() && Onward() && St() == SdProtocol.Resume(old(St()), poll, Here(), trace.cut)
    {
      hide AllGood, Good, Explained, SdProtocol.AfterPolling, SdProtocol.BusyPart, SdProtocol.DataPart, Transferred, Begins;
      PollingKeepsFrames(St(), poll, Here());
      var rest := frames[0];
      var polling := AfterPolling(poll);
      if polling {
        return;
      }
      Unpark();
      match rest {
        case Return =>
        case BusyThenData(mask) => BusyPart(mask);
        case DataOnly(mask) => DataPart(mask);
      }
    }

    /** The routine that has polled goes on. */
    method Unpark()
      requires Core() && |frames| == 1 && !St().Polled()
      modifies `frames
      ensures Valid() && St() == old(St()).(frames := old(frames)[1..])
    {
      hide AllGood, Good, Explained, SameButResults, Begins;
      frames := frames[1..];
    }

    /** Any routine may go on next: an interrupt arrives, or a polling ends. */
    method AnyStep()
      requires Valid()
      modifies `turn, `frames, `mrq, `cmd, `data, `dataComplete, `useBusy, `dataIrpt, `blockIrpt, `blocks, `trace, `signalled, `finished, `seen
      modifies pio`sg, pio`iter, pio`ticks, pio`turn, pio`fifo, pio.sg
      ensures Valid() && Onward() && turn == old(turn) + 1
      ensures St() == Step(old(St()), env.At(turn), Here(), trace.cut) && (old(Told()) ==> Told())
    {
      hide AllGood, Good, Explained, SameButResults, Step, Known;
      ghost var s := St();
      TakeStep();
      StaysTold(s);
    }

    method TakeStep()
      requires Valid()
      modifies `turn, `frames, `mrq, `cmd, `data, `dataComplete, `useBusy, `dataIrpt, `blockIrpt, `blocks, `trace, `signalled, `finished, `seen
      modifies pio`sg, pio`iter, pio`ticks, pio`turn, pio`fifo, pio.sg
      ensures Valid() && Onward() && turn == old(turn) + 1
      ensures St() == Step(old(St()), env.At(turn), Here(), trace.cut)
    {
      hide AllGood, Good, Explained, SameButResults, SdProtocol.IrqHandler, SdProtocol.Resume;
      turn := turn + 1;
      match env.At(turn) {
        case Interrupt(mask, _) => IrqHandler(if blockIrpt then mask else mask.(block := false));
        case PollEnds(poll, _) =>
          if frames != [] {
            Resume(poll);
          }
      }
    }

    lemma StaysTold(s: State)
      requires OnePoller(s) && s.trace.began < turn && St() == Step(s, env.At(turn), Here(), trace.cut)
      ensures s.Stuck() || Known(env, s, turn - 1) ==> Told()
    {
      hide Step, Known;
      if s.Stuck() || Known(env, s, turn - 1) {
        StepTells(env, s, Here(), trace.cut);
      }
    }

    /**
     A request is issued when all earlier ones were signalled, as RequestSync does. It becomes the current one
     if the controller takes it, and is signalled at once otherwise.
     */
    method Request(req: Request, buffer: array<Word>)
      requires Valid() && |issued| == |finished| && Prepared(req, buffer.Length)
      modifies this, pio`sg, pio`iter, pio`fifo
      ensures Valid() && !Stuck() && turn == old(turn) + 1 && St() == Requested(old(St()), req, pio.turn, Here())
      ensures issued == old(issued) + [req] && old(finished) <= finished && (pio.sg == old(pio.sg) || pio.sg == buffer)
      ensures Told() && trace.began == turn && trace.looks == pio.turn && (mrq.Some? <==> Begins(req, env.Regs(turn)))
      ensures if mrq.Some? then req.data.Some? ==> pio.sg == buffer else finished[|finished| - 1].trace == trace && trace.sent == []
    {
      hide AllGood, Good, Explained, Requested, OnePoller, IsPowerOf2, Begins, Refusal, SameButResults, Known;
      Enter(req, buffer);
      WhoBegins(old(St()), req, pio.turn, Here());
      RequestTells(env, old(St()), req, pio.turn, Here());
    }

    method Enter(req: Request, buffer: array<Word>)
      requires Valid() && |issued| == |finished| && Prepared(req, buffer.Length)
      modifies this, pio`sg, pio`iter, pio`fifo
      ensures Valid() && !Stuck() && turn == old(turn) + 1 && St() == Requested(old(St()), req, pio.turn, Here())
      ensures issued == old(issued) + [req] && old(finished) <= finished && (pio.sg == old(pio.sg) || pio.sg == buffer)
      ensures if mrq.Some? then data ==> pio.sg == buffer else finished != [] && finished[|finished| - 1].trace == trace
    {
      hide AllGood, Good, Explained, SdProtocol.Begin, IsPowerOf2, Refusal, SameButResults, Transferred, Begins;
      Arrive(req);
      var r := WithoutErrors(req);
      if r.data.Some? && !IsPowerOf2(r.data.value.blksz) {
        RefuseBlockSize(r);
      } else {
        assert mrq == None;  // WARN_ON(host->mrq != 0)
        Admit(r, buffer);
      }
    }

    /** A new request, of which nothing has been done. */
    method Arrive(ghost req: Request)
      requires Valid() && |issued| == |finished|
      modifies `issued, `turn, `trace, `seen
      ensures Idle() && frames == [] && issued == old(issued) + [req] && AllGood(env, pio.hw, issued, finished)
      ensures finished != [] ==> signalled == Some(finished[|finished| - 1].req)
      ensures turn == old(turn) + 1 && St() == old(St()).(trace := Untouched(turn, pio.turn), seen := UNSEEN)
    {
      hide AllGood, Good, Explained;
      OneMoreIssued(env, pio.hw, issued, finished, req);
      issued, turn := issued + [req], turn + 1;
      trace, seen := Untouched(turn, pio.turn), UNSEEN;
    }

    /** The request becomes the current one. */
    method Admit(r: Request, buffer: array<Word>)
      requires Idle() && frames == [] && |finished| + 1 == |issued| && AllGood(env, pio.hw, issued, finished)
      requires finished != [] ==> signalled == Some(finished[|finished| - 1].req)
      requires r == WithoutErrors(issued[|finished|]) && GoodBlockSize(r) && Prepared(r, buffer.Length)
      requires trace == Untouched(turn, pio.turn)
      modifies `sg, `frames, `mrq, `cmd, `data, `dataComplete, `useBusy, `dataIrpt, `blockIrpt, `blocks, `trace, `signalled, `finished
      modifies pio`sg, pio`iter, pio`fifo
      ensures Valid() && !Stuck() && St() == SdProtocol.Begin(old(St()).(mrq := Some(r)), Here()) && old(finished) <= finished
      ensures pio.sg == old(pio.sg) || pio.sg == buffer
      ensures if mrq.Some? then data ==> pio.sg == buffer else finished[|finished| - 1].trace == trace
    {
      hide AllGood, Good, SdProtocol.Begin;
      mrq := Some(r);
      sg := buffer;
      Begin();
    }

    /** Ends a request that was not begun. */
    method RefuseBlockSize(r: Request)
      requires |finished| + 1 == |issued| && AllGood(env, pio.hw, issued, finished) && r == WithoutErrors(issued[|finished|])
      requires Idle() && frames == [] && trace == Untouched(turn, pio.turn) && !GoodBlockSize(r)
      modifies `signalled, `finished
      ensures Valid() && !Stuck() && St() == old(St()).(signalled := Some(WithCommandError(r, Main, EINVAL)))
      ensures old(finished) <= finished && finished != [] && finished[|finished| - 1].trace == trace
    {
      hide AllGood;
      var refused := r.(cmd := r.cmd.(error := EINVAL));
      signalled := Some(refused);
      ghost var o := Outcome(refused, trace, pio.fifo, pio.sg[..]);
      OneMoreFinished(env, pio.hw, issued, finished, o);
      finished := finished + [o];
    }

    method Begin()
      requires MayBegin() && cmd == Nothing && frames == []
      modifies `frames, `mrq, `cmd, `data, `dataComplete, `useBusy, `dataIrpt, `blockIrpt, `blocks, `trace, `signalled, `finished
      modifies pio`sg, pio`iter, pio`fifo
      ensures Valid() && !Stuck() && St() == SdProtocol.Begin(old(St()), Here()) && old(finished) <= finished
      ensures pio.sg == old(pio.sg) || pio.sg == sg
      ensures if mrq.Some? then data ==> pio.sg == sg else finished[|finished| - 1].trace == trace
    {
      hide AllGood, Good, Explained, SdProtocol.SendMain;
      if !env.Regs(turn).ready {
        NotReady();
      } else {
        SendMain();
      }
    }

    /** A request is fresh: nothing has been done for it. */
    ghost predicate MayBegin()
      reads this, pio, pio.sg
    {
      && Conserved() && Timely() && mrq.Some? && !data && trace == Untouched(turn, pio.turn) && Prepared(mrq.value, sg.Length)
      && mrq.value == WithoutErrors(issued[|finished|]) && GoodBlockSize(mrq.value)
    }

    method NotReady()
      requires MayBegin() && !env.Regs(turn).ready
      modifies `mrq, `cmd, `data, `signalled, `finished
      ensures Idle() && Conserved() && Timely() && St() == Signal(old(St()), WithCommandError(old(mrq).value, Main, EILSEQ))
      ensures old(finished) <= finished && finished != [] && finished[|finished| - 1].trace == trace
    {
      hide AllGood, Good;
      mrq := Some(mrq.value.(cmd := mrq.value.cmd.(error := EILSEQ)));
      TaskletFinish();
    }

    /** Sends the main command, and begins to poll it unless it waits for busy. */
    method SendMain()
      requires MaySend(Main) && cmd == Nothing && frames == []
      modifies `frames, `mrq, `cmd, `data, `dataComplete, `useBusy, `dataIrpt, `blockIrpt, `blocks, `trace, `signalled, `finished
      modifies pio`sg, pio`iter, pio`fifo
      ensures Valid() && !Stuck() && St() == SdProtocol.SendMain(old(St()), Here()) && old(finished) <= finished
      ensures pio.sg == old(pio.sg) || pio.sg == sg
      ensures if mrq.Some? then data ==> pio.sg == sg else finished[|finished| - 1].trace == trace
    {
      hide AllGood, Good, Explained, SameButResults, Begins, Send;
      var ok := SendCommand(Main);
      if ok && !useBusy {
        var polling := FinishCommand();
        Park(Return);
      }
    }

    /**
     While request n is in progress, its buffer is the one that data goes through; afterwards its outcome tells
     what the buffer holds and how it came to that.
     */
    ghost predicate Followed(n: nat, req: Request, buffer: array<Word>, began: nat, looks: nat)
      reads this, pio, buffer
    {
      && trace.began == began && trace.looks == looks
      && if mrq.Some? then req.data.Some? ==> pio.sg == buffer
         else n < |finished| && finished[n].trace == trace && (trace.sent != [] && req.data.Some? ==> finished[n].buffer == buffer[..])
    }

    /** Waits for request n for a number of steps. */
    method WaitUntilDone(steps: nat, ghost n: nat, ghost req: Request, ghost buffer: array<Word>)
      requires Valid() && |issued| == n + 1 && issued[n] == req && n <= |finished|
      requires Told() && Followed(n, req, buffer, trace.began, trace.looks)
      modifies `turn, `frames, `mrq, `cmd, `data, `dataComplete, `useBusy, `dataIrpt, `blockIrpt, `blocks, `trace, `signalled, `finished, `seen
      modifies pio`sg, pio`iter, pio`ticks, pio`turn, pio`fifo, pio.sg
      ensures Valid() && old(finished) <= finished && pio.sg == old(pio.sg) && old(turn) <= turn
      ensures Told() && Followed(n, req, buffer, old(trace).began, old(trace).looks)
      ensures !(req.data.Some? && req.data.value.read) || old(mrq) == None ==> pio.sg[..] == old(pio.sg[..])
      ensures old(mrq) == None ==> finished == old(finished)
      ensures turn <= old(turn) + steps && (mrq.Some? ==> turn == old(turn) + steps)
    {
      hide AllGood, Good, Explained, SameButResults, Known;
      var k := steps;
      while mrq.Some? && k > 0
        invariant Valid() && old(finished) <= finished && pio.sg == old(pio.sg) && old(turn) <= turn
        invariant Told() && Followed(n, req, buffer, old(trace).began, old(trace).looks)
        invariant !(req.data.Some? && req.data.value.read) || old(mrq) == None ==> pio.sg[..] == old(pio.sg[..])
        invariant old(mrq) == None ==> finished == old(finished)
        invariant 0 <= k <= steps && turn == old(turn) + (steps - k)
        decreases k
      {
        FollowStep(n, req, buffer, old(trace).began, old(trace).looks);
        k := k - 1;
      }
    }

    method FollowStep(ghost n: nat, ghost req: Request, ghost buffer: array<Word>, ghost began: nat, ghost looks: nat)
      requires Valid() && Told() && mrq.Some? && |issued| == n + 1 && issued[n] == req && Followed(n, req, buffer, began, looks)
      modifies `turn, `frames, `mrq, `cmd, `data, `dataComplete, `useBusy, `dataIrpt, `blockIrpt, `blocks, `trace, `signalled, `finished, `seen
      modifies pio`sg, pio`iter, pio`ticks, pio`turn, pio`fifo, pio.sg
      ensures Valid() && old(finished) <= finished && pio.sg == old(pio.sg) && turn == old(turn) + 1
      ensures Told() && Followed(n, req, buffer, began, looks)
      ensures !(req.data.Some? && req.data.value.read) ==> pio.sg[..] == old(pio.sg[..])
    {
      hide AllGood, Good, Explained, Step, OnePoller, Known;
      AnyStep();
    }

    /**
     Main result. A command from its preparation to its result, whatever the environment does; None if it is not
     signalled within `steps` steps, because it waits, or because a busy interrupt came with an error. The
     controller takes the command exactly as the registers show it at the first step. The result is that of the
     polls and of the status registers (`Judged`), and without an error these have shown none. A transfer that ends
     without an error has moved every block of the buffer, or was not begun since the previous command was still in
     progress; and nothing but a read that was begun writes to the buffer.
     */
    method RunCommand(c: Command, data: Option<Data>, buffer: array<Word>, sgLen: nat, steps: nat) returns (result: Option<Error>)
      requires Valid() && |issued| == |finished| && buffer.Length == sgLen / WORD_BYTES && (data.Some? ==> sgLen > 0)
      modifies this, pio, pio.sg, buffer
      ensures Valid() && old(finished) <= finished && (pio.sg == old(pio.sg) || pio.sg == buffer)
      ensures var fits := data.Some? ==>
                            && data.value.blksz <= 512 && data.value.blocks <= 65535
                            && Span(data.value.blocks, data.value.blksz) <= 524288 && Span(data.value.blocks, data.value.blksz) == sgLen;
              !fits ==> result == Some(EINVAL) && issued == old(issued) && finished == old(finished) && buffer[..] == old(buffer[..])
      ensures var fits := data.Some? ==>
                            && data.value.blksz <= 512 && data.value.blocks <= 65535
                            && Span(data.value.blocks, data.value.blksz) <= 524288 && Span(data.value.blocks, data.value.blksz) == sgLen;
              fits ==>
                var (req, regs) := (RequestFor(c, data), env.Regs(old(turn) + 1));
                var taken := (data.Some? ==> IsPowerOf2(data.value.blksz)) && regs.ready && !regs.newFlag && !(c.long && c.busy);
                && req.cmd == c.(resp0 := 0) && req.data == data && (req.stop.Some? <==> c.opcode == 18 || c.opcode == 25)
                && (req.stop.Some? ==> req.stop.value == Command(12, true, false, true, NoError, 0))
                && issued == old(issued) + [req] && (result.Some? <==> |finished| == |issued|)
                && turn <= old(turn) + 1 + steps && (result == None ==> turn == old(turn) + 1 + steps)
                && (taken ==> Ended(req, old(turn) + 1, old(pio.turn), old(|finished|), buffer, result))
                && (!taken ==> result == Some(if data.Some? && !IsPowerOf2(data.value.blksz) then EINVAL else if !regs.ready then EILSEQ
                                              else if !regs.newFlag then EINVAL
                                              else if c.opcode == 1 || c.opcode == 5 || c.opcode == 41 then ETIMEDOUT else NoError))
                && (!taken || !(data.Some? && data.value.read) ==> buffer[..] == old(buffer[..]))
    {
      hide AllGood, Good, Explained, Begins, Carried, Refused, Requested, SameButResults, OnePoller, Transferred, Known, Verdict, Judged;
      var req := RequestFor(c, data);
      RequestMeans(c, data, env.Regs(turn + 1));
      var error := PrepareRequest(req, sgLen);
      if error != NoError {
        return Some(error);
      }
      AcceptableIsPrepared(req, sgLen);
      result := RequestSync(req, buffer, steps);
    }

    /** Issues the request and waits for it. */
    method RequestSync(req: Request, buffer: array<Word>, steps: nat) returns (result: Option<Error>)
      requires Valid() && |issued| == |finished| && Prepared(req, buffer.Length)
      modifies this, pio, pio.sg, buffer
      ensures Valid() && old(finished) <= finished && (pio.sg == old(pio.sg) || pio.sg == buffer)
      ensures issued == old(issued) + [req] && (result.Some? <==> |finished| == |issued|)
      ensures turn <= old(turn) + 1 + steps && (result == None ==> turn == old(turn) + 1 + steps)
      ensures var regs := env.Regs(old(turn) + 1);
              if Begins(req, regs) then
                && Ended(req, old(turn) + 1, old(pio.turn), old(|finished|), buffer, result)
                && (!(req.data.Some? && req.data.value.read) ==> buffer[..] == old(buffer[..]))
              else
                result == Some(ResultOf(Refused(req, regs))) && buffer[..] == old(buffer[..])
    {
      hide AllGood, Good, Explained, Begins, Carried, Refused, Requested, SameButResults, OnePoller, Transferred, Known, Verdict, Judged;
      Request(req, buffer);
      ghost var n := |old(finished)|;
      WaitUntilDone(steps, n, req, buffer);
      if mrq.Some? {
        WaitsOrStuck();
        return None;
      }
      result := Some(ResultOf(signalled.value));
      HowItEnded(n, req, buffer, old(turn) + 1, old(pio.turn));
    }

    /**
     What comes of request n once the controller has taken it at step `began`. It still waits, or it is stuck
     since a busy interrupt came with an error; or it was carried out, and without an error all its data went
     through the caller's buffer. The result is the one that the end of its pollings and the status registers
     have shown.
     */
    ghost predicate Ended(req: Request, began: nat, looks: nat, n: nat, buffer: array<Word>, result: Option<Error>)
      reads this, pio, buffer
    {
      if result == None then
        Waiting() || (Stuck() && trace.busyError.Some? && began < trace.busyError.value <= turn && BusyErrorAt(trace.busyError.value))
      else
        && n < |finished| && result == Some(ResultOf(finished[n].req))
        && var o := finished[n];
           && o.trace.began == began && o.trace.looks == looks && Timely() && o.trace == trace
           && Good(env, pio.hw, req, o) && (req.data.Some? ==> o.buffer == buffer[..])
           && (result == Some(NoError) && req.data.Some? ==> Delivered(env, pio.hw, o))
           && Verdict(env, o.req, trace, seen, turn) && Judged(env, o.req, trace, seen, result.value)
    }

    lemma HowItEnded(n: nat, req: Request, buffer: array<Word>, began: nat, looks: nat)
      requires Valid() && mrq == None && n + 1 == |finished| == |issued| && issued[n] == req && signalled.Some?
      requires Told() && Followed(n, req, buffer, began, looks)
      ensures var result := Some(ResultOf(signalled.value));
              if Begins(req, env.Regs(began)) then Ended(req, began, looks, n, buffer, result)
              else result == Some(ResultOf(Refused(req, env.Regs(began))))
    {
      hide AllGood, Explained, Refused, Delivered, Verdict, Judged;
      AllGoodMeans(env, pio.hw, issued, finished, n);
      var o := finished[n];
      SameBegins(req, o.req, env.Regs(began));
      if Begins(req, env.Regs(began)) {
        Judgement(env, o.req, trace, seen, turn);
      }
      if ResultOf(o.req) == NoError && o.req.data.Some? {
        CompleteOrNeverStarted(env, pio.hw, req, o);
      }
    }
  }

  // ---------------------------------------------------------------- runs in which a request does not end as it should

  /** A command that waits for busy, and then a busy interrupt with a timeout: nothing will ever end the request. */
  method BusyErrorRun(hw: Hardware) returns (host: SdHost)
    ensures fresh(host) && host.Valid() && host.Stuck() && |host.issued| == 1 && host.finished == []
  {
    hide Known;
    var mask := QUIET.(busy := true, cmdTimeOut := true);
    var regs := Registers(true, false, true, QUIET);
    var c := Command(7, true, false, true, NoError, 0);
    host := new SdHost(Environment(_ => Interrupt(mask, regs)), hw);
    var buffer := new Word[0];
    host.Request(Request(c, None, None), buffer);
    assert host.St().BusyWaiting() && host.frames == [];
    IrqSticks(host.St(), mask, Now(2, regs), None);
    host.AnyStep();
  }

  /** And nothing ever does. */
  method StaysStuck(host: SdHost, steps: nat)
    requires host.Valid() && host.Stuck()
    modifies host, host.pio, host.pio.sg
    ensures host.Valid() && host.Stuck() && host.turn == old(host.turn) + steps
    ensures host.finished == old(host.finished) && host.issued == old(host.issued)
  {
    for k := 0 to steps
      invariant host.Valid() && host.Stuck() && host.turn == old(host.turn) + k && host.pio.sg == old(host.pio.sg)
      invariant host.finished == old(host.finished) && host.issued == old(host.issued)
    {
      hide AllGood, Good, Explained, Step, OnePoller;
      ghost var s := host.St();
      host.AnyStep();
      StuckForever(s, host.env.At(host.turn), host.Here(), host.trace.cut);
    }
  }

  /** The previous command is still in the register: a transfer succeeds although no command was written. */
  method NothingSentRun(hw: Hardware, c: Command, buffer: array<Word>) returns (host: SdHost, result: Option<Error>)
    requires buffer.Length == 128 && c.opcode !in {MMC_SEND_OP_COND, SD_IO_SEND_OP_COND, SD_APP_OP_COND}
    modifies buffer
    ensures result == Some(NoError) && fresh(host) && host.Valid()
    ensures |host.finished| == 1 && host.finished[0].trace.sent == [] && host.finished[0].trace.pios == 0
  {
    host := new SdHost(Environment(_ => PollEnds(Succeeded(0), Registers(true, true, true, QUIET))), hw);
    result := host.RunCommand(c, Some(Data(512, 1, true, NoError, 0)), buffer, 512, 1000);
  }
}
