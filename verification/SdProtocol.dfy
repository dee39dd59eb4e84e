/**
 The protocol of the SDHOST driver on values: what a request is, what the registers may show, and what each
 routine makes of the state of the driver. The driver itself, and what happens to the data, is in SdHost.
 */
module SdProtocol {
  import opened Modular
  import opened Options
  import opened SdTransfer

  const MMC_SEND_OP_COND: nat := 1
  const SD_IO_SEND_OP_COND: nat := 5
  const MMC_STOP_TRANSMISSION: nat := 12
  const MMC_READ_MULTIPLE_BLOCK: nat := 18
  const MMC_WRITE_MULTIPLE_BLOCK: nat := 25
  const SD_APP_OP_COND: nat := 41

  // ---------------------------------------------------------------- requests

  /** A command: its opcode, the MMC_RSP_* flags and what came back. */
  datatype Command = Command(opcode: nat, present: bool, long: bool, busy: bool, error: Error, resp0: nat)

  datatype Data = Data(blksz: nat, blocks: nat, read: bool, error: Error, bytesXfered: nat)

  datatype Request = Request(cmd: Command, data: Option<Data>, stop: Option<Command>)

  /** Which command of the current request is in progress. */
  datatype Slot = Nothing | Main | Stopping

  predicate SameCommand(a: Command, b: Command) {
    a.opcode == b.opcode && a.present == b.present && a.long == b.long && a.busy == b.busy
  }

  /** b is the request a with other responses, errors and byte counts. */
  predicate SameButResults(a: Request, b: Request) {
    && SameCommand(a.cmd, b.cmd)
    && a.data.Some? == b.data.Some? && a.stop.Some? == b.stop.Some?
    && (a.data.Some? ==> a.data.value.blksz == b.data.value.blksz && a.data.value.blocks == b.data.value.blocks
                         && a.data.value.read == b.data.value.read)
    && (a.stop.Some? ==> SameCommand(a.stop.value, b.stop.value))
  }

  /** The request that Command makes of a command: transfers of several blocks get a stop command. */
  function RequestFor(cmd: Command, data: Option<Data>): Request {
    Request(cmd.(resp0 := 0), data,
            if cmd.opcode == MMC_READ_MULTIPLE_BLOCK || cmd.opcode == MMC_WRITE_MULTIPLE_BLOCK
            then Some(Command(MMC_STOP_TRANSMISSION, true, false, true, NoError, 0)) else None)
  }

  /** What Command returns after the request was signalled done. */
  function ResultOf(req: Request): Error {
    if req.cmd.error != NoError then req.cmd.error
    else if req.data.Some? && req.data.value.error != NoError then req.data.value.error
    else if req.stop.Some? then req.stop.value.error
    else NoError
  }

  /** The request with a command of it changed. */
  function WithCommand(req: Request, slot: Slot, c: Command): Request {
    if slot == Stopping then req.(stop := Some(c)) else req.(cmd := c)
  }

  function CommandOf(req: Request, slot: Slot): Command
    requires slot == Stopping ==> req.stop.Some?
  {
    if slot == Stopping then req.stop.value else req.cmd
  }

  predicate StopIsBusy(req: Request) {
    req.stop.Some? && req.stop.value.present && req.stop.value.busy
  }

  /** No command has both a long response and a busy one. */
  predicate Unsupported(c: Command) {
    c.long && c.busy
  }

  function WithCommandError(req: Request, slot: Slot, error: Error): Request
    requires slot == Stopping ==> req.stop.Some?
  {
    WithCommand(req, slot, CommandOf(req, slot).(error := error))
  }

  function WithDataError(req: Request, error: Error): Request
    requires req.data.Some?
  {
    req.(data := Some(req.data.value.(error := error)))
  }

  function WithBytes(req: Request, bytes: nat): Request
    requires req.data.Some?
  {
    req.(data := Some(req.data.value.(bytesXfered := bytes)))
  }

  /** The command with its response, if it has one. */
  function Answered(c: Command, resp0: nat): Command {
    if c.present then c.(resp0 := resp0) else c
  }

  /** A voltage query that was answered by zero is reported as a timeout: nothing is connected. */
  function AsReported(req: Request): Request {
    req.(cmd := ReportedCommand(req.cmd))
  }

  function ReportedCommand(c: Command): Command {
    if c.opcode in {MMC_SEND_OP_COND, SD_IO_SEND_OP_COND, SD_APP_OP_COND} && c.error == NoError && c.resp0 == 0
    then c.(error := ETIMEDOUT) else c
  }

  function WithoutErrors(req: Request): Request {
    Request(req.cmd.(error := NoError),
            if req.data.Some? then Some(req.data.value.(error := NoError)) else None,
            if req.stop.Some? then Some(req.stop.value.(error := NoError)) else None)
  }

  predicate IsPowerOf2(n: nat) {
    n == 0 || n == 1 || (n % 2 == 0 && IsPowerOf2(n / 2))
  }

  function Power2(k: nat): nat {
    if k == 0 then 1 else 2 * Power2(k - 1)
  }

  /** The powers of two, and 0, which the source's test takes for one. */
  lemma {:induction false} IsPowerOf2Means(n: nat)
    ensures IsPowerOf2(n) <==> n == 0 || exists k: nat :: Power2(k) == n
  {
    if n <= 1 {
      assert Power2(0) == 1;
    } else if n % 2 == 0 {
      IsPowerOf2Means(n / 2);
      if IsPowerOf2(n / 2) {
        var k: nat :| Power2(k) == n / 2;
        assert Power2(k + 1) == n;
      }
      if k: nat :| Power2(k) == n {
        assert Power2(k - 1) == n / 2;
      }
    } else {
      forall k: nat ensures Power2(k) != n {
        EvenPower(k);
      }
    }
  }

  lemma EvenPower(k: nat)
    ensures Power2(k) == 1 || Power2(k) % 2 == 0
  {
  }

  predicate GoodBlockSize(req: Request) {
    req.data.Some? ==> IsPowerOf2(req.data.value.blksz)
  }

  // ---------------------------------------------------------------- what the registers show

  /**
   In one step of the driver: whether the state machine is ready for a request, whether a command is still
   new when the wait for it is over, whether the controller becomes idle after a transfer, and the status
   after a block was moved.
   */
  datatype Registers = Registers(ready: bool, newFlag: bool, idle: bool, hsts: Status)

  /** What the command register shows when polling ends; with it the response register and, after a failure, the status. */
  datatype Poll = StillNew | Failed(hsts: Status, resp0: nat) | Succeeded(resp0: nat)

  /** A step: an interrupt with the status register, or the end of a polling. */
  datatype Event = Interrupt(mask: Status, regs: Registers) | PollEnds(poll: Poll, regs: Registers)

  /** What the environment does, step by step. */
  datatype Environment = Environment(steps: nat -> Event)
  {
    function At(k: nat): Event {
      steps(k)
    }

    function Regs(k: nat): Registers {
      steps(k).regs
    }
  }

  /** The error that polling ends with, if any; a CRC error is no error for command 1. */
  function PollError(poll: Poll, opcode: nat): Error {
    match poll
    case StillNew => EILSEQ
    case Failed(hsts, _) =>
      if hsts.crc7 && opcode == MMC_SEND_OP_COND then NoError else if hsts.cmdTimeOut then ETIMEDOUT else EILSEQ
    case Succeeded(_) => NoError
  }

  /** The request after a busy interrupt that came with an error: a command error or a data error. */
  function WithBusyError(req: Request, slot: Slot, mask: Status): Request
    requires slot == Stopping ==> req.stop.Some?
  {
    if mask.crc7 then WithCommandError(req, slot, EILSEQ)
    else if mask.crc16 || mask.fifo || mask.rewTimeOut then
      var error := if mask.crc16 || mask.fifo then EILSEQ else ETIMEDOUT;
      if req.data.Some? then WithDataError(req, error) else WithCommandError(req, slot, error)
    else if mask.cmdTimeOut then WithCommandError(req, slot, ETIMEDOUT)
    else req
  }

  /** The error that a data or block interrupt comes with. */
  function DataError(mask: Status): Error {
    if mask.crc16 || mask.fifo then EILSEQ else if mask.rewTimeOut then ETIMEDOUT else NoError
  }

  function WithMaskError(req: Request, mask: Status): Request
    requires req.data.Some?
  {
    if DataError(mask) != NoError then WithDataError(req, DataError(mask)) else req
  }

  /** The error that the status shows after a block was moved; without one, only a wrong block size is an error. */
  function BlockError(blksz: nat, hsts: Status): Error {
    if hsts.crc16 || hsts.crc7 || hsts.fifo then EILSEQ
    else if hsts.cmdTimeOut || hsts.rewTimeOut then ETIMEDOUT
    else if blksz % WORD_BYTES != 0 then EINVAL
    else NoError
  }

  /** The controller takes the command of the request. */
  predicate Begins(req: Request, regs: Registers) {
    GoodBlockSize(req) && regs.ready && !regs.newFlag && !Unsupported(req.cmd)
  }

  /** The error of a command that the controller does not take: none if the previous command is still in progress. */
  function Refusal(req: Request, regs: Registers): Error {
    if !GoodBlockSize(req) then EINVAL
    else if !regs.ready then EILSEQ
    else if regs.newFlag then NoError
    else EINVAL
  }

  predicate StopBegins(c: Command, regs: Registers) {
    !regs.newFlag && !Unsupported(c)
  }

  // ---------------------------------------------------------------- the state of the driver

  /** What a routine still has to do when its polling is over: the remaining parts of the interrupt handler. */
  datatype Rest = Return | BusyThenData(mask: Status) | DataOnly(mask: Status)

  /**
   What happened to a request since step `began` and the turn `looks` of the PIO loops: the commands that were
   written to the command register, whether the first of them succeeded, how many blocks were moved, the first
   loop that gave up, the step at which a stop command was tried, and the last one with a busy interrupt and an error.
   */
  datatype Trace = Trace(began: nat, looks: nat, sent: seq<Command>, retired: bool, pios: nat, cut: Option<Cut>,
                         stopTried: Option<nat>, busyError: Option<nat>)

  function Untouched(began: nat, looks: nat): Trace {
    Trace(began, looks, [], false, 0, None, None, None)
  }

  /** What the driver sees of the data: the status at an interrupt for it, the one behind a block, and that the controller stays busy. */
  datatype Sight = AtInterrupt(mask: Status) | BehindBlock(hsts: Status) | NotIdle

  /** What it has seen of a request: the steps at which the polling of its two commands ended, and of its data. */
  datatype Seen = Seen(main: Option<nat>, stop: Option<nat>, sights: seq<Sight>)

  const UNSEEN: Seen := Seen(None, None, [])

  datatype State = State(mrq: Option<Request>, cmd: Slot, data: bool, dataComplete: bool, useBusy: bool,
                         dataIrpt: bool, blockIrpt: bool, blocks: nat, frames: seq<Rest>,
                         signalled: Option<Request>, trace: Trace, seen: Seen)
  {
    predicate WellFormed() {
      && (cmd != Nothing ==> mrq.Some?) && (cmd == Stopping ==> mrq.value.stop.Some?)
      && (data ==> mrq.Some? && mrq.value.data.Some?)
    }

    /** A command is in progress that only polling may end. */
    predicate Polled() {
      mrq.Some? && cmd != Nothing && !useBusy
    }

    predicate BusyWaiting() {
      cmd != Nothing && useBusy
    }

    /** A command is in progress, nobody polls it, and no interrupt is expected for it. */
    predicate Stuck() {
      Polled() && frames == []
    }
  }

  /** What a step goes by: its number and the registers. */
  datatype Now = Now(turn: nat, regs: Registers)

  // ---------------------------------------------------------------- the routines

  function Signal(s: State, req: Request): State {
    s.(mrq := None, cmd := Nothing, data := false, signalled := Some(AsReported(req)))
  }

  function Tried(t: Trace, slot: Slot, now: Now): Trace {
    if slot == Stopping then t.(stopTried := Some(now.turn)) else t
  }

  /** send_command: the command is written to the command register unless the previous one is still there. */
  function Send(s: State, slot: Slot, now: Now): (s': State)
    requires s.mrq.Some? && slot != Nothing && (slot == Stopping ==> s.mrq.value.stop.Some?)
    ensures s'.WellFormed()
  {
    var (req, t) := (s.mrq.value, Tried(s.trace, slot, now));
    if now.regs.newFlag then Signal(s.(trace := t), req)
    else if Unsupported(CommandOf(req, slot)) then Signal(s.(trace := t), WithCommandError(req, slot, EINVAL))
    else Issue(s.(cmd := slot), now)
  }

  /** prepare_data and the write of the command register. */
  function Issue(s: State, now: Now): (s': State)
    requires s.mrq.Some? && s.cmd != Nothing && (s.cmd == Stopping ==> s.mrq.value.stop.Some?)
    ensures s'.WellFormed()
  {
    var (req, c, t) := (s.mrq.value, CommandOf(s.mrq.value, s.cmd), Tried(s.trace, s.cmd, now));
    var s1 := s.(data := false, useBusy := c.present && c.busy, trace := t.(sent := t.sent + [c]));
    if s.cmd == Main && req.data.Some?
    then s1.(mrq := Some(WithBytes(req, 0)), data := true, dataComplete := false, dataIrpt := true, blockIrpt := false,
             blocks := req.data.value.blocks)
    else s1
  }

  function Sees(seen: Seen, sight: Sight): Seen {
    seen.(sights := seen.sights + [sight])
  }

  function PollSeen(seen: Seen, slot: Slot, turn: nat): Seen {
    if slot == Stopping then seen.(stop := Some(turn)) else seen.(main := Some(turn))
  }

  /** transfer_complete: the stop command is sent, or the request ends when the controller is idle. */
  function Complete(s: State, now: Now): (s': State)
    requires s.mrq.Some? && s.mrq.value.data.Some?
    ensures s'.WellFormed()
  {
    var req := s.mrq.value;
    if req.stop.Some? then Send(s.(data := false), Stopping, now)
    else if now.regs.idle then Signal(s, req)
    else Signal(s.(seen := Sees(s.seen, NotIdle)), WithDataError(req, ETIMEDOUT))
  }

  /** The data phase is over, and its interrupts are off. */
  function CloseData(s: State): (s': State)
    requires s.WellFormed() && s.data
    ensures s'.WellFormed()
  {
    var d := s.mrq.value.data.value;
    var bytes := if d.error != NoError then 0 else Span(d.blocks, d.blksz);
    s.(mrq := Some(WithBytes(s.mrq.value, bytes)), dataIrpt := false, blockIrpt := false, dataComplete := true)
  }

  /** finish_data: with the command still in progress, nothing follows. */
  function FinishData(s: State, now: Now): (s': State)
    requires s.WellFormed() && s.data
    ensures s'.WellFormed()
  {
    var s1 := CloseData(s);
    if s.cmd != Nothing then s1 else Complete(s1, now)
  }

  /** The end of finish_command after the main command: the command is retired. */
  function Retire(s: State, now: Now): (s': State)
    requires s.WellFormed() && s.cmd == Main
    ensures s'.WellFormed()
  {
    var s1 := s.(cmd := Nothing, trace := s.trace.(retired := true));
    if !s.data then Signal(s1, s.mrq.value) else if s.dataComplete then Complete(s1, now) else s1
  }

  /** finish_command from the last look at the command register on. */
  function AfterPolling(s: State, poll: Poll, now: Now): (s': State)
    requires s.WellFormed() && s.cmd != Nothing
    ensures s'.WellFormed()
  {
    var (req, c) := (s.mrq.value, CommandOf(s.mrq.value, s.cmd));
    var s1 := s.(seen := PollSeen(s.seen, s.cmd, now.turn));
    var error := PollError(poll, c.opcode);
    if error != NoError then Signal(s1, WithCommandError(req, s.cmd, error)) else Proceed(s1, poll.resp0, now)
  }

  function Proceed(s: State, resp0: nat, now: Now): (s': State)
    requires s.WellFormed() && s.cmd != Nothing
    ensures s'.WellFormed()
  {
    var req := WithCommand(s.mrq.value, s.cmd, Answered(CommandOf(s.mrq.value, s.cmd), resp0));
    if s.cmd == Stopping then Signal(s, req) else Retire(s.(mrq := Some(req)), now)
  }

  /** transfer_pio, with the first loop that gave up since the request began: one more block, and the error that the status shows behind it. */
  function MoveBlock(s: State, now: Now, cut: Option<Cut>): (s': State)
    requires s.WellFormed() && s.data
    ensures s'.WellFormed()
  {
    var error := BlockError(s.mrq.value.data.value.blksz, now.regs.hsts);
    s.(mrq := Some(WithDataError(s.mrq.value, error)), trace := s.trace.(pios := s.trace.pios + 1, cut := cut),
       seen := Sees(s.seen, BehindBlock(now.regs.hsts)))
  }

  function Before(blocks: nat): nat {
    if blocks == 0 then 0 else blocks - 1
  }

  /** data_irq behind its error bits: the first block of a write, or the next one of a read. */
  function ServeData(s: State, now: Now, cut: Option<Cut>): (s': State)
    requires s.WellFormed() && s.data
    ensures s'.WellFormed()
  {
    if s.mrq.value.data.value.error != NoError then FinishData(s, now)
    else if !s.mrq.value.data.value.read then MoveBlock(s.(dataIrpt := false, blockIrpt := true), now, cut)
    else
      var s1 := MoveBlock(s, now, cut).(blocks := Before(s.blocks));
      if s1.blocks == 0 || s1.mrq.value.data.value.error != NoError then FinishData(s1, now) else s1
  }

  /** block_irq behind its error bits: the next block of a write, if there is one. */
  function ServeBlock(s: State, now: Now, cut: Option<Cut>): (s': State)
    requires s.WellFormed() && s.data
    ensures s'.WellFormed()
  {
    if s.mrq.value.data.value.error != NoError then FinishData(s, now)
    else
      var s1 := s.(blocks := Before(s.blocks));
      if s1.blocks == 0 then FinishData(s1, now) else MoveBlock(s1, now, cut)
  }

  /** An interrupt for the data, and the error that it comes with. */
  function Noted(s: State, mask: Status): (s': State)
    requires s.WellFormed() && s.data
    ensures s'.WellFormed() && s'.data
  {
    s.(mrq := Some(WithMaskError(s.mrq.value, mask)), seen := Sees(s.seen, AtInterrupt(mask)))
  }

  function DataIrq(s: State, mask: Status, now: Now, cut: Option<Cut>): (s': State)
    requires s.WellFormed()
    ensures s'.WellFormed()
  {
    if !s.data then s else ServeData(Noted(s, mask), now, cut)
  }

  function BlockIrq(s: State, mask: Status, now: Now, cut: Option<Cut>): (s': State)
    requires s.WellFormed()
    ensures s'.WellFormed()
  {
    if !s.data then s else ServeBlock(Noted(s, mask), now, cut)
  }

  /** busy_irq without the polling that follows it. */
  function BusyIrq(s: State, mask: Status): (s': State)
    requires s.WellFormed()
    ensures s'.WellFormed()
  {
    if !s.BusyWaiting() then s
    else s.(useBusy := false, mrq := if mask.HasError() then Some(WithBusyError(s.mrq.value, s.cmd, mask)) else s.mrq)
  }

  // ---------------------------------------------------------------- the steps

  /** A routine that has begun to poll leaves a frame; then s had no command in progress, or waited for busy. */
  function Push(s: State, rest: Rest): State {
    s.(frames := s.frames + [rest])
  }

  /** The data part of the interrupt handler. */
  function DataPart(s: State, mask: Status, now: Now, cut: Option<Cut>): (s': State)
    requires s.WellFormed()
    ensures s'.WellFormed()
  {
    if !(mask.data && s.dataIrpt) then s
    else
      var s1 := DataIrq(s, mask, now, cut);
      if s.cmd == Nothing && s1.Polled() then Push(s1, Return) else s1
  }

  /** The busy part and what follows it. */
  function BusyPart(s: State, mask: Status, now: Now, cut: Option<Cut>): (s': State)
    requires s.WellFormed()
    ensures s'.WellFormed()
  {
    if !mask.busy then DataPart(s, mask, now, cut)
    else if s.BusyWaiting() && !mask.HasError() then Push(BusyIrq(s, mask), DataOnly(mask))
    else DataPart(BusyIrq(s, mask), mask, now, cut)
  }

  /** The block part. */
  function BlockPart(s: State, mask: Status, now: Now, cut: Option<Cut>): (s': State)
    requires s.WellFormed()
    ensures s'.WellFormed()
  {
    if mask.block then BlockIrq(s, mask, now, cut) else s
  }

  /** Noting that an interrupt has come. */
  function Arrived(s: State, mask: Status, now: Now): State {
    s.(trace := s.trace.(busyError := if mask.busy && mask.HasError() then Some(now.turn) else s.trace.busyError))
  }

  /** irq_handler, up to its end or to its first polling. */
  function IrqHandler(s: State, mask: Status, now: Now, cut: Option<Cut>): (s': State)
    requires s.WellFormed()
    ensures s'.WellFormed()
  {
    AllParts(Arrived(s, mask, now), mask, now, cut)
  }

  /** Its three parts. */
  function AllParts(s: State, mask: Status, now: Now, cut: Option<Cut>): (s': State)
    requires s.WellFormed()
    ensures s'.WellFormed()
  {
    var s1 := BlockPart(s, mask, now, cut);
    if s.cmd == Nothing && s1.Polled() then Push(s1, BusyThenData(mask)) else BusyPart(s1, mask, now, cut)
  }

  /** A polling ends: its routine goes on to its end, unless it polls the stop command next. */
  function Resume(s: State, poll: Poll, now: Now, cut: Option<Cut>): (s': State)
    requires s.WellFormed() && s.cmd != Nothing && s.frames != []
    ensures s'.WellFormed()
  {
    var s1 := AfterPolling(s, poll, now);
    if s1.Polled() then s1
    else
      var s2 := s1.(frames := s.frames[1..]);
      match s.frames[0]
      case Return => s2
      case BusyThenData(mask) => BusyPart(s2, mask, now, cut)
      case DataOnly(mask) => DataPart(s2, mask, now, cut)
  }

  /** The status register shows a block interrupt only while that interrupt is enabled. */
  function Shown(s: State, mask: Status): Status {
    if s.blockIrpt then mask else mask.(block := false)
  }

  /** One step of the environment; without a polling, the end of one is no step. */
  function Step(s: State, event: Event, now: Now, cut: Option<Cut>): (s': State)
    requires s.WellFormed()
    ensures s'.WellFormed()
  {
    match event
    case Interrupt(mask, _) => IrqHandler(s, Shown(s, mask), now, cut)
    case PollEnds(poll, _) => if s.frames == [] || s.cmd == Nothing then s else Resume(s, poll, now, cut)
  }

  /** The main command is sent, and polled unless it waits for busy. */
  function SendMain(s: State, now: Now): (s': State)
    requires s.mrq.Some?
    ensures s'.WellFormed()
  {
    var s1 := Send(s, Main, now);
    if s1.Polled() then s1.(frames := [Return]) else s1
  }

  function Begin(s: State, now: Now): (s': State)
    requires s.mrq.Some?
    ensures s'.WellFormed()
  {
    if now.regs.ready then SendMain(s, now) else Signal(s, WithCommandError(s.mrq.value, Main, EILSEQ))
  }

  /** request. */
  function Requested(s: State, req: Request, looks: nat, now: Now): (s': State)
    requires s.WellFormed()
    ensures s'.WellFormed()
  {
    var (r, s0) := (WithoutErrors(req), s.(trace := Untouched(now.turn, looks), seen := UNSEEN));
    if !GoodBlockSize(r) then s0.(signalled := Some(WithCommandError(r, Main, EINVAL)))
    else Begin(s0.(mrq := Some(r)), now)
  }

  // ---------------------------------------------------------------- what the steps do to a request

  /** A request is in progress after its first step exactly if the controller takes its command. */
  lemma WhoBegins(s: State, req: Request, looks: nat, now: Now)
    requires s.WellFormed() && s.mrq == None
    ensures var s1 := Requested(s, req, looks, now);
            && (s1.mrq.Some? <==> Begins(req, now.regs))
            && s1.data == (s1.mrq.Some? && req.data.Some?) && s1.trace.began == now.turn && s1.trace.looks == looks
            && (s1.mrq == None ==> && s1.trace == Untouched(now.turn, looks)
                                   && s1.signalled == Some(AsReported(WithCommandError(WithoutErrors(req), Main, Refusal(req, now.regs)))))
  {
    hide IsPowerOf2, Send;
    var s0 := s.(trace := Untouched(now.turn, looks), seen := UNSEEN, mrq := Some(WithoutErrors(req)));
    if GoodBlockSize(req) && now.regs.ready {
      WhoIsSent(s0, now);
    }
  }

  lemma WhoIsSent(s: State, now: Now)
    requires s.mrq.Some? && s.mrq.value.cmd.error == NoError
    ensures var (req, s1) := (s.mrq.value, Send(s, Main, now));
            && (s1.mrq.Some? <==> StopBegins(req.cmd, now.regs)) && s1.data == (s1.mrq.Some? && req.data.Some?)
            && s1.trace == s.trace.(sent := s1.trace.sent)
            && (s1.mrq == None ==> && s1.trace == s.trace
                                   && s1.signalled == Some(AsReported(if now.regs.newFlag then req else WithCommandError(req, Main, EINVAL))))
  {
    hide IsPowerOf2;
  }

  /** A frame is left only by a routine that polls, and there is one at most. */
  predicate OnePoller(s: State) {
    s.WellFormed() && (s.frames != [] ==> |s.frames| == 1 && s.Polled())
  }

  /** A command in progress is not touched. */
  predicate LeavesCommand(s: State, s': State) {
    && s'.WellFormed() && s'.frames == s.frames
    && (s.cmd != Nothing ==> s'.cmd == s.cmd && s'.useBusy == s.useBusy && s'.signalled == s.signalled)
  }

  lemma FinishDataLeavesCommand(s: State, now: Now)
    requires s.WellFormed() && s.data
    ensures LeavesCommand(s, FinishData(s, now))
  {
  }

  lemma DataIrqLeavesCommand(s: State, mask: Status, now: Now, cut: Option<Cut>)
    requires s.WellFormed()
    ensures LeavesCommand(s, DataIrq(s, mask, now, cut))
  {
    hide FinishData, MoveBlock;
    if s.data {
      var s0 := Noted(s, mask);
      if s0.mrq.value.data.value.error != NoError {
        FinishDataLeavesCommand(s0, now);
      } else if !s0.mrq.value.data.value.read {
        MoveLeavesCommand(s0.(dataIrpt := false, blockIrpt := true), now, cut);
      } else {
        MoveLeavesCommand(s0, now, cut);
        FinishDataLeavesCommand(MoveBlock(s0, now, cut).(blocks := Before(s0.blocks)), now);
      }
    }
  }

  lemma MoveLeavesCommand(s: State, now: Now, cut: Option<Cut>)
    requires s.WellFormed() && s.data
    ensures LeavesCommand(s, MoveBlock(s, now, cut)) && MoveBlock(s, now, cut).data && MoveBlock(s, now, cut).cmd == s.cmd
    ensures MoveBlock(s, now, cut).useBusy == s.useBusy
  {
  }

  lemma BlockIrqLeavesCommand(s: State, mask: Status, now: Now, cut: Option<Cut>)
    requires s.WellFormed()
    ensures LeavesCommand(s, BlockIrq(s, mask, now, cut))
  {
    hide FinishData, MoveBlock;
    if s.data {
      var s0 := Noted(s, mask);
      FinishDataLeavesCommand(s0, now);
      var s1 := s0.(blocks := Before(s0.blocks));
      FinishDataLeavesCommand(s1, now);
      MoveLeavesCommand(s1, now, cut);
    }
  }

  lemma DataPartSticks(s: State, mask: Status, now: Now, cut: Option<Cut>)
    requires OnePoller(s)
    ensures OnePoller(DataPart(s, mask, now, cut)) && (DataPart(s, mask, now, cut).Stuck() <==> s.Stuck())
    ensures s.cmd != Nothing ==> DataPart(s, mask, now, cut).signalled == s.signalled
  {
    hide DataIrq;
    DataIrqLeavesCommand(s, mask, now, cut);
  }

  lemma BusyPartSticks(s: State, mask: Status, now: Now, cut: Option<Cut>)
    requires OnePoller(s)
    ensures OnePoller(BusyPart(s, mask, now, cut))
    ensures BusyPart(s, mask, now, cut).Stuck() <==> s.Stuck() || (s.BusyWaiting() && mask.busy && mask.HasError())
    ensures s.Stuck() ==> BusyPart(s, mask, now, cut).signalled == s.signalled
  {
    hide DataPart, WithBusyError;
    DataPartSticks(s, mask, now, cut);
    DataPartSticks(BusyIrq(s, mask), mask, now, cut);
  }

  /** What the busy part finds. */
  function AtBusyPart(s: State, mask: Status, now: Now, cut: Option<Cut>): State
    requires s.WellFormed()
  {
    BlockPart(Arrived(s, mask, now), mask, now, cut)
  }

  /** Main result. An interrupt leaves a request stuck exactly when it was, or waits for busy and the interrupt is a busy one with an error. */
  lemma IrqSticks(s: State, mask: Status, now: Now, cut: Option<Cut>)
    requires OnePoller(s)
    ensures OnePoller(IrqHandler(s, mask, now, cut))
    ensures IrqHandler(s, mask, now, cut).Stuck()
            <==> s.Stuck() || (AtBusyPart(s, mask, now, cut).BusyWaiting() && mask.busy && mask.HasError())
    ensures s.Stuck() ==> IrqHandler(s, mask, now, cut).signalled == s.signalled
  {
    hide BlockIrq, BusyPart;
    BlockIrqLeavesCommand(Arrived(s, mask, now), mask, now, cut);
    var s1 := AtBusyPart(s, mask, now, cut);
    if !(s.cmd == Nothing && s1.Polled()) {
      BusyPartSticks(s1, mask, now, cut);
    }
  }

  /** No interrupt touches a command that is being polled: neither is it retired, nor its request signalled. */
  lemma PolledIsLeft(s: State, mask: Status, now: Now, cut: Option<Cut>)
    requires OnePoller(s) && s.Polled()
    ensures var s' := IrqHandler(s, mask, now, cut);
            s'.Polled() && s'.cmd == s.cmd && s'.frames == s.frames && s'.signalled == s.signalled
  {
    hide BlockIrq, BusyPart;
    BlockIrqLeavesCommand(Arrived(s, mask, now), mask, now, cut);
    BusyPartLeavesPolled(AtBusyPart(s, mask, now, cut), mask, now, cut);
  }

  lemma BusyPartLeavesPolled(s: State, mask: Status, now: Now, cut: Option<Cut>)
    requires s.WellFormed() && s.Polled()
    ensures LeavesCommand(s, BusyPart(s, mask, now, cut))
  {
    hide DataIrq;
    DataIrqLeavesCommand(s, mask, now, cut);
  }

  /** A busy interrupt ends every busy wait. */
  lemma BusyEndsWait(s: State, mask: Status, now: Now, cut: Option<Cut>)
    requires OnePoller(s) && mask.busy && AtBusyPart(s, mask, now, cut).BusyWaiting()
    ensures var s' := IrqHandler(s, mask, now, cut); s'.Polled() && s'.cmd == AtBusyPart(s, mask, now, cut).cmd
  {
    hide BlockIrq, DataIrq, WithBusyError;
    var s1 := AtBusyPart(s, mask, now, cut);
    BlockIrqLeavesCommand(Arrived(s, mask, now), mask, now, cut);
    DataIrqLeavesCommand(BusyIrq(s1, mask), mask, now, cut);
  }

  /**
   An interrupt moves a block: the next one of a write if it is a block interrupt and there is one, or one at
   the data interrupt, unless the handler goes to poll before it gets there. No block is moved after an error.
   */
  predicate Moves(s: State, mask: Status)
    requires s.WellFormed()
  {
    && s.data && WithMaskError(s.mrq.value, mask).data.value.error == NoError
    && if mask.block then s.blocks > 1
       else mask.data && s.dataIrpt && !(mask.busy && s.BusyWaiting() && !mask.HasError())
            && !(mask.busy && s.BusyWaiting() && WithBusyError(s.mrq.value, s.cmd, mask).data.value.error != NoError)
  }

  lemma IrqMoves(s: State, mask: Status, now: Now, cut: Option<Cut>)
    requires OnePoller(s) && (s.data ==> s.dataIrpt == !s.blockIrpt) && (mask.block ==> s.blockIrpt)
    ensures IrqHandler(s, mask, now, cut).trace.pios == s.trace.pios + if Moves(s, mask) then 1 else 0
  {
    hide ServeData, ServeBlock;
    var s0 := Arrived(s, mask, now);
    var s1 := AtBusyPart(s, mask, now, cut);
    if mask.block && s.data {
      ServedBlock(Noted(s0, mask), now, cut);
    } else if s1.data && s1.dataIrpt {
      ServedData(Noted(s1, mask), now, cut);
      var s2 := BusyIrq(s1, mask);
      ServedData(Noted(s2, mask), now, cut);
    }
  }

  lemma ServedBlock(s: State, now: Now, cut: Option<Cut>)
    requires s.WellFormed() && s.data && !s.dataIrpt
    ensures var s' := ServeBlock(s, now, cut);
            && s'.trace.pios == s.trace.pios + (if s.mrq.value.data.value.error == NoError && s.blocks > 1 then 1 else 0)
            && !s'.dataIrpt
  {
    hide FinishData;
    FinishDataMovesNothing(s, now);
    FinishDataMovesNothing(s.(blocks := Before(s.blocks)), now);
  }

  lemma ServedData(s: State, now: Now, cut: Option<Cut>)
    requires s.WellFormed() && s.data
    ensures ServeData(s, now, cut).trace.pios == s.trace.pios + if s.mrq.value.data.value.error == NoError then 1 else 0
  {
    hide FinishData;
    if s.mrq.value.data.value.error != NoError {
      FinishDataMovesNothing(s, now);
    } else if s.mrq.value.data.value.read {
      FinishDataMovesNothing(MoveBlock(s, now, cut).(blocks := Before(s.blocks)), now);
    }
  }

  lemma FinishDataMovesNothing(s: State, now: Now)
    requires s.WellFormed() && s.data
    ensures FinishData(s, now).trace.pios == s.trace.pios && !FinishData(s, now).dataIrpt
  {
  }

  /** The block interrupt ends the data. */
  predicate EndsByBlock(s: State, mask: Status)
    requires s.WellFormed() && s.data
  {
    WithMaskError(s.mrq.value, mask).data.value.error != NoError || s.blocks <= 1
  }

  /** Who waits for busy there did before the interrupt, unless the block part has just sent a stop command. */
  lemma WaitsAtBusyPart(s: State, mask: Status, now: Now, cut: Option<Cut>)
    requires s.WellFormed()
    ensures AtBusyPart(s, mask, now, cut).BusyWaiting()
            <==> s.BusyWaiting() || (&& mask.block && s.cmd == Nothing && s.data && EndsByBlock(s, mask)
                                     && StopIsBusy(s.mrq.value) && StopBegins(s.mrq.value.stop.value, now.regs))
  {
    hide FinishData, MoveBlock, WithMaskError;
    var s0 := Arrived(s, mask, now);
    if mask.block && s.data {
      var s1 := Noted(s0, mask);
      var s2 := s1.(blocks := Before(s.blocks));
      MaskKeepsCommands(s.mrq.value, mask);
      FinishDataWaits(s1, now);
      FinishDataWaits(s2, now);
      if s2.blocks > 0 && s1.mrq.value.data.value.error == NoError {
        MoveLeavesCommand(s2, now, cut);
      }
    }
  }

  lemma MaskKeepsCommands(req: Request, mask: Status)
    requires req.data.Some?
    ensures WithMaskError(req, mask).cmd == req.cmd && WithMaskError(req, mask).stop == req.stop && WithMaskError(req, mask).data.Some?
  {
  }

  lemma NothingMoved(s: State, mask: Status, now: Now, cut: Option<Cut>, cut': Option<Cut>)
    requires s.WellFormed() && (mask.block && s.data ==> cut == cut')
    ensures BlockPart(s, mask, now, cut) == BlockPart(s, mask, now, cut')
  {
  }

  lemma FinishDataWaits(s: State, now: Now)
    requires s.WellFormed() && s.data
    ensures FinishData(s, now).BusyWaiting()
            <==> s.BusyWaiting() || (s.cmd == Nothing && StopIsBusy(s.mrq.value) && StopBegins(s.mrq.value.stop.value, now.regs))
  {
  }

  /** The end of a polling leaves a request stuck only by the busy part of an interrupt handler that it goes on with. */
  lemma ResumeSticks(s: State, poll: Poll, now: Now, cut: Option<Cut>)
    requires OnePoller(s) && s.frames != []
    ensures OnePoller(Resume(s, poll, now, cut))
    ensures Resume(s, poll, now, cut).Stuck() <==>
              && s.frames[0].BusyThenData? && s.frames[0].mask.busy && s.frames[0].mask.HasError()
              && AfterPolling(s, poll, now).BusyWaiting()
  {
    hide AfterPolling, BusyPart, DataPart;
    PollingKeepsFrames(s, poll, now);
    var s1 := AfterPolling(s, poll, now);
    if !s1.Polled() {
      var s2 := s1.(frames := s.frames[1..]);
      if s.frames[0] != Return {
        BusyPartSticks(s2, s.frames[0].mask, now, cut);
        DataPartSticks(s2, s.frames[0].mask, now, cut);
      }
    }
  }

  lemma PollingKeepsFrames(s: State, poll: Poll, now: Now)
    requires s.WellFormed() && s.cmd != Nothing
    ensures AfterPolling(s, poll, now).frames == s.frames
  {
    hide Complete;
    if !poll.StillNew? && s.cmd == Main && s.data {
      var req := WithCommand(s.mrq.value, s.cmd, Answered(CommandOf(s.mrq.value, s.cmd), poll.resp0));
      var s1 := s.(seen := PollSeen(s.seen, s.cmd, now.turn), mrq := Some(req));
      CompleteKeepsFrames(s1.(cmd := Nothing, trace := s1.trace.(retired := true)), now);
    }
  }

  lemma CompleteKeepsFrames(s: State, now: Now)
    requires s.mrq.Some? && s.mrq.value.data.Some?
    ensures Complete(s, now).frames == s.frames
  {
  }

  /** Which error a busy interrupt notes where: a CRC error of the command there, one of the data there, if the request has data. */
  lemma BusyErrorNoted(s: State, mask: Status)
    requires s.WellFormed() && s.BusyWaiting()
    ensures var s' := BusyIrq(s, mask);
            var (before, after) := (CommandOf(s.mrq.value, s.cmd), CommandOf(s'.mrq.value, s.cmd));
            var (d, d') := (s.mrq.value.data, s'.mrq.value.data);
            && !s'.useBusy && s'.cmd == s.cmd && (!mask.HasError() ==> s'.mrq == s.mrq)
            && (mask.crc7 ==> after == before.(error := EILSEQ) && d' == d)
            && (!mask.crc7 && (mask.crc16 || mask.fifo || mask.rewTimeOut) ==>
                  var error := if mask.crc16 || mask.fifo then EILSEQ else ETIMEDOUT;
                  if d.Some? then after == before && d' == Some(d.value.(error := error)) else after == before.(error := error) && d' == d)
            && (mask.cmdTimeOut && !mask.crc7 && !mask.crc16 && !mask.fifo && !mask.rewTimeOut ==>
                  after == before.(error := ETIMEDOUT) && d' == d)
  {
  }

  /** Main result. Nothing ever ends a stuck request. */
  lemma StuckForever(s: State, event: Event, now: Now, cut: Option<Cut>)
    requires OnePoller(s) && s.Stuck()
    ensures Step(s, event, now, cut).Stuck() && Step(s, event, now, cut).signalled == s.signalled
  {
    hide IrqHandler;
    match event
    case Interrupt(mask, _) => IrqSticks(s, Shown(s, mask), now, cut);
    case PollEnds(_, _) =>
  }
}
