/**
 What the registers have shown of a request, and what the request is signalled with: the errors of its commands,
 of its data and of its stop command, the response and the number of bytes, each by what was seen of it.

 Nothing here refers to the functions by which the driver computes these.
 */
module SdVerdict {
  import opened Modular
  import opened Options
  import opened SdProtocol
  import opened SdTransfer

  // ---------------------------------------------------------------- commands

  /** Polling ends well with success, and for command 1 with a CRC error too. */
  predicate Fine(poll: Poll, opcode: nat) {
    poll.Succeeded? || (poll.Failed? && poll.hsts.crc7 && opcode == 1)
  }

  /** The polling of a command ended at step k of the request. */
  ghost predicate PolledAt(env: Environment, k: nat, began: nat, turn: nat) {
    began < k <= turn && env.At(k).PollEnds?
  }

  /** A command that was polled: its error, and its response. */
  predicate PollSays(c: Command, poll: Poll) {
    && (c.error == NoError <==> Fine(poll, c.opcode))
    && (c.error == ETIMEDOUT <==> !Fine(poll, c.opcode) && poll.Failed? && poll.hsts.cmdTimeOut)
    && (c.error == EILSEQ <==> !Fine(poll, c.opcode) && (poll.StillNew? || !poll.hsts.cmdTimeOut))
    && (Fine(poll, c.opcode) && c.present ==> c.resp0 == poll.resp0)
  }

  /** A voltage query that ended well, but was answered by zero. */
  predicate Unanswered(c: Command, poll: Poll) {
    Fine(poll, c.opcode) && (c.opcode == 1 || c.opcode == 5 || c.opcode == 41) && c.resp0 == 0
  }

  /** The main command as it is reported: such a query is reported as a timeout. */
  predicate ReportSays(c: Command, poll: Poll) {
    && (c.error == NoError <==> Fine(poll, c.opcode) && !Unanswered(c, poll))
    && (c.error == ETIMEDOUT <==> Unanswered(c, poll) || (!Fine(poll, c.opcode) && poll.Failed? && poll.hsts.cmdTimeOut))
    && (c.error == EILSEQ <==> !Fine(poll, c.opcode) && (poll.StillNew? || !poll.hsts.cmdTimeOut))
    && (Fine(poll, c.opcode) && c.present ==> c.resp0 == poll.resp0)
  }

  lemma Reported(c: Command, poll: Poll)
    requires PollSays(c, poll)
    ensures ReportSays(ReportedCommand(c), poll)
  {
  }

  // ---------------------------------------------------------------- data

  /** An error shows: of the data at an interrupt, of any kind behind a block, or at the end. */
  predicate Bad(x: Sight) {
    match x
    case AtInterrupt(mask) => mask.crc16 || mask.fifo || mask.rewTimeOut
    case BehindBlock(hsts) => hsts.crc16 || hsts.crc7 || hsts.fifo || hsts.cmdTimeOut || hsts.rewTimeOut
    case NotIdle => true
  }

  /** The error is not only that something took too long. */
  predicate Garbled(x: Sight) {
    match x
    case AtInterrupt(mask) => mask.crc16 || mask.fifo
    case BehindBlock(hsts) => hsts.crc16 || hsts.crc7 || hsts.fifo
    case NotIdle => false
  }

  predicate NoBlock(sights: seq<Sight>) {
    forall i :: 0 <= i < |sights| ==> !sights[i].BehindBlock?
  }

  predicate NoneBad(sights: seq<Sight>, from: nat) {
    forall i :: from <= i < |sights| ==> !Bad(sights[i])
  }

  /** The error of the data is that of the last bad sight. Without one, blocks of a wrong size are an error. */
  ghost predicate DataSays(error: Error, sights: seq<Sight>, blksz: nat) {
    && (error == NoError <==> NoneBad(sights, 0) && (blksz % 4 == 0 || NoBlock(sights)))
    && (error == EINVAL <==> NoneBad(sights, 0) && blksz % 4 != 0 && !NoBlock(sights))
    && (error == EILSEQ <==> exists i: nat :: i < |sights| && Bad(sights[i]) && Garbled(sights[i]) && NoneBad(sights, i + 1))
    && (error == ETIMEDOUT <==> exists i: nat :: i < |sights| && Bad(sights[i]) && !Garbled(sights[i]) && NoneBad(sights, i + 1))
  }

  /** No error shows before the end. */
  predicate Clean(sights: seq<Sight>, blksz: nat) {
    && (forall i :: 0 <= i < |sights| && Bad(sights[i]) ==> sights[i].NotIdle?)
    && (blksz % 4 == 0 || NoBlock(sights))
  }

  function Blocks(sights: seq<Sight>): nat {
    if sights == [] then 0 else Blocks(sights[..|sights| - 1]) + if sights[|sights| - 1].BehindBlock? then 1 else 0
  }

  lemma NothingSeen(blksz: nat)
    ensures DataSays(NoError, [], blksz) && Blocks([]) == 0 && Clean([], blksz)
  {
  }

  /** A bad sight decides the error. */
  lemma BadSight(sights: seq<Sight>, blksz: nat, x: Sight)
    requires Bad(x)
    ensures DataSays(if Garbled(x) then EILSEQ else ETIMEDOUT, sights + [x], blksz)
  {
    var n, all := |sights|, sights + [x];
    assert all[n] == x && NoneBad(all, n + 1);
    assert !NoneBad(all, 0);
    forall i: nat | i < n && Bad(all[i]) ensures !NoneBad(all, i + 1) {
      assert Bad(all[n]);
    }
  }

  /** A good one does not, but for the size of the block. */
  lemma GoodSight(error: Error, sights: seq<Sight>, blksz: nat, x: Sight)
    requires !Bad(x) && DataSays(error, sights, blksz) && (x.BehindBlock? ==> blksz % 4 == 0)
    ensures DataSays(error, sights + [x], blksz)
  {
    var n, all := |sights|, sights + [x];
    assert forall i :: 0 <= i < n ==> all[i] == sights[i];
    forall i: nat | i <= n ensures NoneBad(all, i) <==> NoneBad(sights, i) {
      if NoneBad(all, i) {
        forall j | i <= j < n ensures !Bad(sights[j]) {
          assert all[j] == sights[j];
        }
      }
    }
    assert NoBlock(sights) ==> x.BehindBlock? || NoBlock(all);
    assert NoBlock(all) ==> NoBlock(sights) by {
      if NoBlock(all) {
        assert forall i :: 0 <= i < n ==> !all[i].BehindBlock?;
      }
    }
    forall i: nat | i < |sights| && Bad(sights[i]) && NoneBad(sights, i + 1)
      ensures i < |all| && all[i] == sights[i] && Bad(all[i]) && NoneBad(all, i + 1)
    {
    }
    forall i: nat | i < |all| && Bad(all[i]) && NoneBad(all, i + 1) ensures i < n && NoneBad(sights, i + 1) && all[i] == sights[i] {
    }
  }

  lemma WrongSize(sights: seq<Sight>, blksz: nat, x: Sight)
    requires !Bad(x) && x.BehindBlock? && blksz % 4 != 0 && DataSays(NoError, sights, blksz)
    ensures DataSays(EINVAL, sights + [x], blksz)
  {
    var n, all := |sights|, sights + [x];
    assert all[n] == x;
    assert NoneBad(sights, 0);
    forall i | 0 <= i < |all| ensures !Bad(all[i]) {
      assert i < n ==> all[i] == sights[i];
    }
  }

  lemma OneMoreBlock(sights: seq<Sight>, x: Sight)
    ensures Blocks(sights + [x]) == Blocks(sights) + if x.BehindBlock? then 1 else 0
  {
    assert (sights + [x])[..|sights|] == sights;
  }

  // ---------------------------------------------------------------- a request in progress and its end

  /** The data of a request, by what was seen of it. */
  ghost predicate DataKnown(req: Request, sights: seq<Sight>, t: Trace) {
    if req.data.Some? then DataSays(req.data.value.error, sights, req.data.value.blksz) && Blocks(sights) == t.pios
    else sights == []
  }

  /** The number of bytes of a finished data phase: nothing, or all. */
  predicate BytesKnown(req: Request, sights: seq<Sight>) {
    req.data.Some? ==>
      var d := req.data.value;
      d.bytesXfered == if Clean(sights, d.blksz) then Span(d.blocks, d.blksz) else 0
  }

  /** The main command has ended well. */
  ghost predicate MainFine(env: Environment, c: Command, t: Trace, seen: Seen, turn: nat) {
    && seen.main.Some? && PolledAt(env, seen.main.value, t.began, turn) && t.retired
    && Fine(env.At(seen.main.value).poll, c.opcode) && (c.present ==> c.resp0 == env.At(seen.main.value).poll.resp0)
  }

  ghost predicate Underway(env: Environment, s: State, turn: nat)
    requires s.WellFormed() && s.mrq.Some?
  {
    var (req, t, seen) := (s.mrq.value, s.trace, s.seen);
    && req.cmd.error == NoError && (req.stop.Some? ==> req.stop.value.error == NoError)
    && DataKnown(req, seen.sights, t) && seen.stop == None && NotIdle !in seen.sights
    && (s.data && s.dataComplete ==> !s.dataIrpt && !s.blockIrpt && BytesKnown(req, seen.sights))
    && match s.cmd
       case Main => |t.sent| == 1 && t.stopTried == None && !t.retired && seen.main == None && (s.data <==> req.data.Some?)
       case Nothing => |t.sent| == 1 && t.stopTried == None && MainFine(env, req.cmd, t, seen, turn) && s.data && !s.dataComplete
       case Stopping => |t.sent| == 2 && MainFine(env, req.cmd, t, seen, turn) && !s.data && BytesKnown(req, seen.sights)
  }

  /** The stop command: polled if it was written; otherwise refused, or not tried. */
  ghost predicate StopKnown(env: Environment, req: Request, t: Trace, seen: Seen, turn: nat) {
    if |t.sent| == 2 then
      && req.stop.Some? && seen.stop.Some? && PolledAt(env, seen.stop.value, t.began, turn)
      && PollSays(req.stop.value, env.At(seen.stop.value).poll)
    else
      && seen.stop == None
      && (req.stop.Some? ==>
            req.stop.value.error == if t.stopTried.Some? && !env.Regs(t.stopTried.value).newFlag then EINVAL else NoError)
  }

  /** A request whose command was written, when it ends, and the data phase with it. */
  ghost predicate EndKnown(env: Environment, req: Request, t: Trace, seen: Seen, turn: nat) {
    && seen.main.Some? && PolledAt(env, seen.main.value, t.began, turn)
    && (t.retired <==> Fine(env.At(seen.main.value).poll, req.cmd.opcode)) && (t.retired ==> BytesKnown(req, seen.sights))
    && StopKnown(env, req, t, seen, turn) && DataKnown(req, seen.sights, t)
  }

  /** What such a request is signalled with. */
  ghost predicate Verdict(env: Environment, req: Request, t: Trace, seen: Seen, turn: nat) {
    EndKnown(env, req, t, seen, turn) && ReportSays(req.cmd, env.At(seen.main.value).poll)
  }

  /** The error that Command returns, by the request that was signalled and by what was seen of it. */
  ghost predicate Judged(env: Environment, req: Request, t: Trace, seen: Seen, result: Error) {
    && seen.main.Some? && env.At(seen.main.value).PollEnds?
    && var poll := env.At(seen.main.value).poll;
       && (poll.StillNew? ==> result == EILSEQ)
       && (poll.Failed? && !(poll.hsts.crc7 && req.cmd.opcode == 1) ==> result == if poll.hsts.cmdTimeOut then ETIMEDOUT else EILSEQ)
       && (result == NoError ==>
             && (poll.Failed? ==> poll.hsts.crc7 && req.cmd.opcode == 1)
             && (|t.sent| == 2 ==>
                   && seen.stop.Some? && env.At(seen.stop.value).PollEnds? && req.stop.Some?
                   && !env.At(seen.stop.value).poll.StillNew?
                   && (env.At(seen.stop.value).poll.Failed? ==> env.At(seen.stop.value).poll.hsts.crc7 && req.stop.value.opcode == 1))
             && (forall i :: 0 <= i < |seen.sights| ==>
                   match seen.sights[i]
                   case AtInterrupt(m) => !m.crc16 && !m.fifo && !m.rewTimeOut
                   case BehindBlock(h) => !h.crc16 && !h.crc7 && !h.fifo && !h.cmdTimeOut && !h.rewTimeOut
                   case NotIdle => false))
       && (req.cmd.error != NoError ==> result == req.cmd.error)
       && (req.cmd.error == NoError && req.data.Some? && req.data.value.error != NoError ==> result == req.data.value.error)
       && (req.cmd.error == NoError && (req.data.Some? ==> req.data.value.error == NoError) ==>
             result == if req.stop.Some? then req.stop.value.error else NoError)
  }

  lemma Judgement(env: Environment, req: Request, t: Trace, seen: Seen, turn: nat)
    requires Verdict(env, req, t, seen, turn)
    ensures Judged(env, req, t, seen, ResultOf(req))
  {
    if ResultOf(req) == NoError && req.data.Some? {
      forall i | 0 <= i < |seen.sights| ensures !Bad(seen.sights[i]) {
        assert NoneBad(seen.sights, 0);
      }
    }
  }

  /** What is known of the present request, or of the last one. */
  ghost predicate Known(env: Environment, s: State, turn: nat)
    requires s.WellFormed()
  {
    if s.mrq.Some? then Underway(env, s, turn)
    else s.trace.sent != [] ==> s.signalled.Some? && Verdict(env, s.signalled.value, s.trace, s.seen, turn)
  }

  /** A step in which the registers show what the environment says. */
  ghost predicate InStep(env: Environment, s: State, now: Now) {
    now.regs == env.Regs(now.turn) && s.trace.began < now.turn
  }

  lemma SignalTells(env: Environment, s: State, req: Request, turn: nat)
    requires EndKnown(env, req, s.trace, s.seen, turn) && PollSays(req.cmd, env.At(s.seen.main.value).poll)
    ensures Known(env, Signal(s, req), turn)
  {
    Reported(req.cmd, env.At(s.seen.main.value).poll);
  }

  // ---------------------------------------------------------------- every routine keeps it

  /** Command and data are both over. */
  ghost predicate BothOver(env: Environment, s: State, turn: nat)
  {
    s.mrq.Some? && s.cmd == Nothing
    && var (req, t, seen) := (s.mrq.value, s.trace, s.seen);
    && req.cmd.error == NoError && (req.stop.Some? ==> req.stop.value.error == NoError)
    && DataKnown(req, seen.sights, t) && seen.stop == None && NotIdle !in seen.sights && BytesKnown(req, seen.sights)
    && |t.sent| == 1 && t.stopTried == None && MainFine(env, req.cmd, t, seen, turn) && req.data.Some?
  }

  lemma SendTells(env: Environment, s: State, now: Now)
    requires BothOver(env, s, now.turn) && !s.data && s.mrq.value.stop.Some? && InStep(env, s, now)
    ensures Known(env, Send(s, Stopping, now), now.turn)
  {
    hide DataSays, Blocks, Clean, AsReported;
    var (req, t) := (s.mrq.value, Tried(s.trace, Stopping, now));
    if now.regs.newFlag {
      SignalTells(env, s.(trace := t), req, now.turn);
    } else if Unsupported(req.stop.value) {
      SignalTells(env, s.(trace := t), WithCommandError(req, Stopping, EINVAL), now.turn);
    }
  }

  lemma NotIdleSeen(error: Error, sights: seq<Sight>, blksz: nat)
    requires DataSays(error, sights, blksz)
    ensures DataSays(ETIMEDOUT, sights + [NotIdle], blksz) && Blocks(sights + [NotIdle]) == Blocks(sights)
    ensures Clean(sights + [NotIdle], blksz) <==> Clean(sights, blksz)
  {
    BadSight(sights, blksz, NotIdle);
    OneMoreBlock(sights, NotIdle);
    var all := sights + [NotIdle];
    assert forall i :: 0 <= i < |sights| ==> all[i] == sights[i];
    assert NoBlock(all) <==> NoBlock(sights) by {
      if NoBlock(all) {
        forall i | 0 <= i < |sights| ensures !sights[i].BehindBlock? {
          assert !all[i].BehindBlock?;
        }
      }
    }
    if Clean(all, blksz) {
      forall i | 0 <= i < |sights| && Bad(sights[i]) ensures sights[i].NotIdle? {
        assert all[i] == sights[i];
      }
    }
  }

  lemma CompleteTells(env: Environment, s: State, now: Now)
    requires BothOver(env, s, now.turn) && InStep(env, s, now)
    ensures Known(env, Complete(s, now), now.turn)
  {
    hide DataSays, Blocks, Clean, AsReported, Send;
    var req := s.mrq.value;
    if req.stop.Some? {
      SendTells(env, s.(data := false), now);
    } else if now.regs.idle {
      SignalTells(env, s, req, now.turn);
    } else {
      NotIdleSeen(req.data.value.error, s.seen.sights, req.data.value.blksz);
      SignalTells(env, s.(seen := Sees(s.seen, NotIdle)), WithDataError(req, ETIMEDOUT), now.turn);
    }
  }

  /** Without the end in sight, the data is clean exactly if it has no error. */
  lemma CleanIffNoError(error: Error, sights: seq<Sight>, blksz: nat)
    requires DataSays(error, sights, blksz) && NotIdle !in sights
    ensures Clean(sights, blksz) <==> error == NoError
  {
    if Clean(sights, blksz) {
      forall i | 0 <= i < |sights| ensures !Bad(sights[i]) {
        assert sights[i] in sights;
      }
    }
  }

  lemma FinishDataTells(env: Environment, s: State, now: Now)
    requires s.WellFormed() && s.mrq.Some? && Underway(env, s, now.turn) && s.data && !s.dataComplete && InStep(env, s, now)
    ensures Known(env, FinishData(s, now), now.turn)
  {
    hide DataSays, Blocks, Clean, Complete;
    var d := s.mrq.value.data.value;
    CleanIffNoError(d.error, s.seen.sights, d.blksz);
    if s.cmd == Nothing {
      CompleteTells(env, CloseData(s), now);
    }
  }

  lemma MoveTells(env: Environment, s: State, now: Now, cut: Option<Cut>)
    requires s.WellFormed() && s.mrq.Some? && Underway(env, s, now.turn) && s.data && !s.dataComplete && InStep(env, s, now)
    requires s.mrq.value.data.value.error == NoError
    ensures Underway(env, MoveBlock(s, now, cut), now.turn) && !MoveBlock(s, now, cut).dataComplete
  {
    hide DataSays, Blocks, Clean;
    BlockTells(s.seen.sights, s.mrq.value.data.value.blksz, now.regs.hsts);
  }

  lemma BlockTells(sights: seq<Sight>, blksz: nat, hsts: Status)
    requires DataSays(NoError, sights, blksz)
    ensures DataSays(BlockError(blksz, hsts), sights + [BehindBlock(hsts)], blksz)
    ensures Blocks(sights + [BehindBlock(hsts)]) == Blocks(sights) + 1
  {
    hide DataSays, Blocks;
    var x := BehindBlock(hsts);
    OneMoreBlock(sights, x);
    if Bad(x) {
      BadSight(sights, blksz, x);
    } else if blksz % 4 == 0 {
      GoodSight(NoError, sights, blksz, x);
    } else {
      WrongSize(sights, blksz, x);
    }
  }

  lemma NotedTells(env: Environment, s: State, mask: Status, now: Now)
    requires s.WellFormed() && s.mrq.Some? && Underway(env, s, now.turn) && s.data && !s.dataComplete
    ensures Underway(env, Noted(s, mask), now.turn) && !Noted(s, mask).dataComplete
  {
    hide DataSays, Blocks, Clean;
    var d, x := s.mrq.value.data.value, AtInterrupt(mask);
    OneMoreBlock(s.seen.sights, x);
    if Bad(x) {
      BadSight(s.seen.sights, d.blksz, x);
    } else {
      GoodSight(d.error, s.seen.sights, d.blksz, x);
    }
  }

  /** Only the countdown and the interrupt enables differ. */
  lemma EnablesTell(env: Environment, s: State, s': State, turn: nat)
    requires s.WellFormed() && s.mrq.Some? && Underway(env, s, turn) && !s.dataComplete
    requires s' == s.(dataIrpt := s'.dataIrpt, blockIrpt := s'.blockIrpt, blocks := s'.blocks, useBusy := s'.useBusy)
    ensures Underway(env, s', turn)
  {
    hide DataSays, Blocks;
  }

  lemma ServeDataTells(env: Environment, s: State, now: Now, cut: Option<Cut>)
    requires s.WellFormed() && s.mrq.Some? && Underway(env, s, now.turn) && s.data && !s.dataComplete && InStep(env, s, now)
    ensures Known(env, ServeData(s, now, cut), now.turn)
  {
    hide FinishData, MoveBlock, Underway;
    if s.mrq.value.data.value.error != NoError {
      FinishDataTells(env, s, now);
    } else if !s.mrq.value.data.value.read {
      var s1 := s.(dataIrpt := false, blockIrpt := true);
      EnablesTell(env, s, s1, now.turn);
      MoveTells(env, s1, now, cut);
      MoveStays(s1, now, cut);
    } else {
      MoveTells(env, s, now, cut);
      MoveStays(s, now, cut);
      var s1 := MoveBlock(s, now, cut);
      EnablesTell(env, s1, s1.(blocks := Before(s.blocks)), now.turn);
      FinishDataTells(env, s1.(blocks := Before(s.blocks)), now);
    }
  }

  lemma MoveStays(s: State, now: Now, cut: Option<Cut>)
    requires s.WellFormed() && s.data
    ensures var s' := MoveBlock(s, now, cut);
            s'.mrq.Some? && s'.data && s'.trace.began == s.trace.began && s'.dataComplete == s.dataComplete && s'.blocks == s.blocks
  {
  }

  lemma ServeBlockTells(env: Environment, s: State, now: Now, cut: Option<Cut>)
    requires s.WellFormed() && s.mrq.Some? && Underway(env, s, now.turn) && s.data && !s.dataComplete && InStep(env, s, now)
    ensures Known(env, ServeBlock(s, now, cut), now.turn)
  {
    hide FinishData, MoveBlock, Underway;
    if s.mrq.value.data.value.error != NoError {
      FinishDataTells(env, s, now);
    } else {
      var s1 := s.(blocks := Before(s.blocks));
      EnablesTell(env, s, s1, now.turn);
      if s1.blocks == 0 {
        FinishDataTells(env, s1, now);
      } else {
        MoveTells(env, s1, now, cut);
        MoveStays(s1, now, cut);
      }
    }
  }

  /** An interrupt for the data is enabled. */
  lemma DataIrqTells(env: Environment, s: State, mask: Status, now: Now, cut: Option<Cut>)
    requires s.WellFormed() && Known(env, s, now.turn) && InStep(env, s, now) && (s.dataIrpt || s.blockIrpt)
    ensures Known(env, DataIrq(s, mask, now, cut), now.turn) && Known(env, BlockIrq(s, mask, now, cut), now.turn)
  {
    hide ServeData, ServeBlock;
    if s.data {
      assert !s.dataComplete;
      NotedTells(env, s, mask, now);
      var s1 := Noted(s, mask);
      hide Underway;
      ServeDataTells(env, s1, now, cut);
      ServeBlockTells(env, s1, now, cut);
    }
  }

  // ---------------------------------------------------------------- nothing is overlooked

  /** Behind the sights a come only the status behind a block of this step, and that the controller is not idle in it. */
  ghost predicate Adds(a: seq<Sight>, b: seq<Sight>, now: Now) {
    a <= b && forall i :: |a| <= i < |b| ==> b[i] == BehindBlock(now.regs.hsts) || (b[i] == NotIdle && !now.regs.idle)
  }

  lemma FinishDataSees(s: State, now: Now)
    requires s.WellFormed() && s.data
    ensures Adds(s.seen.sights, FinishData(s, now).seen.sights, now) && !FinishData(s, now).dataIrpt
  {
  }

  lemma ServedSees(s: State, now: Now, cut: Option<Cut>)
    requires s.WellFormed() && s.data
    ensures Adds(s.seen.sights, ServeData(s, now, cut).seen.sights, now)
    ensures !s.dataIrpt ==> Adds(s.seen.sights, ServeBlock(s, now, cut).seen.sights, now) && !ServeBlock(s, now, cut).dataIrpt
  {
    hide FinishData;
    FinishDataSees(s, now);
    FinishDataSees(s.(blocks := Before(s.blocks)), now);
    FinishDataSees(MoveBlock(s, now, cut).(blocks := Before(s.blocks)), now);
  }

  /** An interrupt is one for the data: at the block interrupt, or at the data interrupt unless the handler goes to poll before it gets there. */
  predicate Serves(s: State, mask: Status)
    requires s.WellFormed()
  {
    s.data && (mask.block || (mask.data && s.dataIrpt && !(mask.busy && s.BusyWaiting() && !mask.HasError())))
  }

  /** Main result. Every such interrupt is seen, and no other. */
  lemma IrqIsSeen(s: State, mask: Status, now: Now, cut: Option<Cut>)
    requires OnePoller(s) && (s.data ==> s.dataIrpt == !s.blockIrpt) && (mask.block ==> s.blockIrpt)
    ensures var sights := IrqHandler(s, mask, now, cut).seen.sights;
            if Serves(s, mask) then Adds(s.seen.sights + [AtInterrupt(mask)], sights, now) else sights == s.seen.sights
  {
    hide ServeData, ServeBlock;
    var s0 := Arrived(s, mask, now);
    var s1 := AtBusyPart(s, mask, now, cut);
    if mask.block && s.data {
      ServedSees(Noted(s0, mask), now, cut);
    } else if s1.data && s1.dataIrpt {
      ServedSees(Noted(s1, mask), now, cut);
      ServedSees(Noted(BusyIrq(s1, mask), mask), now, cut);
    }
  }

  // ---------------------------------------------------------------- the end of a polling

  lemma RetireTells(env: Environment, s: State, now: Now)
    requires s.WellFormed() && s.cmd == Main && InStep(env, s, now)
    requires Underway(env, s.(seen := s.seen.(main := None)), now.turn)
    requires MainFine(env, s.mrq.value.cmd, s.trace.(retired := true), s.seen, now.turn)
    ensures Known(env, Retire(s, now), now.turn)
  {
    hide DataSays, Blocks, Clean, Complete, AsReported;
    var s1 := s.(cmd := Nothing, trace := s.trace.(retired := true));
    if !s.data {
      SignalTells(env, s1, s.mrq.value, now.turn);
    } else if s.dataComplete {
      CompleteTells(env, s1, now);
    }
  }

  /** A polling that ends well, and one that does not. */
  lemma ProceedTells(env: Environment, s: State, poll: Poll, now: Now)
    requires s.WellFormed() && s.cmd != Nothing && Underway(env, s, now.turn) && InStep(env, s, now)
    requires env.At(now.turn) == PollEnds(poll, now.regs) && Fine(poll, CommandOf(s.mrq.value, s.cmd).opcode)
    ensures Known(env, Proceed(s.(seen := PollSeen(s.seen, s.cmd, now.turn)), poll.resp0, now), now.turn)
  {
    hide DataSays, Blocks, Clean, Retire, AsReported;
    var s0 := s.(seen := PollSeen(s.seen, s.cmd, now.turn));
    var req := WithCommand(s.mrq.value, s.cmd, Answered(CommandOf(s.mrq.value, s.cmd), poll.resp0));
    if s.cmd == Stopping {
      SignalTells(env, s0, req, now.turn);
    } else {
      RetireTells(env, s0.(mrq := Some(req)), now);
    }
  }

  lemma FailureTells(env: Environment, s: State, poll: Poll, now: Now, error: Error)
    requires s.WellFormed() && s.cmd != Nothing && Underway(env, s, now.turn) && InStep(env, s, now)
    requires env.At(now.turn) == PollEnds(poll, now.regs) && !Fine(poll, CommandOf(s.mrq.value, s.cmd).opcode)
    requires error == if poll.Failed? && poll.hsts.cmdTimeOut then ETIMEDOUT else EILSEQ
    ensures Known(env, Signal(s.(seen := PollSeen(s.seen, s.cmd, now.turn)), WithCommandError(s.mrq.value, s.cmd, error)), now.turn)
  {
    hide DataSays, Blocks, Clean, AsReported;
    var s0 := s.(seen := PollSeen(s.seen, s.cmd, now.turn));
    SignalTells(env, s0, WithCommandError(s.mrq.value, s.cmd, error), now.turn);
  }

  lemma PollingTells(env: Environment, s: State, poll: Poll, now: Now)
    requires s.WellFormed() && s.cmd != Nothing && Underway(env, s, now.turn) && InStep(env, s, now)
    requires env.At(now.turn) == PollEnds(poll, now.regs)
    ensures Known(env, AfterPolling(s, poll, now), now.turn)
  {
    hide Underway, Proceed, Verdict;
    var opcode := CommandOf(s.mrq.value, s.cmd).opcode;
    assert PollError(poll, opcode) == NoError <==> Fine(poll, opcode);
    if Fine(poll, opcode) {
      ProceedTells(env, s, poll, now);
    } else {
      FailureTells(env, s, poll, now, PollError(poll, opcode));
    }
  }

  // ---------------------------------------------------------------- the steps

  lemma FramesTell(env: Environment, s: State, s': State, turn: nat)
    requires s.WellFormed() && Known(env, s, turn)
    requires s' == s.(frames := s'.frames, trace := s.trace.(busyError := s'.trace.busyError))
    ensures s'.WellFormed() && Known(env, s', turn)
  {
    hide DataSays, Blocks, Clean;
  }

  lemma FinishDataStays(s: State, now: Now)
    requires s.WellFormed() && s.data
    ensures FinishData(s, now).trace.began == s.trace.began
  {
  }

  /** A handler does not change when the request began. */
  lemma DataIrqStays(s: State, mask: Status, now: Now, cut: Option<Cut>)
    requires s.WellFormed()
    ensures DataIrq(s, mask, now, cut).trace.began == s.trace.began
  {
    hide FinishData, MoveBlock;
    if s.data {
      var s0 := Noted(s, mask);
      FinishDataStays(s0, now);
      MoveStays(s0, now, cut);
      MoveStays(s0.(dataIrpt := false, blockIrpt := true), now, cut);
      MoveIsWellFormed(s0, now, cut);
      FinishDataStays(MoveBlock(s0, now, cut).(blocks := Before(s0.blocks)), now);
    }
  }

  lemma BlockIrqStays(s: State, mask: Status, now: Now, cut: Option<Cut>)
    requires s.WellFormed()
    ensures BlockIrq(s, mask, now, cut).trace.began == s.trace.began
  {
    hide FinishData, MoveBlock;
    if s.data {
      var s0 := Noted(s, mask);
      FinishDataStays(s0, now);
      FinishDataStays(s0.(blocks := Before(s0.blocks)), now);
      MoveStays(s0.(blocks := Before(s0.blocks)), now, cut);
    }
  }

  lemma MoveIsWellFormed(s: State, now: Now, cut: Option<Cut>)
    requires s.WellFormed() && s.data
    ensures MoveBlock(s, now, cut).WellFormed()
  {
  }

  lemma DataPartTells(env: Environment, s: State, mask: Status, now: Now, cut: Option<Cut>)
    requires s.WellFormed() && Known(env, s, now.turn) && InStep(env, s, now)
    ensures Known(env, DataPart(s, mask, now, cut), now.turn)
  {
    hide DataIrq, Known;
    if mask.data && s.dataIrpt {
      DataIrqTells(env, s, mask, now, cut);
      var s1 := DataIrq(s, mask, now, cut);
      FramesTell(env, s1, Push(s1, Return), now.turn);
    }
  }

  lemma BusyWaitTells(env: Environment, s: State, mask: Status, turn: nat)
    requires s.WellFormed() && Known(env, s, turn) && s.BusyWaiting() && !mask.HasError()
    ensures Known(env, BusyIrq(s, mask), turn)
  {
    hide DataSays, Blocks, Clean;
  }

  lemma BusyPartTells(env: Environment, s: State, mask: Status, now: Now, cut: Option<Cut>)
    requires OnePoller(s) && Known(env, s, now.turn) && InStep(env, s, now)
    ensures var s' := BusyPart(s, mask, now, cut); s'.Stuck() || Known(env, s', now.turn)
  {
    hide DataPart, BusyIrq, Known;
    if mask.busy && s.BusyWaiting() {
      if mask.HasError() {
        BusyPartSticks(s, mask, now, cut);
      } else {
        BusyWaitTells(env, s, mask, now.turn);
        var s1 := BusyIrq(s, mask);
        FramesTell(env, s1, Push(s1, DataOnly(mask)), now.turn);
      }
    } else {
      if mask.busy {
        NotWaiting(s, mask);
      }
      DataPartTells(env, s, mask, now, cut);
    }
  }

  lemma NotWaiting(s: State, mask: Status)
    requires s.WellFormed() && !s.BusyWaiting()
    ensures BusyIrq(s, mask) == s
  {
  }

  lemma BlockPartTells(env: Environment, s: State, mask: Status, now: Now, cut: Option<Cut>)
    requires s.WellFormed() && Known(env, s, now.turn) && InStep(env, s, now) && (mask.block ==> s.blockIrpt)
    ensures Known(env, BlockPart(s, mask, now, cut), now.turn) && InStep(env, BlockPart(s, mask, now, cut), now)
  {
    hide BlockIrq, Known;
    if mask.block {
      DataIrqTells(env, s, mask, now, cut);
      BlockIrqStays(s, mask, now, cut);
    }
  }

  lemma IrqTells(env: Environment, s: State, mask: Status, now: Now, cut: Option<Cut>)
    requires OnePoller(s) && Known(env, s, now.turn) && InStep(env, s, now) && (mask.block ==> s.blockIrpt)
    ensures var s' := IrqHandler(s, mask, now, cut); s'.Stuck() || Known(env, s', now.turn)
  {
    hide BlockIrq, BusyPart, Known;
    var s0 := Arrived(s, mask, now);
    FramesTell(env, s, s0, now.turn);
    BlockPartTells(env, s0, mask, now, cut);
    BlockIrqLeavesCommand(s0, mask, now, cut);
    var s1 := BlockPart(s0, mask, now, cut);
    if s.cmd == Nothing && s1.Polled() {
      FramesTell(env, s1, Push(s1, BusyThenData(mask)), now.turn);
    } else {
      BusyPartTells(env, s1, mask, now, cut);
    }
  }

  lemma ResumeTells(env: Environment, s: State, poll: Poll, now: Now, cut: Option<Cut>)
    requires OnePoller(s) && s.frames != [] && Known(env, s, now.turn) && InStep(env, s, now)
    requires env.At(now.turn) == PollEnds(poll, now.regs)
    ensures var s' := Resume(s, poll, now, cut); s'.Stuck() || Known(env, s', now.turn)
  {
    hide AfterPolling, BusyPart, DataPart, Underway, Verdict;
    PollingTells(env, s, poll, now);
    PollingKeepsFrames(s, poll, now);
    SameRequestPolled(s, poll, now);
    var s1 := AfterPolling(s, poll, now);
    if !s1.Polled() {
      var s2 := s1.(frames := s.frames[1..]);
      FramesTell(env, s1, s2, now.turn);
      match s.frames[0]
      case Return =>
      case BusyThenData(mask) => BusyPartTells(env, s2, mask, now, cut);
      case DataOnly(mask) => DataPartTells(env, s2, mask, now, cut);
    }
  }

  lemma SameRequestPolled(s: State, poll: Poll, now: Now)
    requires s.WellFormed() && s.cmd != Nothing
    ensures AfterPolling(s, poll, now).trace.began == s.trace.began
  {
    hide Complete;
    if s.cmd == Main && s.data {
      var s1 := s.(seen := PollSeen(s.seen, s.cmd, now.turn));
      if !poll.StillNew? {
        var s2 := s1.(mrq := Some(WithCommand(s.mrq.value, Main, Answered(s.mrq.value.cmd, poll.resp0))), cmd := Nothing);
        CompleteStays(s2.(trace := s.trace.(retired := true)), now);
      }
    }
  }

  lemma CompleteStays(s: State, now: Now)
    requires s.mrq.Some? && s.mrq.value.data.Some?
    ensures Complete(s, now).trace.began == s.trace.began
  {
  }

  /** Time passes. */
  lemma LaterTells(env: Environment, s: State, turn: nat)
    requires s.WellFormed() && Known(env, s, turn)
    ensures Known(env, s, turn + 1)
  {
    hide DataSays, Blocks, Clean;
  }

  /** Main result. Every step keeps it, except that a request may get stuck; and that it stays. */
  lemma StepTells(env: Environment, s: State, now: Now, cut: Option<Cut>)
    requires OnePoller(s) && InStep(env, s, now) && now.turn > 0 && (s.Stuck() || Known(env, s, now.turn - 1))
    ensures var s' := Step(s, env.At(now.turn), now, cut); s'.Stuck() || Known(env, s', now.turn)
  {
    hide IrqHandler, Resume, Known;
    if s.Stuck() {
      StuckForever(s, env.At(now.turn), now, cut);
    } else {
      LaterTells(env, s, now.turn - 1);
      match env.At(now.turn)
      case Interrupt(mask, _) => IrqTells(env, s, Shown(s, mask), now, cut);
      case PollEnds(poll, _) =>
        if s.frames != [] {
          ResumeTells(env, s, poll, now, cut);
        }
    }
  }

  /** It holds from the first step of a request on. */
  lemma RequestTells(env: Environment, s: State, req: Request, looks: nat, now: Now)
    requires s.WellFormed() && s.mrq == None
    ensures Known(env, Requested(s, req, looks, now), now.turn)
  {
    hide IsPowerOf2, Send, Underway, Verdict, AsReported;
    var s0 := s.(trace := Untouched(now.turn, looks), seen := UNSEEN, mrq := Some(WithoutErrors(req)));
    if GoodBlockSize(req) && now.regs.ready {
      MainTells(env, s0, now);
      var s1 := Send(s0, Main, now);
      if s1.Polled() {
        FramesTell(env, s1, s1.(frames := [Return]), now.turn);
      }
    }
  }

  lemma MainTells(env: Environment, s: State, now: Now)
    requires s.mrq.Some? && s.mrq.value == WithoutErrors(s.mrq.value) && s.seen == UNSEEN && !s.data
    requires s.trace.sent == [] && s.trace.stopTried == None && s.trace.pios == 0 && !s.trace.retired
    ensures Known(env, Send(s, Main, now), now.turn)
  {
    hide Underway, Verdict, AsReported, Issue;
    if !now.regs.newFlag && !Unsupported(s.mrq.value.cmd) {
      IssueTells(env, s.(cmd := Main), now);
    }
  }

  lemma IssueTells(env: Environment, s: State, now: Now)
    requires s.mrq.Some? && s.cmd == Main && s.mrq.value == WithoutErrors(s.mrq.value) && s.seen == UNSEEN && !s.data
    requires s.trace.sent == [] && s.trace.stopTried == None && s.trace.pios == 0 && !s.trace.retired
    ensures Issue(s, now).mrq.Some? && Underway(env, Issue(s, now), now.turn)
  {
    hide DataSays, Blocks, Clean;
    if s.mrq.value.data.Some? {
      NothingSeen(s.mrq.value.data.value.blksz);
    }
  }
}
