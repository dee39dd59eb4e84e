/**
 Critical sections on one core. A stack of saved interrupt masks is shared by task, IRQ and FIQ code that
 interrupt each other at any machine step at which the interrupt mask lets them.

 A step is one access to the mask, to the stack or to its level; the frames are the interrupted contexts.
 */
module CriticalSection {
  import opened Options

  const TASK_LEVEL: nat := 0
  const IRQ_LEVEL: nat := 1
  const FIQ_LEVEL: nat := 2
  const MAX_CRITICAL_LEVEL: nat := 20

  /** The mask bits of the processor: set means that the interrupt is disabled. */
  datatype Flags = Flags(irq: bool, fiq: bool)

  const ALL_MASKED := Flags(true, true)

  function CurrentExecutionLevel(flags: Flags): nat {
    if flags.fiq then FIQ_LEVEL else if flags.irq then IRQ_LEVEL else TASK_LEVEL
  }

  function MaskOf(level: nat): Flags {
    Flags(level >= IRQ_LEVEL, level >= FIQ_LEVEL)
  }

  /** A section that a context has entered: the mask to go back to, its level, and the lock that guards it. */
  datatype Item = Item(saved: Flags, level: nat, lock: Option<nat>, taken: bool)

  /** Where a context is in EnterCritical, LeaveCritical, Acquire, Release or the interrupt stub. */
  datatype Pc =
    | Running
    | Read(target: nat, lock: Option<nat>, flags: Flags)    // mrs daif
    | Masked(target: nat, lock: Option<nat>, flags: Flags)  // msr DAIFSet, #3
    | Stored(target: nat, lock: Option<nat>, flags: Flags)  // the array element is written
    | Pushed                                                // the level is incremented
    | Spinning                                              // EnterCritical is over, the lock not yet taken
    | Released                                              // the lock is free again, LeaveCritical follows
    | FiqsOff                                               // DisableFIQs
    | Lowered                                               // the level is decremented
    | Fetched(flags: Flags)                                 // the array element is read
    | Prologue                                              // the IRQ stub before it enables FIQs
    | Epilogue                                              // the IRQ stub after it disabled FIQs

  /** A context: its level, the mask of the context it interrupted, the sections it is in. */
  datatype Frame = Frame(base: nat, saved: Flags, items: seq<Item>, pc: Pc)

  datatype Core = Core(flags: Flags, level: nat, saved: seq<Flags>, frames: seq<Frame>)

  // ---------------------------------------------------------------- what the state of a core should be

  /** The execution level of a context inside its sections. */
  function LevelIn(base: nat, items: seq<Item>): (level: nat)
    ensures level >= base
  {
    if items == [] then base
    else
      var outer := LevelIn(base, items[..|items| - 1]);
      if items[|items| - 1].level > outer then items[|items| - 1].level else outer
  }

  function FlagsAt(f: Frame): Flags {
    if f.pc.Running? || f.pc.Read? || f.pc.Spinning? || f.pc.Released? then MaskOf(LevelIn(f.base, f.items)) else ALL_MASKED
  }

  /** The masks that the sections of one context have on the stack. A lock of task level saves none. */
  function Saved(items: seq<Item>): seq<Flags> {
    if items == [] then []
    else Saved(items[..|items| - 1])
         + if items[|items| - 1].level == TASK_LEVEL then [] else [items[|items| - 1].saved]
  }

  function AllSaved(frames: seq<Frame>): seq<Flags> {
    if frames == [] then [] else AllSaved(frames[..|frames| - 1]) + Saved(frames[|frames| - 1].items)
  }

  /** Every section goes back to the mask that was in force where it was entered. */
  predicate ItemsGood(base: nat, items: seq<Item>) {
    items == [] ||
    var (outer, last) := (items[..|items| - 1], items[|items| - 1]);
    && ItemsGood(base, outer) && last.level <= FIQ_LEVEL && base <= FIQ_LEVEL
    && (last.level > TASK_LEVEL ==> last.saved == MaskOf(LevelIn(base, outer)) && last.level >= LevelIn(base, outer))
    && (last.lock.Some? ==> base <= last.level)
  }

  predicate PcGood(f: Frame) {
    && (f.pc.Read? || f.pc.Masked? || f.pc.Stored? ==>
          && IRQ_LEVEL <= f.pc.target <= FIQ_LEVEL && f.pc.target >= LevelIn(f.base, f.items)
          && f.pc.flags == MaskOf(LevelIn(f.base, f.items))
          && (f.pc.lock.Some? ==> f.base <= f.pc.target))
    && (f.pc.Pushed? || f.pc.Spinning? || f.pc.Released? || f.pc.FiqsOff? ==> f.items != [])
    && (f.pc.Spinning? ==> f.items[|f.items| - 1].lock.Some?)
    && (f.pc.Pushed? || f.pc.FiqsOff? ==> f.items[|f.items| - 1].level > TASK_LEVEL)
    && (f.pc.Fetched? ==> f.pc.flags == MaskOf(LevelIn(f.base, f.items)))
    && (f.pc.Prologue? || f.pc.Epilogue? ==> f.items == [] && f.base == IRQ_LEVEL)
  }

  /** A context has taken the locks of its sections, except the last one's while it enters or leaves it. */
  predicate LocksTaken(f: Frame) {
    forall i :: 0 <= i < |f.items| ==>
      f.items[i].taken == (f.items[i].lock.Some?
                           && !(i == |f.items| - 1 && (f.pc.Pushed? || f.pc.Spinning? || f.pc.Released? || f.pc.FiqsOff?)))
  }

  predicate FrameGood(f: Frame) {
    f.base <= FIQ_LEVEL && ItemsGood(f.base, f.items) && PcGood(f) && LocksTaken(f)
  }

  /** An interrupt of this level may arrive under this mask. */
  predicate Lets(flags: Flags, level: nat) {
    (level == IRQ_LEVEL && !flags.irq) || (level == FIQ_LEVEL && !flags.fiq)
  }

  /** Frame k was let in by, and will go back to, exactly the mask of the frame below it. */
  predicate Nested(frames: seq<Frame>, k: nat)
    requires k < |frames|
  {
    && FrameGood(frames[k])
    && (if k == 0 then frames[k].base == TASK_LEVEL
        else Lets(FlagsAt(frames[k - 1]), frames[k].base) && frames[k].saved == FlagsAt(frames[k - 1]))
  }

  ghost predicate Good(c: Core) {
    && c.frames != [] && (forall k: nat :: k < |c.frames| ==> Nested(c.frames, k))
    && c.flags == FlagsAt(Top(c))
    && |c.saved| == MAX_CRITICAL_LEVEL && StackGood(c)
  }

  function Top(c: Core): Frame
    requires c.frames != []
  {
    c.frames[|c.frames| - 1]
  }

  /** The stack holds the masks of all sections of all contexts, in the order in which they were entered. */
  predicate StackGood(c: Core)
    requires c.frames != [] && |c.saved| == MAX_CRITICAL_LEVEL
  {
    && c.level <= MAX_CRITICAL_LEVEL && c.saved[..c.level] == AllSaved(c.frames)
    && (Top(c).pc.Stored? ==> c.level < MAX_CRITICAL_LEVEL && c.saved[c.level] == Top(c).pc.flags)
    && (Top(c).pc.Lowered? ==> c.level < MAX_CRITICAL_LEVEL && c.saved[c.level] == MaskOf(LevelIn(Top(c).base, Top(c).items)))
  }

  // ---------------------------------------------------------------- the steps

  datatype Action =
    | Enter(target: nat, lock: Option<nat>)  // EnterCritical or Acquire begins
    | Advance                                // the next step of the routine the context is in
    | TakeLock                               // the compare-and-set of Acquire succeeds
    | Leave                                  // LeaveCritical begins; for a lock, Release has just freed it
    | Interrupt(level: nat)
    | End                                    // the IRQ stub disables FIQs
    | Return                                 // eret

  /** The source's assertions, and that an interrupt arrives only when its mask bit is clear. */
  predicate Enabled(c: Core, a: Action)
    requires c.frames != []
  {
    var f := Top(c);
    match a
    case Enter(target, lock) =>
      && f.pc.Running? && target <= FIQ_LEVEL
      && (lock.Some? ==> f.base <= target)                       // the lock is used up to its level only
      && (lock == None ==> target >= IRQ_LEVEL)                  // assert in EnterCritical
      && (target == IRQ_LEVEL ==> !c.flags.fiq)                  // assert in EnterCritical
    case Advance =>
      && (f.pc.Masked? ==> c.level < MAX_CRITICAL_LEVEL)         // assert in EnterCritical
      && !f.pc.Running? && !f.pc.Spinning? && !f.pc.Epilogue?
    case TakeLock => f.pc.Spinning?
    case Leave => f.pc.Running? && f.items != []
    case Interrupt(level) => Lets(c.flags, level)
    case End => f.base == IRQ_LEVEL && f.pc.Running? && f.items == []
    case Return => |c.frames| > 1 && (if f.base == IRQ_LEVEL then f.pc.Epilogue? else f.pc.Running? && f.items == [])
  }

  function WithTop(c: Core, f: Frame): Core
    requires c.frames != []
  {
    c.(frames := c.frames[..|c.frames| - 1] + [f])
  }

  function Outer(f: Frame): seq<Item>
    requires f.items != []
  {
    f.items[..|f.items| - 1]
  }

  function Last(f: Frame): Item
    requires f.items != []
  {
    f.items[|f.items| - 1]
  }

  /** What a step needs of the context that takes it. */
  predicate Ready(c: Core) {
    && c.frames != [] && FrameGood(Top(c)) && |c.saved| == MAX_CRITICAL_LEVEL
    && (Top(c).pc.Lowered? ==> c.level < MAX_CRITICAL_LEVEL)
  }

  lemma GoodIsReady(c: Core)
    requires Good(c)
    ensures Ready(c)
  {
    assert Nested(c.frames, |c.frames| - 1);
  }

  function Apply(c: Core, a: Action): Core
    requires Ready(c) && Enabled(c, a)
  {
    var f := Top(c);
    match a
    case Enter(target, lock) =>
      if target == TASK_LEVEL then WithTop(c, f.(items := f.items + [Item(c.flags, target, lock, false)], pc := Spinning))
      else WithTop(c, f.(pc := Read(target, lock, c.flags)))
    case Advance => Advanced(c)
    case TakeLock => WithTop(c, f.(items := Outer(f) + [Last(f).(taken := true)], pc := Running))
    case Leave => WithTop(c, f.(items := Outer(f) + [Last(f).(taken := false)], pc := Released))
    case Interrupt(level) =>
      c.(flags := ALL_MASKED,
         frames := c.frames + [Frame(level, c.flags, [], if level == IRQ_LEVEL then Prologue else Running)])
    case End => WithTop(c, f.(pc := Epilogue)).(flags := c.flags.(fiq := true))
    case Return => c.(flags := f.saved, frames := c.frames[..|c.frames| - 1])
  }

  function Advanced(c: Core): Core
    requires Ready(c) && Enabled(c, Advance)
  {
    var f := Top(c);
    match f.pc
    case Read(target, lock, flags) => WithTop(c, f.(pc := Masked(target, lock, flags))).(flags := ALL_MASKED)
    case Masked(target, lock, flags) =>
      WithTop(c, f.(pc := Stored(target, lock, flags))).(saved := c.saved[c.level := flags])
    case Stored(target, lock, flags) =>
      WithTop(c, f.(pc := Pushed, items := f.items + [Item(flags, target, lock, false)])).(level := c.level + 1)
    case Pushed =>
      WithTop(c, f.(pc := if Last(f).lock.Some? then Spinning else Running))
      .(flags := if Last(f).level == IRQ_LEVEL then c.flags.(fiq := false) else c.flags)
    case Released =>
      if Last(f).level == TASK_LEVEL then WithTop(c, f.(pc := Running, items := Outer(f)))
      else WithTop(c, f.(pc := FiqsOff)).(flags := c.flags.(fiq := true))
    case FiqsOff => WithTop(c, f.(pc := Lowered, items := Outer(f))).(level := if c.level == 0 then 0 else c.level - 1)
    case Lowered => WithTop(c, f.(pc := Fetched(c.saved[c.level])))
    case Fetched(flags) => WithTop(c, f.(pc := Running)).(flags := flags)
    case Prologue => WithTop(c, f.(pc := Running)).(flags := c.flags.(fiq := false))
    case _ => c
  }

  // ---------------------------------------------------------------- every step keeps the core good

  /** Exchanging the top frame keeps a core good when the new frame is, and the mask and the stack fit it. */
  lemma TopChanged(c: Core, c': Core, f: Frame)
    requires Good(c) && c'.frames == c.frames[..|c.frames| - 1] + [f]
    requires f.base == Top(c).base && f.saved == Top(c).saved && FrameGood(f)
    requires c'.flags == FlagsAt(f) && |c'.saved| == MAX_CRITICAL_LEVEL && StackGood(c')
    ensures Good(c')
  {
    forall k: nat | k < |c'.frames| ensures Nested(c'.frames, k) {
      assert Nested(c.frames, k);
      assert k > 0 ==> c'.frames[k - 1] == c.frames[k - 1];
    }
  }

  lemma AllSavedOfTop(c: Core, f: Frame)
    requires c.frames != []
    ensures AllSaved(c.frames) == AllSaved(c.frames[..|c.frames| - 1]) + Saved(Top(c).items)
    ensures AllSaved(c.frames[..|c.frames| - 1] + [f]) == AllSaved(c.frames[..|c.frames| - 1]) + Saved(f.items)
  {
    var frames := c.frames[..|c.frames| - 1] + [f];
    assert frames[..|frames| - 1] == c.frames[..|c.frames| - 1];
  }

  lemma SavedOfMore(items: seq<Item>, i: Item)
    ensures Saved(items + [i]) == Saved(items) + if i.level == TASK_LEVEL then [] else [i.saved]
    ensures forall base :: LevelIn(base, items + [i]) == if i.level > LevelIn(base, items) then i.level else LevelIn(base, items)
  {
    assert (items + [i])[..|items|] == items;
  }

  /** Steps that leave the sections and the stack alone. */
  lemma StackUnchanged(c: Core, c': Core, f: Frame)
    requires Good(c) && c'.frames == c.frames[..|c.frames| - 1] + [f] && Saved(f.items) == Saved(Top(c).items)
    requires c'.level == c.level && |c'.saved| == MAX_CRITICAL_LEVEL && c'.saved[..c.level] == c.saved[..c.level]
    ensures c'.level <= MAX_CRITICAL_LEVEL && c'.saved[..c'.level] == AllSaved(c'.frames)
  {
    AllSavedOfTop(c, f);
  }

  lemma {:induction false} LevelBounded(base: nat, items: seq<Item>)
    requires ItemsGood(base, items) && base <= FIQ_LEVEL
    ensures LevelIn(base, items) <= FIQ_LEVEL
  {
    if items != [] {
      LevelBounded(base, items[..|items| - 1]);
    }
  }

  lemma EnterKeepsGood(c: Core, target: nat, lock: Option<nat>)
    requires Good(c) && Enabled(c, Enter(target, lock)) && target > TASK_LEVEL
    ensures Ready(c) && Good(Apply(c, Enter(target, lock)))
  {
    GoodIsReady(c);
    var c' := Apply(c, Enter(target, lock));
    LevelBounded(Top(c).base, Top(c).items);
    StackUnchanged(c, c', Top(c'));
    TopChanged(c, c', Top(c'));
  }

  lemma EnterTaskLockKeepsGood(c: Core, lock: nat)
    requires Good(c) && Enabled(c, Enter(TASK_LEVEL, Some(lock)))
    ensures Ready(c) && Good(Apply(c, Enter(TASK_LEVEL, Some(lock))))
  {
    GoodIsReady(c);
    var c' := Apply(c, Enter(TASK_LEVEL, Some(lock)));
    var i := Item(c.flags, TASK_LEVEL, Some(lock), false);
    SavedOfMore(Top(c).items, i);
    StackUnchanged(c, c', Top(c'));
    ItemsOfMore(Top(c).base, Top(c).items, i);
    TopChanged(c, c', Top(c'));
  }

  lemma ItemsOfMore(base: nat, items: seq<Item>, i: Item)
    ensures ItemsGood(base, items + [i])
            <==> ItemsGood(base, items) && i.level <= FIQ_LEVEL && base <= FIQ_LEVEL
                 && (i.level > TASK_LEVEL ==> i.saved == MaskOf(LevelIn(base, items)) && i.level >= LevelIn(base, items))
                 && (i.lock.Some? ==> base <= i.level)
  {
    assert (items + [i])[..|items|] == items;
  }

  lemma ReadKeepsGood(c: Core)
    requires Good(c) && Enabled(c, Advance) && Top(c).pc.Read?
    ensures Ready(c) && Good(Advanced(c))
  {
    GoodIsReady(c);
    StackUnchanged(c, Advanced(c), Top(Advanced(c)));
    TopChanged(c, Advanced(c), Top(Advanced(c)));
  }

  lemma MaskedKeepsGood(c: Core)
    requires Good(c) && Enabled(c, Advance) && Top(c).pc.Masked?
    ensures Ready(c) && Good(Advanced(c))
  {
    GoodIsReady(c);
    StackUnchanged(c, Advanced(c), Top(Advanced(c)));
    TopChanged(c, Advanced(c), Top(Advanced(c)));
  }

  lemma StoredKeepsGood(c: Core)
    requires Good(c) && Enabled(c, Advance) && Top(c).pc.Stored?
    ensures Ready(c) && Good(Advanced(c))
  {
    hide ItemsGood, LevelIn, Saved, AllSaved, Nested;
    GoodIsReady(c);
    var c', f := Advanced(c), Top(c);
    var i := Item(f.pc.flags, f.pc.target, f.pc.lock, false);
    SavedOfMore(f.items, i);
    ItemsOfMore(f.base, f.items, i);
    AllSavedOfTop(c, Top(c'));
    assert c'.saved[..c'.level] == c.saved[..c.level] + [c.saved[c.level]];
    assert AllSaved(c'.frames) == AllSaved(c.frames) + [i.saved];
    TopChanged(c, c', Top(c'));
  }

  lemma PushedKeepsGood(c: Core)
    requires Good(c) && Enabled(c, Advance) && Top(c).pc.Pushed?
    ensures Ready(c) && Good(Advanced(c))
  {
    GoodIsReady(c);
    StackUnchanged(c, Advanced(c), Top(Advanced(c)));
    TopChanged(c, Advanced(c), Top(Advanced(c)));
  }

  lemma ReleasedKeepsGood(c: Core)
    requires Good(c) && Enabled(c, Advance) && Top(c).pc.Released?
    ensures Ready(c) && Good(Advanced(c))
  {
    GoodIsReady(c);
    StackUnchanged(c, Advanced(c), Top(Advanced(c)));
    TopChanged(c, Advanced(c), Top(Advanced(c)));
  }

  lemma FiqsOffKeepsGood(c: Core)
    requires Good(c) && Enabled(c, Advance) && Top(c).pc.FiqsOff?
    ensures Ready(c) && Good(Advanced(c))
  {
    GoodIsReady(c);
    var c', f := Advanced(c), Top(c);
    AllSavedOfTop(c, Top(c'));
    PopStack(c.saved, c.level, AllSaved(c.frames[..|c.frames| - 1]), Saved(Outer(f)), Last(f).saved);
    TopChanged(c, c', Top(c'));
  }

  lemma PopStack(saved: seq<Flags>, level: nat, below: seq<Flags>, mine: seq<Flags>, last: Flags)
    requires level <= |saved| && saved[..level] == below + (mine + [last])
    ensures level > 0 && saved[..level - 1] == below + mine && saved[level - 1] == last
  {
    assert saved[..level - 1] == saved[..level][..level - 1];
    assert saved[level - 1] == saved[..level][level - 1];
  }

  lemma LoweredKeepsGood(c: Core)
    requires Good(c) && Enabled(c, Advance) && Top(c).pc.Lowered?
    ensures Ready(c) && Good(Advanced(c))
  {
    GoodIsReady(c);
    StackUnchanged(c, Advanced(c), Top(Advanced(c)));
    TopChanged(c, Advanced(c), Top(Advanced(c)));
  }

  lemma RestKeepsGood(c: Core)
    requires Good(c) && Enabled(c, Advance) && (Top(c).pc.Fetched? || Top(c).pc.Prologue?)
    ensures Ready(c) && Good(Advanced(c))
  {
    GoodIsReady(c);
    StackUnchanged(c, Advanced(c), Top(Advanced(c)));
    TopChanged(c, Advanced(c), Top(Advanced(c)));
  }

  /** Taking or freeing the lock of the last section changes nothing else. */
  lemma LockKeepsItems(f: Frame, taken: bool)
    requires f.items != []
    ensures var items := Outer(f) + [Last(f).(taken := taken)];
            && Saved(items) == Saved(f.items) && LevelIn(f.base, items) == LevelIn(f.base, f.items)
            && (ItemsGood(f.base, items) <==> ItemsGood(f.base, f.items))
  {
    var i, i' := Last(f), Last(f).(taken := taken);
    assert f.items == Outer(f) + [i];
    SavedOfMore(Outer(f), i);
    SavedOfMore(Outer(f), i');
    ItemsOfMore(f.base, Outer(f), i);
    ItemsOfMore(f.base, Outer(f), i');
  }

  lemma TakeLockKeepsGood(c: Core)
    requires Good(c) && Enabled(c, TakeLock)
    ensures Ready(c) && Good(Apply(c, TakeLock))
  {
    GoodIsReady(c);
    var c' := Apply(c, TakeLock);
    LockKeepsItems(Top(c), true);
    StackUnchanged(c, c', Top(c'));
    TopChanged(c, c', Top(c'));
  }

  lemma LeaveKeepsGood(c: Core)
    requires Good(c) && Enabled(c, Leave)
    ensures Ready(c) && Good(Apply(c, Leave))
  {
    GoodIsReady(c);
    var c' := Apply(c, Leave);
    LockKeepsItems(Top(c), false);
    StackUnchanged(c, c', Top(c'));
    TopChanged(c, c', Top(c'));
  }

  lemma InterruptKeepsGood(c: Core, level: nat)
    requires Good(c) && Enabled(c, Interrupt(level))
    ensures Ready(c) && Good(Apply(c, Interrupt(level)))
  {
    GoodIsReady(c);
    var c' := Apply(c, Interrupt(level));
    assert c'.frames[..|c.frames|] == c.frames;
    forall k: nat | k < |c'.frames| ensures Nested(c'.frames, k) {
      assert k < |c.frames| ==> Nested(c.frames, k);
    }
  }

  lemma EndKeepsGood(c: Core)
    requires Good(c) && Enabled(c, End)
    ensures Ready(c) && Good(Apply(c, End))
  {
    GoodIsReady(c);
    StackUnchanged(c, Apply(c, End), Top(Apply(c, End)));
    TopChanged(c, Apply(c, End), Top(Apply(c, End)));
  }

  lemma ReturnKeepsGood(c: Core)
    requires Good(c) && Enabled(c, Return)
    ensures Ready(c) && Good(Apply(c, Return))
  {
    GoodIsReady(c);
    var c' := Apply(c, Return);
    assert Nested(c.frames, |c.frames| - 1);
    forall k: nat | k < |c'.frames| ensures Nested(c'.frames, k) {
      assert Nested(c.frames, k);
    }
  }

  /** Main result: no step of any context, and no interrupt at any point, corrupts the stack or the mask. */
  lemma StepKeepsGood(c: Core, a: Action)
    requires Good(c) && Enabled(c, a)
    ensures Ready(c) && Good(Apply(c, a))
  {
    GoodIsReady(c);
    match a
    case Enter(target, lock) =>
      if target == TASK_LEVEL {
        EnterTaskLockKeepsGood(c, lock.value);
      } else {
        EnterKeepsGood(c, target, lock);
      }
    case Advance =>
      match Top(c).pc {
        case Read(_, _, _) => ReadKeepsGood(c);
        case Masked(_, _, _) => MaskedKeepsGood(c);
        case Stored(_, _, _) => StoredKeepsGood(c);
        case Pushed => PushedKeepsGood(c);
        case Released => ReleasedKeepsGood(c);
        case FiqsOff => FiqsOffKeepsGood(c);
        case Lowered => LoweredKeepsGood(c);
        case _ => RestKeepsGood(c);
      }
    case TakeLock => TakeLockKeepsGood(c);
    case Leave => LeaveKeepsGood(c);
    case Interrupt(level) => InterruptKeepsGood(c, level);
    case End => EndKeepsGood(c);
    case Return => ReturnKeepsGood(c);
  }

  // ---------------------------------------------------------------- runs of one core

  /** Consecutive states of one core. */
  ghost predicate IsRun(states: seq<Core>, actions: seq<Action>) {
    && |states| == |actions| + 1 && Good(states[0])
    && forall i :: 0 <= i < |actions| ==> IsStep(states, actions, i)
  }

  predicate IsStep(states: seq<Core>, actions: seq<Action>, i: nat)
    requires i < |actions| && |states| == |actions| + 1
  {
    Ready(states[i]) && Enabled(states[i], actions[i]) && states[i + 1] == Apply(states[i], actions[i])
  }

  lemma {:induction false} RunIsGood(states: seq<Core>, actions: seq<Action>, i: nat)
    requires IsRun(states, actions) && i < |states|
    ensures Good(states[i])
  {
    if i > 0 {
      RunIsGood(states, actions, i - 1);
      assert IsStep(states, actions, i - 1);
      StepKeepsGood(states[i - 1], actions[i - 1]);
    }
  }

  /** The mask of a running context is a function of the sections it is in. */
  lemma MaskOfSections(c: Core)
    requires Good(c) && Top(c).pc.Running?
    ensures c.flags == MaskOf(LevelIn(Top(c).base, Top(c).items))
    ensures CurrentExecutionLevel(c.flags) == LevelIn(Top(c).base, Top(c).items)
  {
    assert Nested(c.frames, |c.frames| - 1);
    LevelBounded(Top(c).base, Top(c).items);
  }

  /** Context k is not left between the states i and j. */
  predicate Stays(states: seq<Core>, k: nat, i: nat, j: nat)
    requires i <= j < |states|
  {
    forall t :: i <= t <= j ==> k < |states[t].frames|
  }

  lemma {:induction false} BaseStays(states: seq<Core>, actions: seq<Action>, k: nat, i: nat, j: nat)
    requires IsRun(states, actions) && i <= j < |states| && Stays(states, k, i, j)
    ensures states[j].frames[k].base == states[i].frames[k].base
    decreases j - i
  {
    if i < j {
      BaseStays(states, actions, k, i, j - 1);
      assert IsStep(states, actions, j - 1);
    }
  }

  /**
   Main result. Whatever contexts interrupt each other in between, a context that is back in the sections it
   was in before has the very interrupt mask it had before.
   */
  lemma MaskRestored(states: seq<Core>, actions: seq<Action>, i: nat, j: nat)
    requires IsRun(states, actions) && i <= j < |states|
    requires states[i].frames != [] && Stays(states, |states[i].frames| - 1, i, j)
    requires |states[j].frames| == |states[i].frames|
    requires Top(states[i]).pc.Running? && Top(states[j]).pc.Running?
    requires Top(states[i]).items == Top(states[j]).items
    ensures states[i].flags == states[j].flags
  {
    RunIsGood(states, actions, i);
    RunIsGood(states, actions, j);
    BaseStays(states, actions, |states[i].frames| - 1, i, j);
    MaskOfSections(states[i]);
    MaskOfSections(states[j]);
  }

  /** Interrupts take the core from c to c', where the very contexts of c go on. */
  ghost predicate Returns(c: Core, c': Core) {
    exists states, actions :: IsRun(states, actions) && states[0] == c && states[|actions|] == c' && c'.frames == c.frames
  }

  /** They leave the mask, the level and what is below it as they were; above it the stack may hold anything. */
  lemma ReturnRestores(c: Core, c': Core)
    requires Returns(c, c')
    ensures Good(c') && c'.frames == c.frames && c'.flags == c.flags && |c'.saved| == |c.saved| == MAX_CRITICAL_LEVEL
    ensures c'.level == c.level <= MAX_CRITICAL_LEVEL && c'.saved[..c.level] == c.saved[..c.level]
  {
    var states, actions :| IsRun(states, actions) && states[0] == c && states[|actions|] == c' && c'.frames == c.frames;
    RunIsGood(states, actions, |actions|);
    assert |c.saved[..c.level]| == c.level && |c'.saved[..c'.level]| == c'.level;
  }
}
