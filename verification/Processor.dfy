/**
 EnterCritical and LeaveCritical on one core, line by line. Every line is a step of the critical section
 system, and between any two of them interrupts may be taken and returned from.
 */
module Processor {
  import opened CriticalSection
  import opened Options

  /** What interrupts do behind the k-th line, in any state: any run of steps after which the same contexts go on. */
  type Interrupts = (nat, Core) -> Core

  ghost predicate Possible(irqs: Interrupts) {
    forall k, c :: Good(c) ==> Returns(c, irqs(k, c))
  }

  class Processor {
    var flags: Flags
    var criticalLevel: nat
    const savedFlags: array<Flags>
    var frames: seq<Frame>  // the contexts: what each is doing, and in which sections

    function State(): Core
      reads this, savedFlags
    {
      Core(flags, criticalLevel, savedFlags[..], frames)
    }

    ghost predicate Valid()
      reads this, savedFlags
    {
      Good(State())
    }

    /** The running context is at that point of its routine, in those sections. */
    ghost predicate At(pc: Pc, items: seq<Item>, depth: nat, base: nat)
      reads this
    {
      |frames| == depth > 0 && frames[depth - 1].pc == pc && frames[depth - 1].items == items && frames[depth - 1].base == base
    }

    constructor ()
      ensures Valid() && At(Running, [], 1, TASK_LEVEL) && flags == MaskOf(TASK_LEVEL) && criticalLevel == 0 && fresh(savedFlags)
    {
      flags, criticalLevel := Flags(false, false), 0;
      savedFlags := new Flags[MAX_CRITICAL_LEVEL](_ => Flags(false, false));
      frames := [Frame(TASK_LEVEL, ALL_MASKED, [], Running)];
      new;
      assert AllSaved(frames) == AllSaved([]) + Saved([]);
    }

    /** Interrupts are taken and returned from. */
    method TakeInterrupts(k: nat, irqs: Interrupts)
      requires Valid() && Possible(irqs)
      modifies this, savedFlags
      ensures Valid() && frames == old(frames) && flags == old(flags) && criticalLevel == old(criticalLevel)
      ensures State() == irqs(k, old(State()))
    {
      var after := irqs(k, State());
      ReturnRestores(State(), after);
      flags, criticalLevel, frames := after.flags, after.level, after.frames;
      forall i | 0 <= i < savedFlags.Length {
        savedFlags[i] := after.saved[i];
      }
      assert savedFlags[..] == after.saved;
    }

    /** The step that a line is; the line itself has changed, or will change, the mask, the level or the array. */
    method Step(a: Action, before: Core)
      requires Good(before) && Ready(before) && Enabled(before, a) && frames == before.frames
      modifies `frames
      ensures frames == Apply(before, a).frames && Good(Apply(before, a))
    {
      StepKeepsGood(before, a);
      frames := Apply(before, a).frames;
    }

    method ReadFlags(targetLevel: nat, ghost items: seq<Item>, ghost depth: nat, ghost base: nat) returns (nFlags: Flags)
      requires Valid() && At(Running, items, depth, base) && Enabled(State(), Enter(targetLevel, None))
      modifies `frames
      ensures Valid() && nFlags == flags && At(Read(targetLevel, None, nFlags), items, depth, base)
    {
      GoodIsReady(State());
      nFlags := flags;
      Step(Enter(targetLevel, None), State());
    }

    method DisableInterrupts(nFlags: Flags, targetLevel: nat, ghost items: seq<Item>, ghost depth: nat, ghost base: nat)
      requires Valid() && At(Read(targetLevel, None, nFlags), items, depth, base)
      modifies `frames, `flags
      ensures Valid() && At(Masked(targetLevel, None, nFlags), items, depth, base)
    {
      GoodIsReady(State());
      Step(Advance, State());
      flags := ALL_MASKED;
    }

    method StoreFlags(nFlags: Flags, targetLevel: nat, ghost items: seq<Item>, ghost depth: nat, ghost base: nat)
      requires Valid() && At(Masked(targetLevel, None, nFlags), items, depth, base) && criticalLevel < MAX_CRITICAL_LEVEL
      modifies `frames, savedFlags
      ensures Valid() && At(Stored(targetLevel, None, nFlags), items, depth, base)
    {
      GoodIsReady(State());
      Step(Advance, State());
      savedFlags[criticalLevel] := nFlags;
    }

    method RaiseLevel(nFlags: Flags, targetLevel: nat, ghost items: seq<Item>, ghost depth: nat, ghost base: nat)
      requires Valid() && At(Stored(targetLevel, None, nFlags), items, depth, base)
      modifies `frames, `criticalLevel
      ensures Valid() && At(Pushed, items + [Item(nFlags, targetLevel, None, false)], depth, base)
      ensures criticalLevel == old(criticalLevel) + 1
    {
      GoodIsReady(State());
      Step(Advance, State());
      criticalLevel := criticalLevel + 1;
    }

    method EnableFiqs(targetLevel: nat, ghost items: seq<Item>, ghost depth: nat, ghost base: nat)
      requires Valid() && At(Pushed, items, depth, base) && items != []
      requires items[|items| - 1].level == targetLevel && items[|items| - 1].lock == None
      modifies `frames, `flags
      ensures Valid() && At(Running, items, depth, base)
    {
      GoodIsReady(State());
      Step(Advance, State());
      if targetLevel == IRQ_LEVEL {
        flags := flags.(fiq := false);
      }
    }

    /** Puts the mask on the stack and disables all interrupts. */
    method SaveFlags(targetLevel: nat, irqs: Interrupts, ghost items: seq<Item>, ghost depth: nat, ghost base: nat)
      requires Valid() && At(Running, items, depth, base) && criticalLevel < MAX_CRITICAL_LEVEL
      requires targetLevel == IRQ_LEVEL || targetLevel == FIQ_LEVEL
      requires targetLevel == FIQ_LEVEL || !flags.fiq
      requires Possible(irqs)
      modifies this, savedFlags
      ensures Valid() && At(Pushed, items + [Item(old(flags), targetLevel, None, false)], depth, base)
      ensures criticalLevel == old(criticalLevel) + 1
    {
      hide Good, Possible;
      TakeInterrupts(0, irqs);
      var nFlags := ReadFlags(targetLevel, items, depth, base);
      TakeInterrupts(1, irqs);
      DisableInterrupts(nFlags, targetLevel, items, depth, base);
      TakeInterrupts(2, irqs);
      StoreFlags(nFlags, targetLevel, items, depth, base);
      TakeInterrupts(3, irqs);
      RaiseLevel(nFlags, targetLevel, items, depth, base);
    }

    /** Leaves the context in one more section; its mask is the one of the target level. */
    method EnterCritical(targetLevel: nat, irqs: Interrupts, ghost items: seq<Item>, ghost depth: nat, ghost base: nat)
      requires Valid() && At(Running, items, depth, base) && criticalLevel < MAX_CRITICAL_LEVEL
      requires targetLevel == IRQ_LEVEL || targetLevel == FIQ_LEVEL
      requires targetLevel == FIQ_LEVEL || !flags.fiq
      requires Possible(irqs)
      modifies this, savedFlags
      ensures Valid() && At(Running, items + [Item(old(flags), targetLevel, None, false)], depth, base)
      ensures flags == MaskOf(targetLevel) && criticalLevel == old(criticalLevel) + 1
    {
      hide Good, Possible;
      ghost var i := Item(flags, targetLevel, None, false);
      SaveFlags(targetLevel, irqs, items, depth, base);
      TakeInterrupts(4, irqs);
      EnableFiqs(targetLevel, items + [i], depth, base);
      TakeInterrupts(5, irqs);
      EnteredMask(State(), items, i);
    }

    method BeginLeave(ghost items: seq<Item>, ghost last: Item, ghost depth: nat, ghost base: nat)
      requires Valid() && At(Running, items + [last], depth, base)
      modifies `frames
      ensures Valid() && At(Released, items + [last.(taken := false)], depth, base)
    {
      GoodIsReady(State());
      Step(Leave, State());
    }

    method DisableFiqs(ghost items: seq<Item>, ghost last: Item, ghost depth: nat, ghost base: nat)
      requires Valid() && At(Released, items + [last], depth, base) && last.level > TASK_LEVEL
      modifies `frames, `flags
      ensures Valid() && At(FiqsOff, items + [last], depth, base)
    {
      GoodIsReady(State());
      Step(Advance, State());
      flags := flags.(fiq := true);
    }

    method LowerLevel(ghost items: seq<Item>, ghost last: Item, ghost depth: nat, ghost base: nat)
      requires Valid() && At(FiqsOff, items + [last], depth, base)
      modifies `frames, `criticalLevel
      ensures Valid() && At(Lowered, items, depth, base) && criticalLevel == old(criticalLevel) - 1
    {
      GoodIsReady(State());
      SomethingSaved(State());
      Step(Advance, State());
      assert criticalLevel > 0;
      criticalLevel := criticalLevel - 1;
    }

    method FetchFlags(ghost items: seq<Item>, ghost depth: nat, ghost base: nat) returns (nFlags: Flags)
      requires Valid() && At(Lowered, items, depth, base)
      modifies `frames
      ensures Valid() && At(Fetched(nFlags), items, depth, base)
    {
      GoodIsReady(State());
      nFlags := savedFlags[criticalLevel];
      Step(Advance, State());
    }

    method RestoreFlags(nFlags: Flags, ghost items: seq<Item>, ghost depth: nat, ghost base: nat)
      requires Valid() && At(Fetched(nFlags), items, depth, base)
      modifies `frames, `flags
      ensures Valid() && At(Running, items, depth, base)
    {
      GoodIsReady(State());
      Step(Advance, State());
      flags := nFlags;
    }

    /** Takes the mask back from the stack. */
    method TakeFlags(irqs: Interrupts, ghost items: seq<Item>, ghost last: Item, ghost depth: nat, ghost base: nat) returns (nFlags: Flags)
      requires Valid() && At(Released, items + [last], depth, base) && last.level > TASK_LEVEL
      requires Possible(irqs)
      modifies this, savedFlags
      ensures Valid() && At(Fetched(nFlags), items, depth, base) && criticalLevel == old(criticalLevel) - 1
    {
      hide Good, Possible;
      TakeInterrupts(1, irqs);
      DisableFiqs(items, last, depth, base);
      TakeInterrupts(2, irqs);
      LowerLevel(items, last, depth, base);
      TakeInterrupts(3, irqs);
      nFlags := FetchFlags(items, depth, base);
    }

    /** Leaves the section that was entered last, and restores the mask from before it was entered. */
    method LeaveCritical(irqs: Interrupts, ghost items: seq<Item>, ghost last: Item, ghost depth: nat, ghost base: nat)
      requires Valid() && At(Running, items + [last], depth, base) && last.lock == None && last.level > TASK_LEVEL
      requires Possible(irqs)
      modifies this, savedFlags
      ensures Valid() && At(Running, items, depth, base) && flags == last.saved && criticalLevel == old(criticalLevel) - 1
    {
      hide Good, Possible;
      SavedMask(State(), items, last);
      ghost var l := last.(taken := false);
      TakeInterrupts(0, irqs);
      BeginLeave(items, last, depth, base);
      var nFlags := TakeFlags(irqs, items, l, depth, base);
      TakeInterrupts(4, irqs);
      RestoreFlags(nFlags, items, depth, base);
      TakeInterrupts(5, irqs);
      MaskOfSections(State());
    }
  }

  /** The mask that the last section will restore is the one of the sections outside it. */
  lemma SavedMask(c: Core, items: seq<Item>, i: Item)
    requires Good(c) && Top(c).items == items + [i] && i.level > TASK_LEVEL
    ensures i.saved == MaskOf(LevelIn(Top(c).base, items))
  {
    assert Nested(c.frames, |c.frames| - 1);
    ItemsOfMore(Top(c).base, items, i);
  }

  lemma SomethingSaved(c: Core)
    requires Good(c) && Top(c).pc.FiqsOff?
    ensures c.level > 0
  {
    GoodIsReady(c);
    AllSavedOfTop(c, Top(c));
    SavedOfMore(Outer(Top(c)), Last(Top(c)));
    assert Top(c).items == Outer(Top(c)) + [Last(Top(c))];
    assert |c.saved[..c.level]| == c.level;
  }

  /** In a section that was entered last, the mask is that of its level. */
  lemma EnteredMask(c: Core, items: seq<Item>, i: Item)
    requires Good(c) && Top(c).pc.Running? && Top(c).items == items + [i] && i.level > TASK_LEVEL
    ensures c.flags == MaskOf(i.level)
  {
    MaskOfSections(c);
    assert Nested(c.frames, |c.frames| - 1);
    ItemsOfMore(Top(c).base, items, i);
    SavedOfMore(items, i);
  }
}
