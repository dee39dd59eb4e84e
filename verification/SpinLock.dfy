/**
 Spin locks over several cores, on top of the critical sections of each core. The exclusive load and store
 loop of Acquire is one compare-and-set; spinning is not taking a step.
 */
module SpinLock {
  import opened CriticalSection
  import opened Options

  /** The cores and the lock words; locks are numbered. */
  datatype Machine = Machine(cores: seq<Core>, words: seq<bool>)

  /** Context f of the core holds lock l by its section i. */
  predicate Taken(c: Core, f: nat, i: nat, l: nat) {
    f < |c.frames| && i < |c.frames[f].items| && c.frames[f].items[i].lock == Some(l) && c.frames[f].items[i].taken
  }

  /** A section, by its core, its context on that core, and its number in that context. */
  datatype Place = Place(core: nat, frame: nat, item: nat)

  predicate Holds(m: Machine, p: Place, l: nat) {
    p.core < |m.cores| && Taken(m.cores[p.core], p.frame, p.item, l)
  }

  /** The section that the running context of core n entered last. */
  function Current(m: Machine, n: nat): Place
    requires n < |m.cores| && m.cores[n].frames != [] && Top(m.cores[n]).items != []
  {
    Place(n, |m.cores[n].frames| - 1, |Top(m.cores[n]).items| - 1)
  }

  // ---------------------------------------------------------------- how contexts use their locks

  /** A lock guards sections of its own target level, and a context is in one section of a lock at a time. */
  predicate UsesLocks(f: Frame, levels: seq<nat>) {
    && (forall i :: 0 <= i < |f.items| ==> AtLevel(f.items[i].lock, f.items[i].level, levels))
    && (forall i, j :: 0 <= i < j < |f.items| && f.items[i].lock.Some? ==> f.items[i].lock != f.items[j].lock)
    && (f.pc.Read? || f.pc.Masked? || f.pc.Stored? ==> AtLevel(f.pc.lock, f.pc.target, levels) && Unused(f.items, f.pc.lock))
  }

  predicate AtLevel(lock: Option<nat>, level: nat, levels: seq<nat>) {
    lock.Some? ==> lock.value < |levels| && level == levels[lock.value]
  }

  predicate Unused(items: seq<Item>, lock: Option<nat>) {
    lock.Some? ==> forall i :: 0 <= i < |items| ==> items[i].lock != lock
  }

  ghost predicate CoreUsesLocks(c: Core, levels: seq<nat>) {
    forall k: nat :: k < |c.frames| ==> UsesLocks(c.frames[k], levels)
  }

  // ---------------------------------------------------------------- steps

  predicate MayStep(m: Machine, levels: seq<nat>, n: nat, a: Action) {
    && n < |m.cores| && |m.words| == |levels| && Ready(m.cores[n]) && Enabled(m.cores[n], a)
    && (a.Enter? && a.lock.Some? ==> AtLevel(a.lock, a.target, levels) && Unused(Top(m.cores[n]).items, a.lock))
    && (a.TakeLock? ==> var l := LockOf(m.cores[n]); l.Some? && l.value < |m.words| && !m.words[l.value])
    && (a.Leave? ==> var l := LockOf(m.cores[n]); l.Some? ==> l.value < |m.words|)
  }

  /** The lock of the last section of the running context. */
  function LockOf(c: Core): Option<nat>
    requires c.frames != []
  {
    if Top(c).items == [] then None else Last(Top(c)).lock
  }

  function Step(m: Machine, levels: seq<nat>, n: nat, a: Action): Machine
    requires MayStep(m, levels, n, a)
  {
    var l := LockOf(m.cores[n]);
    Machine(m.cores[n := Apply(m.cores[n], a)],
            if a.TakeLock? then m.words[l.value := true]
            else if a.Leave? && l.Some? then m.words[l.value := false] else m.words)
  }

  // ---------------------------------------------------------------- who holds what after a step

  lemma TakenAfterTake(c: Core, f: nat, i: nat, l: nat)
    requires Ready(c) && Enabled(c, TakeLock)
    ensures Taken(Apply(c, TakeLock), f, i, l)
            <==> Taken(c, f, i, l) || (f == |c.frames| - 1 && i == |Top(c).items| - 1 && LockOf(c) == Some(l))
  {
  }

  lemma TakenAfterLeave(c: Core, f: nat, i: nat, l: nat)
    requires Ready(c) && Enabled(c, Leave)
    ensures Taken(Apply(c, Leave), f, i, l)
            <==> Taken(c, f, i, l) && !(f == |c.frames| - 1 && i == |Top(c).items| - 1)
  {
  }

  lemma TakenAfterOther(c: Core, a: Action, f: nat, i: nat, l: nat)
    requires Ready(c) && Enabled(c, a) && a != TakeLock && a != Leave
    ensures Taken(Apply(c, a), f, i, l) <==> Taken(c, f, i, l)
  {
  }

  // ---------------------------------------------------------------- mutual exclusion

  /** The word of a lock is set exactly when a section holds it, and never does more than one. */
  ghost predicate Exclusive(m: Machine) {
    && (forall p, l: nat :: Holds(m, p, l) ==> l < |m.words| && m.words[l])
    && (forall p, q, l: nat :: Holds(m, p, l) && Holds(m, q, l) ==> p == q)
    && (forall l: nat :: l < |m.words| && m.words[l] ==> exists p :: Holds(m, p, l))
  }

  lemma ExclusiveAfterTake(m: Machine, m': Machine, p0: Place, l0: nat)
    requires Exclusive(m) && l0 < |m.words| && !m.words[l0] && m'.words == m.words[l0 := true]
    requires forall p, l :: Holds(m', p, l) <==> Holds(m, p, l) || (p == p0 && l == l0)
    ensures Exclusive(m')
  {
    assert Holds(m', p0, l0);
    forall l: nat | l < |m'.words| && m'.words[l] ensures exists p :: Holds(m', p, l) {
      if l != l0 {
        var p :| Holds(m, p, l);
        assert Holds(m', p, l);
      }
    }
  }

  lemma ExclusiveAfterLeave(m: Machine, m': Machine, p0: Place, l0: nat)
    requires Exclusive(m) && Holds(m, p0, l0) && l0 < |m.words| && m'.words == m.words[l0 := false]
    requires forall p, l :: Holds(m', p, l) <==> Holds(m, p, l) && p != p0
    ensures Exclusive(m')
  {
    forall l: nat | l < |m'.words| && m'.words[l] ensures exists p :: Holds(m', p, l) {
      var p :| Holds(m, p, l);
      assert p != p0;
      assert Holds(m', p, l);
    }
  }

  lemma ExclusiveAfterOther(m: Machine, m': Machine)
    requires Exclusive(m) && m'.words == m.words && forall p, l :: Holds(m', p, l) <==> Holds(m, p, l)
    ensures Exclusive(m')
  {
    forall l: nat | l < |m'.words| && m'.words[l] ensures exists p :: Holds(m', p, l) {
      var p :| Holds(m, p, l);
      assert Holds(m', p, l);
    }
  }

  lemma TakeKeepsExclusive(m: Machine, levels: seq<nat>, n: nat)
    requires MayStep(m, levels, n, TakeLock) && Exclusive(m)
    ensures Exclusive(Step(m, levels, n, TakeLock))
  {
    var m', p0, l0 := Step(m, levels, n, TakeLock), Current(m, n), LockOf(m.cores[n]).value;
    forall p, l ensures Holds(m', p, l) <==> Holds(m, p, l) || (p == p0 && l == l0) {
      TakenAfterTake(m.cores[n], p.frame, p.item, l);
    }
    ExclusiveAfterTake(m, m', p0, l0);
  }

  lemma LeaveKeepsExclusive(m: Machine, levels: seq<nat>, n: nat)
    requires MayStep(m, levels, n, Leave) && Exclusive(m)
    ensures Exclusive(Step(m, levels, n, Leave))
  {
    var m', p0, l0 := Step(m, levels, n, Leave), Current(m, n), LockOf(m.cores[n]);
    forall p, l ensures Holds(m', p, l) <==> Holds(m, p, l) && p != p0 {
      TakenAfterLeave(m.cores[n], p.frame, p.item, l);
    }
    assert LocksTaken(Top(m.cores[n]));
    if l0.Some? {
      assert Holds(m, p0, l0.value);
      ExclusiveAfterLeave(m, m', p0, l0.value);
    } else {
      assert forall l :: !Holds(m, p0, l);
      ExclusiveAfterOther(m, m');
    }
  }

  lemma OtherKeepsExclusive(m: Machine, levels: seq<nat>, n: nat, a: Action)
    requires MayStep(m, levels, n, a) && Exclusive(m) && a != TakeLock && a != Leave
    ensures Exclusive(Step(m, levels, n, a))
  {
    var m' := Step(m, levels, n, a);
    forall p, l ensures Holds(m', p, l) <==> Holds(m, p, l) {
      TakenAfterOther(m.cores[n], a, p.frame, p.item, l);
    }
    ExclusiveAfterOther(m, m');
  }

  // ---------------------------------------------------------------- the machine

  ghost predicate MachineGood(m: Machine, levels: seq<nat>) {
    && |m.words| == |levels| && Exclusive(m)
    && forall n: nat :: n < |m.cores| ==> Good(m.cores[n]) && CoreUsesLocks(m.cores[n], levels)
  }

  lemma FrameKeepsUse(c: Core, c': Core, f: Frame, levels: seq<nat>)
    requires CoreUsesLocks(c, levels) && c.frames != [] && c'.frames == c.frames[..|c.frames| - 1] + [f] && UsesLocks(f, levels)
    ensures CoreUsesLocks(c', levels)
  {
    forall k: nat | k < |c'.frames| ensures UsesLocks(c'.frames[k], levels) {
      assert k < |c.frames| - 1 ==> UsesLocks(c.frames[k], levels);
    }
  }

  lemma AdvanceKeepsUse(c: Core, levels: seq<nat>)
    requires Ready(c) && Enabled(c, Advance) && UsesLocks(Top(c), levels)
    ensures UsesLocks(Top(Advanced(c)), levels)
  {
  }

  lemma InterruptKeepsUse(c: Core, level: nat, levels: seq<nat>)
    requires Ready(c) && Enabled(c, Interrupt(level)) && CoreUsesLocks(c, levels)
    ensures CoreUsesLocks(Apply(c, Interrupt(level)), levels)
  {
    var c' := Apply(c, Interrupt(level));
    forall k: nat | k < |c'.frames| ensures UsesLocks(c'.frames[k], levels) {
      assert k < |c.frames| ==> UsesLocks(c.frames[k], levels);
    }
  }

  lemma ReturnKeepsUse(c: Core, levels: seq<nat>)
    requires Ready(c) && Enabled(c, Return) && CoreUsesLocks(c, levels)
    ensures CoreUsesLocks(Apply(c, Return), levels)
  {
    var c' := Apply(c, Return);
    forall k: nat | k < |c'.frames| ensures UsesLocks(c'.frames[k], levels) {
      assert UsesLocks(c.frames[k], levels);
    }
  }

  /** The other steps change the running context only. */
  lemma TopKeepsUse(c: Core, a: Action, levels: seq<nat>)
    requires Ready(c) && Enabled(c, a) && !a.Interrupt? && !a.Return? && UsesLocks(Top(c), levels)
    requires a.Enter? && a.lock.Some? ==> AtLevel(a.lock, a.target, levels) && Unused(Top(c).items, a.lock)
    ensures UsesLocks(Top(Apply(c, a)), levels)
  {
    if a.Advance? {
      AdvanceKeepsUse(c, levels);
    }
  }

  lemma StepKeepsUse(m: Machine, levels: seq<nat>, n: nat, a: Action)
    requires MayStep(m, levels, n, a) && CoreUsesLocks(m.cores[n], levels)
    ensures CoreUsesLocks(Step(m, levels, n, a).cores[n], levels)
  {
    var c := m.cores[n];
    match a {
      case Interrupt(level) => InterruptKeepsUse(c, level, levels);
      case Return => ReturnKeepsUse(c, levels);
      case _ =>
        assert UsesLocks(Top(c), levels);
        TopKeepsUse(c, a, levels);
        FrameKeepsUse(c, Apply(c, a), Top(Apply(c, a)), levels);
    }
  }

  /** Main result: mutual exclusion, and the consistency of every core, survive every step of every core. */
  lemma StepKeepsMachine(m: Machine, levels: seq<nat>, n: nat, a: Action)
    requires MachineGood(m, levels) && MayStep(m, levels, n, a)
    ensures MachineGood(Step(m, levels, n, a), levels)
  {
    StepKeepsGood(m.cores[n], a);
    StepKeepsUse(m, levels, n, a);
    match a {
      case TakeLock => TakeKeepsExclusive(m, levels, n);
      case Leave => LeaveKeepsExclusive(m, levels, n);
      case _ => OtherKeepsExclusive(m, levels, n, a);
    }
  }

  // ---------------------------------------------------------------- no context waits for what it interrupted

  /** The levels of the contexts of a core rise, so the sections of lower contexts are below the running one. */
  lemma {:induction false} SectionsBelow(c: Core, f: nat, i: nat, k: nat)
    requires Good(c) && f < k < |c.frames| && i < |c.frames[f].items|
    ensures c.frames[f].items[i].level < c.frames[k].base
    decreases k - f
  {
    var low, high := c.frames[k - 1], c.frames[k];
    assert Nested(c.frames, k) && Nested(c.frames, k - 1);
    if f < k - 1 {
      SectionsBelow(c, f, i, k - 1);
    } else {
      LevelCovers(low.base, low.items, i);
    }
  }

  lemma {:induction false} LevelCovers(base: nat, items: seq<Item>, i: nat)
    requires i < |items|
    ensures items[i].level <= LevelIn(base, items)
    decreases |items|
  {
    if i < |items| - 1 {
      LevelCovers(base, items[..|items| - 1], i);
    }
  }

  /**
   Main result. A context that spins waits for another core: the lock is held by no context of its own core,
   neither by itself nor by one that it has interrupted.
   */
  lemma SpinsForOtherCore(m: Machine, levels: seq<nat>, n: nat)
    requires MachineGood(m, levels) && n < |m.cores| && Top(m.cores[n]).pc.Spinning?
    ensures LockOf(m.cores[n]).Some? && LockOf(m.cores[n]).value < |m.words|
    ensures var l := LockOf(m.cores[n]).value;
            m.words[l] ==> exists p :: Holds(m, p, l) && p.core != n
  {
    var c := m.cores[n];
    var top := |c.frames| - 1;
    assert Nested(c.frames, top) && UsesLocks(c.frames[top], levels);
    var l := LockOf(c).value;
    if m.words[l] {
      var p :| Holds(m, p, l);
      if p.core == n {
        assert UsesLocks(c.frames[p.frame], levels);
        if p.frame < top {
          SectionsBelow(c, p.frame, p.item, top);
        }
        assert false;
      }
    }
  }

  // ---------------------------------------------------------------- runs

  /** Consecutive states of the machine; step i is taken by the context that runs on core cores[i]. */
  ghost predicate IsMachineRun(ms: seq<Machine>, levels: seq<nat>, cores: seq<nat>, actions: seq<Action>) {
    && |ms| == |actions| + 1 == |cores| + 1
    && forall i :: 0 <= i < |actions| ==> IsMachineStep(ms, levels, cores, actions, i)
  }

  predicate IsMachineStep(ms: seq<Machine>, levels: seq<nat>, cores: seq<nat>, actions: seq<Action>, i: nat)
    requires i < |actions| && |ms| == |actions| + 1 == |cores| + 1
  {
    MayStep(ms[i], levels, cores[i], actions[i]) && ms[i + 1] == Step(ms[i], levels, cores[i], actions[i])
  }

  /** A core that runs a task outside all sections, with its interrupts enabled. */
  function FreshCore(saved: seq<Flags>): Core {
    Core(Flags(false, false), 0, saved, [Frame(TASK_LEVEL, ALL_MASKED, [], Running)])
  }

  /** Runs begin: any number of such cores with all locks free are a good machine. */
  lemma FreshMachine(n: nat, saved: seq<Flags>, levels: seq<nat>)
    requires |saved| == MAX_CRITICAL_LEVEL
    ensures MachineGood(Machine(seq(n, _ => FreshCore(saved)), seq(|levels|, _ => false)), levels)
  {
    var c := FreshCore(saved);
    assert c.frames[..0] == [] && AllSaved(c.frames) == AllSaved([]) + Saved([]);
    assert Nested(c.frames, 0);
  }

  /** Main result. In every run, at any time, no two contexts of all cores hold the same lock. */
  lemma {:induction false} MutualExclusion(ms: seq<Machine>, levels: seq<nat>, cores: seq<nat>, actions: seq<Action>, i: nat)
    requires IsMachineRun(ms, levels, cores, actions) && MachineGood(ms[0], levels) && i < |ms|
    ensures MachineGood(ms[i], levels)
    ensures forall p, q, l :: Holds(ms[i], p, l) && Holds(ms[i], q, l) ==> p == q
  {
    if i > 0 {
      MutualExclusion(ms, levels, cores, actions, i - 1);
      assert IsMachineStep(ms, levels, cores, actions, i - 1);
      StepKeepsMachine(ms[i - 1], levels, cores[i - 1], actions[i - 1]);
    }
  }
}
