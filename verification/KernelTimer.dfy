/**
 Kernel timers: a list of timers, sorted by the wrapping 32-bit tick at which they elapse. Over unbounded
 time it is a stable priority queue. Unbounded ticks (`now`, `due`) and start numbers are kept for the
 specification only.
 */
module KernelTimer {
  import opened Modular
  import opened PtrList

  const WRAP: nat := 0x1_0000_0000
  const HALF: nat := 0x8000_0000

  /** A timer, with the unbounded tick at which it is due and its number in the order of starts. */
  datatype Timer = Timer(elapsesAt: nat, handler: nat, due: nat, serial: nat)

  /** An unsigned difference converted to int. */
  function Signed(x: int): int {
    var u := x % WRAP;
    if u >= HALF then u - WRAP else u
  }

  lemma SignedDifference(x: int, y: int)
    requires y <= x + HALF && x < y + HALF
    ensures Signed(x % WRAP - y % WRAP) == x - y
  {
    WrappedDifference(x, y, WRAP);
  }

  /** The source's test whether a timer elapses at a tick or earlier. */
  predicate Expired(elapsesAt: nat, ticks: nat) {
    Signed(elapsesAt - ticks) <= 0
  }

  /** A delay is kept exactly when it is below 2^31: the test then fails at every tick before the due one. */
  lemma DelayKeptIff(now: nat, delay: nat)
    requires delay < WRAP
    ensures (forall t: nat :: now <= t < now + delay ==> !Expired((now + delay) % WRAP, t % WRAP)) <==> delay < HALF
    ensures Expired((now + delay) % WRAP, (now + delay) % WRAP)
  {
    hide Expired;
    if delay < HALF {
      forall t: nat | now <= t < now + delay ensures !Expired((now + delay) % WRAP, t % WRAP) {
        ShortWait(now, delay, t);
      }
    } else {
      LongWait(now, delay);
    }
    ShortWait(now, delay, now + delay);
  }

  lemma ShortWait(now: nat, delay: nat, t: nat)
    requires now <= t <= now + delay < t + HALF
    ensures Expired((now + delay) % WRAP, t % WRAP) <==> t == now + delay
  {
    hide Signed;
    SignedDifference(now + delay, t);
  }

  lemma LongWait(now: nat, delay: nat)
    requires HALF <= delay < WRAP
    ensures Expired((now + delay) % WRAP, now % WRAP)
  {
    WrappedDifference(now + delay, now, WRAP);
  }

  // ---------------------------------------------------------------- the order

  predicate Earlier(a: Timer, b: Timer) {
    a.due < b.due || (a.due == b.due && a.serial < b.serial)
  }

  ghost predicate Ordered(s: seq<Timer>) {
    forall i, j :: 0 <= i < j < |s| ==> Earlier(s[i], s[j])
  }

  /** How many timers at the front are due at that tick or earlier. */
  function Leading(s: seq<Timer>, due: nat): (k: nat)
    ensures k <= |s|
  {
    if s == [] || s[0].due > due then 0 else 1 + Leading(s[1..], due)
  }

  function Inserted(s: seq<Timer>, t: Timer): seq<Timer> {
    var k := Leading(s, t.due);
    s[..k] + [t] + s[k..]
  }

  lemma {:induction false} LeadingIs(s: seq<Timer>, due: nat, k: nat)
    requires k <= |s| && (forall i :: 0 <= i < k ==> s[i].due <= due) && (k < |s| ==> s[k].due > due)
    ensures Leading(s, due) == k
  {
    if k > 0 {
      assert s[0].due <= due;
      LeadingIs(s[1..], due, k - 1);
    }
  }

  lemma {:induction false} LeadingSplits(s: seq<Timer>, due: nat)
    requires Ordered(s)
    ensures forall i :: 0 <= i < Leading(s, due) ==> s[i].due <= due
    ensures forall i :: Leading(s, due) <= i < |s| ==> s[i].due > due
  {
    if s != [] && s[0].due <= due {
      LeadingSplits(s[1..], due);
      assert forall i :: 1 <= i < |s| ==> s[i] == s[1..][i - 1];
    }
  }

  /** Inserting a timer that was started last keeps the order: it comes behind all that are due as early. */
  lemma InsertedOrdered(s: seq<Timer>, t: Timer)
    requires Ordered(s) && forall i :: 0 <= i < |s| ==> s[i].serial < t.serial
    ensures Ordered(Inserted(s, t))
  {
    LeadingSplits(s, t.due);
  }

  // ---------------------------------------------------------------- the history of all timers

  /** All timers ever started, those that elapsed in the order in which they did, and the cancelled ones. */
  datatype History = History(started: seq<Timer>, fired: seq<Timer>, cancelled: set<Timer>)

  /** Not too far from now for the wrapping test; a timer with delay 0 is one tick late when it fires. */
  predicate InWindow(t: Timer, now: nat) {
    now <= t.due + 1 && t.due < now + HALF && t.elapsesAt == t.due % WRAP
  }

  predicate Started(h: History, t: Timer) {
    t.serial < |h.started| && h.started[t.serial] == t
  }

  /** Every started timer is pending, fired or cancelled, once, and the fired ones precede the pending ones. */
  ghost predicate Consistent(h: History, pending: seq<Timer>, now: nat) {
    && Ordered(h.fired + pending)
    && (forall n :: 0 <= n < |h.started| ==> h.started[n].serial == n)
    && (forall n :: 0 <= n < |h.started| ==> h.started[n] in pending || h.started[n] in h.fired || h.started[n] in h.cancelled)
    && (forall t :: t in pending ==> Started(h, t) && InWindow(t, now) && t !in h.cancelled)
    && (forall t :: t in h.fired ==> Started(h, t) && t.due <= now && t !in h.cancelled)
    && (forall t :: t in h.cancelled ==> Started(h, t))
  }

  lemma StartKeeps(h: History, pending: seq<Timer>, now: nat, t: Timer)
    requires Consistent(h, pending, now) && t.serial == |h.started| && InWindow(t, now) && now <= t.due
    ensures Consistent(h.(started := h.started + [t]), Inserted(pending, t), now)
  {
    var k, pending' := Leading(pending, t.due), Inserted(pending, t);
    var h' := h.(started := h.started + [t]);
    assert forall u :: u in pending' <==> u in pending || u == t;
    assert forall u :: Started(h, u) ==> Started(h', u);
    OrderedInsert(h.fired, pending, t);
    forall n | 0 <= n < |h'.started| ensures h'.started[n] in pending' || h'.started[n] in h.fired || h'.started[n] in h.cancelled {
      assert n < |h.started| ==> h'.started[n] == h.started[n];
    }
  }

  /** Inserting among the pending timers is inserting among all, for a timer that is due no earlier than any fired. */
  lemma OrderedInsert(fired: seq<Timer>, pending: seq<Timer>, t: Timer)
    requires Ordered(fired + pending) && forall u :: u in fired + pending ==> u.serial < t.serial
    requires forall u :: u in fired ==> u.due <= t.due
    ensures Ordered(fired + Inserted(pending, t))
  {
    var all, k := fired + pending, Leading(pending, t.due);
    LeadingOfConcat(fired, pending, t.due);
    assert fired + Inserted(pending, t) == all[..|fired| + k] + [t] + all[|fired| + k..] == Inserted(all, t);
    forall i | 0 <= i < |all| ensures all[i].serial < t.serial {
      assert all[i] in all;
    }
    InsertedOrdered(all, t);
  }

  lemma {:induction false} LeadingOfConcat(fired: seq<Timer>, pending: seq<Timer>, due: nat)
    requires forall u :: u in fired ==> u.due <= due
    ensures Leading(fired + pending, due) == |fired| + Leading(pending, due)
  {
    if fired != [] {
      assert fired[0] in fired && (fired + pending)[1..] == fired[1..] + pending;
      LeadingOfConcat(fired[1..], pending, due);
    } else {
      assert fired + pending == pending;
    }
  }

  lemma FireKeeps(h: History, pending: seq<Timer>, now: nat)
    requires Consistent(h, pending, now) && pending != [] && pending[0].due <= now
    ensures Consistent(h.(fired := h.fired + [pending[0]]), pending[1..], now)
  {
    var t := pending[0];
    assert (h.fired + [t]) + pending[1..] == h.fired + pending;
    assert t in pending && pending == [t] + pending[1..];
    assert forall u :: u in pending <==> u == t || u in pending[1..];
  }

  lemma PendingOrdered(h: History, pending: seq<Timer>, now: nat)
    requires Consistent(h, pending, now)
    ensures Ordered(pending)
  {
    var all := h.fired + pending;
    forall i, j | 0 <= i < j < |pending| ensures Earlier(pending[i], pending[j]) {
      assert all[|h.fired| + i] == pending[i] && all[|h.fired| + j] == pending[j];
    }
  }

  lemma OrderedWithout(s: seq<Timer>, k: nat)
    requires Ordered(s) && k < |s|
    ensures var s' := s[..k] + s[k + 1..];
            Ordered(s') && (forall u :: u in s <==> u == s[k] || u in s') && s[k] !in s'
  {
    var s' := s[..k] + s[k + 1..];
    assert forall i :: 0 <= i < |s'| ==> s'[i] == s[if i < k then i else i + 1];
    forall u | u in s ensures u == s[k] || u in s' {
      var i :| 0 <= i < |s| && s[i] == u;
      assert i != k ==> s'[if i < k then i else i - 1] == u;
    }
  }

  lemma CancelKeeps(h: History, pending: seq<Timer>, now: nat, k: nat)
    requires Consistent(h, pending, now) && k < |pending|
    ensures Consistent(h.(cancelled := h.cancelled + {pending[k]}), pending[..k] + pending[k + 1..], now)
  {
    var pending' := pending[..k] + pending[k + 1..];
    var all := h.fired + pending;
    assert h.fired + pending' == all[..|h.fired| + k] + all[|h.fired| + k + 1..];
    OrderedWithout(all, |h.fired| + k);
    PendingOrdered(h, pending, now);
    OrderedWithout(pending, k);
    forall u | u in h.fired || u in pending' ensures u != pending[k] {
      assert u in h.fired + pending';
    }
  }

  /** The clock may advance when nothing is overdue. */
  lemma TickKeeps(h: History, pending: seq<Timer>, now: nat)
    requires Consistent(h, pending, now) && forall t :: t in pending ==> now <= t.due
    ensures Consistent(h, pending, now + 1)
  {
  }

  /**
   Main result. A timer that was not cancelled has fired only if its tick has come, and is pending only if its
   tick has not passed. After a poll, when nothing is due any more, both hold the other way round as well.
   */
  lemma FiredIffDue(h: History, pending: seq<Timer>, now: nat, t: Timer)
    requires Consistent(h, pending, now) && (forall u :: u in pending ==> now <= u.due)
    requires t in h.started && t !in h.cancelled
    ensures (t in h.fired ==> t.due <= now) && (t in pending ==> now <= t.due) && (t in h.fired || t in pending)
    ensures (forall u :: u in pending ==> now < u.due) ==> (t in h.fired <==> t.due <= now) && (t in pending <==> now < t.due)
  {
    var n :| 0 <= n < |h.started| && h.started[n] == t;
  }

  // ---------------------------------------------------------------- the driver

  /** The timers that were not cancelled, in their order. */
  function Kept(s: seq<Timer>, cancelled: set<Timer>): (r: seq<Timer>)
    ensures |r| <= |s|
  {
    if s == [] then [] else (if s[0] in cancelled then [] else [s[0]]) + Kept(s[1..], cancelled)
  }

  /** None of them was cancelled. */
  predicate NoneIn(s: seq<Timer>, cancelled: set<Timer>) {
    forall i :: 0 <= i < |s| ==> s[i] !in cancelled
  }

  lemma {:induction false} KeptAll(s: seq<Timer>, cancelled: set<Timer>)
    requires NoneIn(s, cancelled)
    ensures Kept(s, cancelled) == s
  {
    if s != [] {
      KeptAll(s[1..], cancelled);
    }
  }

  lemma {:induction false} KeptAppend(a: seq<Timer>, b: seq<Timer>, cancelled: set<Timer>)
    ensures Kept(a + b, cancelled) == Kept(a, cancelled) + Kept(b, cancelled)
  {
    if a == [] {
      assert a + b == b;
    } else {
      assert (a + b)[1..] == a[1..] + b;
      KeptAppend(a[1..], b, cancelled);
    }
  }

  lemma {:induction false} KeptTwice(s: seq<Timer>, c: set<Timer>, c': set<Timer>)
    requires c <= c'
    ensures Kept(Kept(s, c), c') == Kept(s, c')
  {
    if s != [] {
      KeptTwice(s[1..], c, c');
      KeptAppend(if s[0] in c then [] else [s[0]], Kept(s[1..], c), c');
    }
  }

  /** Of these timers exactly the k-th was cancelled. */
  predicate OnlyIn(s: seq<Timer>, k: nat, cancelled: set<Timer>) {
    forall i :: 0 <= i < |s| ==> (s[i] in cancelled <==> i == k)
  }

  /** Cancelling one timer takes it out. */
  lemma {:induction false} KeptBut(s: seq<Timer>, k: nat, cancelled: set<Timer>)
    requires k < |s| && OnlyIn(s, k, cancelled)
    ensures Kept(s, cancelled) == s[..k] + s[k + 1..]
    decreases k
  {
    var rest := s[1..];
    if k == 0 {
      KeptAll(rest, cancelled);
    } else {
      KeptBut(rest, k - 1, cancelled);
      assert s[..k] == [s[0]] + rest[..k - 1] && s[k + 1..] == rest[k..];
    }
  }

  lemma OnlyThisCancelled(s: seq<Timer>, k: nat, c: set<Timer>)
    requires Ordered(s) && k < |s| && forall u :: u in s ==> u !in c
    ensures OnlyIn(s, k, c + {s[k]})
  {
    forall i | 0 <= i < |s| ensures s[i] in c + {s[k]} <==> i == k {
      assert s[i] in s;
      assert i < k ==> Earlier(s[i], s[k]);
      assert k < i ==> Earlier(s[k], s[i]);
    }
  }

  /** What leads a list when one of its timers is cancelled. */
  lemma LeadingWithout(s: seq<Timer>, k: nat, now: nat, cancelled: set<Timer>)
    requires Ordered(s) && k < |s| && OnlyIn(s, k, cancelled)
    ensures var s' := s[..k] + s[k + 1..];
            s'[..Leading(s', now)] == Kept(s[..Leading(s, now)], cancelled)
  {
    hide Ordered, Kept, Leading;
    var m, s' := Leading(s, now), s[..k] + s[k + 1..];
    LeadingSplits(s, now);
    if k < m {
      LeadingIs(s', now, m - 1);
      KeptBut(s[..m], k, cancelled);
      assert s'[..m - 1] == s[..m][..k] + s[..m][k + 1..];
    } else {
      LeadingIs(s', now, m);
      KeptAll(s[..m], cancelled);
      assert s'[..m] == s[..m];
    }
  }

  /** The first m elements are still the first m, and no element is gone. */
  ghost predicate FrontKept(before: seq<Element<Timer>>, after: seq<Element<Timer>>, m: nat) {
    m <= |before| && m <= |after| && after[..m] == before[..m] && forall e :: e in before ==> e in after
  }

  lemma {:induction false} LeadingMonotone(s: seq<Timer>, a: nat, b: nat)
    requires a <= b
    ensures Leading(s, a) <= Leading(s, b)
  {
    if s != [] && s[0].due <= a {
      LeadingMonotone(s[1..], a, b);
    }
  }

  /** When nothing is overdue, the timers that are due at the next tick lead, with those that are due now. */
  lemma DueNext(s: seq<Timer>, now: nat)
    requires Ordered(s) && forall t :: t in s ==> now <= t.due
    ensures forall t :: t in s[..Leading(s, now + 1)] ==> now <= t.due <= now + 1
  {
    LeadingSplits(s, now + 1);
    forall i | 0 <= i < Leading(s, now + 1) ensures now <= s[i].due <= now + 1 {
      assert s[i] in s;
    }
  }

  /** A timer that is due later than `now` does not change what is due now. */
  lemma InsertedFront(s: seq<Timer>, t: Timer, now: nat)
    requires Ordered(s) && now < t.due
    ensures Leading(s, now) <= Leading(s, t.due)
    ensures Leading(Inserted(s, t), now) == Leading(s, now)
    ensures Inserted(s, t)[..Leading(s, now)] == s[..Leading(s, now)]
  {
    LeadingMonotone(s, now, t.due);
    LeadingSplits(s, now);
    LeadingIs(Inserted(s, t), now, Leading(s, now));
  }

  class Timers {
    var ticks: nat
    const list: List<Timer>
    var now: nat     // the ticks without wrapping, which no test looks at
    var serial: nat  // the number of starts, likewise
    ghost var history: History

    ghost function Pending(): seq<Timer>
      reads this, list
    {
      list.Contents()
    }

    ghost predicate Window()
      reads this, list, list.repr
    {
      && this !in list.repr && list.Valid() && ticks == now % WRAP && serial == |history.started|
      && Consistent(history, Pending(), now)
    }

    /** Between interrupts nothing is overdue. */
    ghost predicate Calm()
      reads this, list, list.repr
    {
      Window() && forall t :: t in Pending() ==> now <= t.due
    }

    /** After a poll nothing is due any more. */
    ghost predicate Valid()
      reads this, list, list.repr
    {
      Window() && forall t :: t in Pending() ==> now < t.due
    }

    constructor ()
      ensures Valid() && now == 0 && history == History([], [], {}) && fresh(list.repr)
    {
      list := new List();
      ticks, now, serial, history := 0, 0, 0, History([], [], {});
    }

    /**
     Starts a timer, from task level or from a handler. A delay of 2^31 or more goes to an arbitrary place of
     the list, and the test of the poll takes the timer for elapsed at once.
     */
    method StartKernelTimer(delay: nat, handler: nat) returns (t: Timer, ghost k: nat)
      requires Window() && delay < WRAP
      modifies this`history, this`serial, list.repr
      ensures t.due == now + delay && t.handler == handler && t.elapsesAt == (ticks + delay) % WRAP
      ensures list.Valid() && fresh(list.repr - old(list.repr)) && FrontKept(old(list.nodes), list.nodes, k)
      ensures delay < HALF ==>
                && Window() && k == Leading(old(Pending()), t.due) && Pending() == Inserted(old(Pending()), t)
                && history == old(history).(started := old(history).started + [t])
                && (old(Calm()) ==> Calm()) && (old(Valid()) && delay > 0 ==> Valid())
      ensures delay >= HALF ==>
                && history == old(history) && Expired(t.elapsesAt, ticks)
                && k <= |old(Pending())| && Pending() == old(Pending()[..k]) + [t] + old(Pending()[k..])
    {
      hide Consistent, Expired, Ordered, Started;
      var elapsesAt := (ticks + delay) % WRAP;
      t := Timer(elapsesAt, handler, now + delay, serial);
      RemainderOfSum(now, delay);
      PendingOrdered(history, Pending(), now);
      if delay < HALF {
        StartKeeps(history, Pending(), now, t);
      } else {
        LongWait(now, delay);
      }
      k := InsertTimer(t);
      if delay < HALF {
        serial := serial + 1;
        history := history.(started := history.started + [t]);
      }
    }

    method InsertTimer(t: Timer) returns (ghost k: nat)
      requires Window() && t.elapsesAt == t.due % WRAP
      modifies list.repr
      ensures list.Valid() && k <= |old(Pending())| && Pending() == old(Pending()[..k]) + [t] + old(Pending()[k..])
      ensures k < |list.nodes| && list.nodes == Insert(old(list.nodes), k, list.nodes[k]) && fresh(list.repr - old(list.repr))
      ensures now <= t.due < now + HALF ==> k == Leading(old(Pending()), t.due)
    {
      hide Consistent, Leading;
      var prevElement, element;
      prevElement, element, k := FindPlace(t);
      if element != null {
        list.InsertBefore(element, t, k);
      } else {
        list.InsertAfter(prevElement, t, k);
      }
    }

    /** The first timer that elapses later, by the wrapping test, and the one before it. */
    method FindPlace(t: Timer) returns (prevElement: Element?<Timer>, element: Element?<Timer>, ghost k: nat)
      requires Window() && t.elapsesAt == t.due % WRAP
      ensures k <= |list.nodes| && element == At(list.nodes, k) && prevElement == At(list.nodes, k - 1)
      ensures now <= t.due < now + HALF ==> k == Leading(Pending(), t.due)
    {
      hide Ordered, Leading, Started;
      k := 0;
      prevElement := null;
      element := list.GetFirst();
      while element != null
        invariant k <= |list.nodes| && element == At(list.nodes, k) && prevElement == At(list.nodes, k - 1)
        invariant now <= t.due < now + HALF ==> forall i :: 0 <= i < k ==> Pending()[i].due <= t.due
        decreases |list.nodes| - k
      {
        var timer2 := list.GetPtr(element, k);
        assert timer2 in Pending();
        if now <= t.due < now + HALF {
          SignedDifference(timer2.due, t.due);
        }
        if Signed(timer2.elapsesAt - t.elapsesAt) > 0 {
          break;
        }
        prevElement := element;
        element := list.GetNext(element, k);
        k := k + 1;
      }
      if now <= t.due < now + HALF {
        LeadingIs(Pending(), t.due, k);
      }
    }

    /** Cancels a timer that has not elapsed yet; does nothing otherwise. */
    method CancelKernelTimer(t: Timer) returns (ghost k: nat)
      requires Window()
      modifies this`history, this`serial, list.repr
      ensures Window() && list.repr == old(list.repr) && (old(Valid()) ==> Valid()) && (old(Calm()) ==> Calm())
      ensures forall u :: u in Pending() <==> u in old(Pending()) && u != t
      ensures if t in old(Pending()) then
                && k < |old(Pending())| && old(Pending())[k] == t && list.nodes == Without(old(list.nodes), k)
                && Pending() == old(Pending()[..k]) + old(Pending()[k + 1..])
                && history == old(history).(cancelled := old(history).cancelled + {t})
              else
                list.nodes == old(list.nodes) && Pending() == old(Pending()) && history == old(history)
    {
      var element;
      element, k := list.Find(t);
      if element != null {
        CancelKeeps(history, Pending(), now, k);
        PendingOrdered(history, Pending(), now);
        OrderedWithout(Pending(), k);
        list.Remove(element, k);
        history := history.(cancelled := history.cancelled + {t});
      }
    }

    /**
     A handler may start timers, and cancel any but the one whose element the poll goes on with. The timers
     that are still due now, and that it has not cancelled, stay at the front.
     */
    method RunHandler(timer: Timer, keep: Element?<Timer>, ghost rest: seq<Timer>)
      requires Polling(rest, keep)
      modifies this`history, this`serial, list.repr
      ensures Polling(Kept(rest, history.cancelled), keep) && Handled(old(history), history)
      ensures fresh(list.repr - old(list.repr))
    {
      var count: nat :| count >= 0;
      PollingKept(rest, keep);
      while count > 0
        invariant Polling(Kept(rest, history.cancelled), keep) && Handled(old(history), history)
        invariant fresh(list.repr - old(list.repr))
      {
        var start: bool := *;
        if start {
          StartInHandler(keep, Kept(rest, history.cancelled));
        } else {
          CancelInHandler(keep, rest);
        }
        count := count - 1;
      }
    }

    lemma PendingNotCancelled()
      requires Window()
      ensures forall u :: u in Pending() ==> u !in history.cancelled
    {
    }

    lemma PollingKept(rest: seq<Timer>, keep: Element?<Timer>)
      requires Polling(rest, keep)
      ensures Kept(rest, history.cancelled) == rest
    {
      forall i | 0 <= i < |rest| ensures rest[i] !in history.cancelled {
        assert rest[i] == Pending()[i] && rest[i] in Pending();
      }
      KeptAll(rest, history.cancelled);
    }

    method StartInHandler(keep: Element?<Timer>, ghost rest: seq<Timer>)
      requires Polling(rest, keep)
      modifies this`history, this`serial, list.repr
      ensures Polling(rest, keep) && Handled(old(history), history) && history.cancelled == old(history).cancelled
      ensures fresh(list.repr - old(list.repr))
    {
      hide Consistent, Expired, Ordered, Started, Kept;
      var delay: nat :| 1 <= delay < HALF;
      var handler: nat :| handler >= 0;
      PendingOrdered(history, Pending(), now);
      ghost var before := Pending();
      var t;
      ghost var k;
      t, k := StartKernelTimer(delay, handler);
      InsertedFront(before, t, now);
    }

    method CancelInHandler(keep: Element?<Timer>, ghost rest: seq<Timer>)
      requires Polling(Kept(rest, history.cancelled), keep)
      modifies this`history, this`serial, list.repr
      ensures Polling(Kept(rest, history.cancelled), keep) && Handled(old(history), history) && list.repr == old(list.repr)
    {
      hide Consistent, Ordered, Kept, Started, InWindow, Leading;
      var t: Timer := *;
      if keep != null && t == keep.ptr {
        return;
      }
      ghost var before, c := Pending(), history.cancelled;
      PendingNotCancelled();
      PendingOrdered(history, before, now);
      ghost var k := CancelKernelTimer(t);
      if t in before {
        OnlyThisCancelled(before, k, c);
        LeadingWithout(before, k, now, history.cancelled);
        KeptTwice(rest, c, history.cancelled);
      }
    }

    /** The source's test tells whether the timer of an element is due; if so the element is the first. */
    lemma TestIsExact(element: Element<Timer>)
      requires Window() && element in list.nodes
      ensures Expired(element.ptr.elapsesAt, ticks) <==> element.ptr.due <= now
      ensures element.ptr.due <= now ==> 0 < Leading(Pending(), now)
    {
      var k :| 0 <= k < |list.nodes| && list.nodes[k] == element;
      assert Pending()[k] == element.ptr && element.ptr in Pending();
      SignedDifference(element.ptr.due, now);
      PendingOrdered(history, Pending(), now);
      LeadingSplits(Pending(), now);
    }

    lemma NoneDue()
      requires Window() && Leading(Pending(), now) == 0
      ensures Valid()
    {
      PendingOrdered(history, Pending(), now);
      LeadingSplits(Pending(), now);
    }

    /** Between two timers of a poll: `rest` is what is still due now, and `element` is where the poll stands. */
    ghost predicate Polling(rest: seq<Timer>, element: Element?<Timer>)
      reads this, list, list.repr
    {
      && Window() && Leading(Pending(), now) == |rest| && Pending()[..|rest|] == rest
      && (rest != [] ==> element == At(list.nodes, 0))
      && (element != null ==> element in list.nodes)
    }

    method Unhook(element: Element<Timer>) returns (next: Element?<Timer>)
      requires Window() && list.nodes != [] && element == list.nodes[0] && element.ptr.due <= now
      modifies this`history, list.repr
      ensures Window() && list.nodes == old(list.nodes)[1..] && next == At(list.nodes, 0)
      ensures Pending() == old(Pending()[1..]) && list.repr == old(list.repr)
      ensures history == old(history).(fired := old(history).fired + [element.ptr])
    {
      FireKeeps(history, Pending(), now);
      next := list.GetNext(element, 0);
      list.Remove(element, 0);
      assert Pending() == old(Pending()[1..]);
      history := history.(fired := history.fired + [element.ptr]);
    }

    /** Takes the first timer, which is due, out of the list and runs its handler. */
    method FireFirst(element: Element<Timer>, ghost rest: seq<Timer>) returns (next: Element?<Timer>)
      requires Polling(rest, element) && rest != []
      modifies this`history, this`serial, list.repr
      ensures Polling(Kept(rest[1..], history.cancelled), next)
      ensures Handled(old(history).(fired := old(history).fired + [rest[0]]), history)
      ensures fresh(list.repr - old(list.repr))
    {
      FirstDue(rest, element);
      var timer := list.GetPtr(element, 0);
      next := Unhook(element);
      assert Pending()[..|rest| - 1] == rest[1..];
      RunHandler(timer, next, rest[1..]);
    }

    lemma FirstDue(rest: seq<Timer>, element: Element<Timer>)
      requires Polling(rest, element) && rest != []
      ensures list.nodes != [] && element.ptr == rest[0] == Pending()[0] && element.ptr.due <= now
      ensures Leading(Pending()[1..], now) == |rest| - 1
    {
      assert Pending()[..|rest|][0] == rest[0];
    }

    /** Fires exactly the timers that are due, in the order of the list. */
    method PollKernelTimers()
      requires Window()
      modifies this`history, this`serial, list.repr
      ensures Valid() && FiredBut(old(history), old(Pending()[..Leading(Pending(), now)]), [])
      ensures fresh(list.repr - old(list.repr))
    {
      ghost var due := Pending()[..Leading(Pending(), now)];
      var element := list.GetFirst();
      PollFrom(element, due);
    }

    method PollFrom(first: Element?<Timer>, ghost due: seq<Timer>)
      requires Polling(due, first)
      modifies this`history, this`serial, list.repr
      ensures Valid() && FiredBut(old(history), due, [])
      ensures fresh(list.repr - old(list.repr))
    {
      hide Consistent, Leading, Signed, Started, InWindow;
      PollingKept(due, first);
      ghost var h, rest := history, due;
      var element := first;
      while element != null
        invariant Polling(rest, element) && FiredBut(h, due, rest)
        invariant fresh(list.repr - old(list.repr))
        decreases |rest|, element != null
      {
        TestIsExact(element);
        if Signed(element.ptr.elapsesAt - ticks) > 0 {
          break;
        }
        ghost var fired, c := history.fired, history.cancelled;
        element := FireFirst(element, rest);
        OneMoreFired(h, due, fired, c, rest, history.cancelled);
        rest := Kept(rest[1..], history.cancelled);
      }
      PollEnds(rest, element);
    }

    /** Since the history was h, all of `due` but the rest has fired, except what handlers have cancelled. */
    ghost predicate FiredBut(h: History, due: seq<Timer>, rest: seq<Timer>)
      reads this
    {
      && history.fired + rest == h.fired + Kept(due, history.cancelled) && h.fired <= history.fired
      && h.cancelled <= history.cancelled && h.started <= history.started
    }

    lemma OneMoreFired(h: History, due: seq<Timer>, fired: seq<Timer>, c: set<Timer>, rest: seq<Timer>, c': set<Timer>)
      requires Window() && fired + rest == h.fired + Kept(due, c) && h.fired <= fired && rest != []
      requires c <= c' == history.cancelled && history.fired == fired + [rest[0]]
      ensures history.fired + Kept(rest[1..], c') == h.fired + Kept(due, c')
    {
      forall i | 0 <= i < |history.fired| ensures history.fired[i] !in c' {
        assert history.fired[i] in history.fired;
      }
      assert forall i :: 0 <= i < |h.fired| ==> h.fired[i] == history.fired[i];
      assert fired + rest == history.fired + rest[1..];
      KeptAppend(history.fired, rest[1..], c');
      KeptAll(history.fired, c');
      KeptAppend(h.fired, Kept(due, c), c');
      KeptAll(h.fired, c');
      KeptTwice(due, c, c');
    }

    lemma PollEnds(rest: seq<Timer>, element: Element?<Timer>)
      requires Polling(rest, element) && (element == null || element.ptr.due > now)
      ensures rest == [] && Valid()
    {
      if rest != [] {
        FirstDue(rest, element);
      } else {
        NoneDue();
      }
    }

    /** The tick part of the interrupt handler, and the poll that follows it. */
    method InterruptHandler()
      requires Calm()
      modifies this, list.repr
      ensures Valid() && now == old(now) + 1
      ensures FiredBut(old(history), old(Pending()[..Leading(Pending(), now + 1)]), [])
      ensures forall t :: t in old(Pending()[..Leading(Pending(), now + 1)]) ==> t.due == now || t.due == old(now)
      ensures old(Valid()) ==> forall t :: t in old(Pending()[..Leading(Pending(), now + 1)]) ==> t.due == now
      ensures fresh(list.repr - old(list.repr))
    {
      hide Kept, Leading, Started, Ordered;
      TickKeeps(history, Pending(), now);
      PendingOrdered(history, Pending(), now);
      DueNext(Pending(), now);
      ticks := (ticks + 1) % WRAP;
      RemainderOfSum(now, 1);
      now := now + 1;
      PollKernelTimers();
    }
  }

  /** A handler adds to the timers that were started and to those that were cancelled. */
  ghost predicate Handled(before: History, after: History) {
    before.started <= after.started && after.fired == before.fired && before.cancelled <= after.cancelled
  }

  lemma RemainderOfSum(x: nat, y: nat)
    ensures (x % WRAP + y) % WRAP == (x + y) % WRAP
  {
    AddMultiple(x + y, -(x / WRAP), WRAP);
  }
}
