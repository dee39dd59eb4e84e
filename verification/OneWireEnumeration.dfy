/**
 What repeated searches report: every device once, in ascending order of the transmitted bits,
 then the end of the search, and then the same again, for ever.
 */
module OneWireEnumeration {
  import opened Modular
  import opened OneWireSearch
  import opened Options

  // ---------------------------------------------------------------- the order of ROM codes

  predicate DiffersFirstAt(a: Rom, b: Rom, k: nat)
  {
    k < ROM_BITS && a[..k] == b[..k] && !a[k] && b[k]
  }

  /** Ascending order, the bit that is transmitted first being the most significant. */
  ghost predicate Before(a: Rom, b: Rom) {
    exists k :: DiffersFirstAt(a, b, k)
  }

  lemma FirstDifference(a: Rom, b: Rom) returns (k: nat)
    requires a != b
    ensures DiffersFirstAt(a, b, k) || DiffersFirstAt(b, a, k)
  {
    var j: nat :| j < ROM_BITS && a[j] != b[j];
    k := 0;
    while a[k] == b[k]
      invariant k <= j && a[..k] == b[..k]
      decreases j - k
    {
      k := k + 1;
    }
  }

  lemma BeforeIsTransitive(a: Rom, b: Rom, c: Rom)
    requires Before(a, b) && Before(b, c)
    ensures Before(a, c)
  {
    var i: nat :| DiffersFirstAt(a, b, i);
    var j: nat :| DiffersFirstAt(b, c, j);
    var k := if i < j then i else j;
    assert a[..k] == a[..i][..k] == b[..i][..k] == b[..k] == b[..j][..k] == c[..j][..k] == c[..k];
    assert i < j ==> b[..j][i] == c[..j][i];
    assert j < i ==> a[..i][j] == b[..i][j];
    assert DiffersFirstAt(a, c, k);
  }

  lemma BeforeIsStrictOrder(a: Rom, b: Rom)
    ensures !Before(a, a)
    ensures Before(a, b) || Before(b, a) || a == b
    ensures Before(a, b) ==> !Before(b, a)
  {
    if a != b {
      var k := FirstDifference(a, b);
    }
    if Before(a, b) && Before(b, a) {
      BeforeIsTransitive(a, b, a);
    }
  }

  ghost predicate Ascending(s: seq<Rom>) {
    forall i, j :: 0 <= i < j < |s| ==> Before(s[i], s[j])
  }

  /** s lists exactly the devices on the bus, in ascending order, so each of them once. */
  ghost predicate Lists(s: seq<Rom>, devices: set<Rom>) {
    Ascending(s) && forall d :: d in s <==> d in devices
  }

  // ---------------------------------------------------------------- one walk

  lemma {:induction false} WalkFindsDevice(devices: set<Rom>, rom: Rom, last: nat, path: seq<bool>)
    requires |path| <= ROM_BITS && Active(devices, path) != {}
    ensures Walk(devices, rom, last, path) in Active(devices, path)
    decreases ROM_BITS - |path|
  {
    if |path| == ROM_BITS {
      var d :| d in Active(devices, path);
      assert d == path;
    } else {
      StepOfWalk(devices, path, rom, last, 0);
      WalkFindsDevice(devices, rom, last, path + [Direction(devices, path, rom, last)]);
    }
  }

  /** Before the last discrepancy the walk follows the stored bits as long as some device d has them. */
  lemma {:induction false} WalkKeepsPrefix(devices: set<Rom>, rom: Rom, last: nat, path: seq<bool>, k: nat, d: Rom)
    requires |path| <= k <= ROM_BITS && k < last
    requires d in Active(devices, path) && d[..k] == rom[..k]
    ensures Walk(devices, rom, last, path) == Walk(devices, rom, last, rom[..k])
    decreases k - |path|
  {
    if |path| == k {
      assert path == d[..k];
    } else {
      var n := |path|;
      assert d[n] == d[..k][n] == rom[n];
      assert SomeBit(devices, path, d[n]);
      assert Direction(devices, path, rom, last) == d[n] by {
        if !Discrepancy(devices, path) && d[n] == false {
          assert !SomeBit(devices, path, true);
        }
      }
      assert d[..n + 1] == path + [d[n]];
      WalkKeepsPrefix(devices, rom, last, path + [d[n]], k, d);
    }
  }

  /** Behind the last discrepancy the walk takes the 0 wherever it can, so it finds the least device. */
  lemma {:induction false} WalkFindsLeast(devices: set<Rom>, rom: Rom, last: nat, path: seq<bool>, d: Rom)
    requires last <= |path| <= ROM_BITS && d in Active(devices, path)
    ensures var r := Walk(devices, rom, last, path); r == d || Before(r, d)
    decreases ROM_BITS - |path|
  {
    if |path| < ROM_BITS {
      var n, bit := |path|, Direction(devices, path, rom, last);
      assert SomeBit(devices, path, d[n]);
      WalkFindsDevice(devices, rom, last, path) by { assert d in Active(devices, path); }
      var r := Walk(devices, rom, last, path);
      if d[n] == bit {
        assert d[..n + 1] == path + [bit];
        WalkFindsLeast(devices, rom, last, path + [bit], d);
      } else {
        StepOfWalk(devices, path, rom, last, 0);
        WalkFindsDevice(devices, rom, last, path + [bit]);
        assert r[n] == (path + [bit])[n] == bit;
        assert DiffersFirstAt(r, d, n);
      }
    }
  }

  lemma {:induction false} LastZeroIsLast(devices: set<Rom>, r: Rom, n: nat)
    requires n <= ROM_BITS
    ensures var z := LastZero(devices, r[..n]);
            && z <= n
            && (z > 0 ==> !r[z - 1] && Discrepancy(devices, r[..z - 1]))
            && forall i :: z <= i < n && !r[i] ==> !Discrepancy(devices, r[..i])
  {
    if n > 0 {
      assert r[..n][..n - 1] == r[..n - 1];
      LastZeroIsLast(devices, r, n - 1);
    }
  }

  /** The family mark is the last of the first eight bits where a 0 was chosen although a 1 was on offer; it stays if there is none. */
  lemma FamilyMarkIs(devices: set<Rom>, r: Rom, before: nat)
    ensures var m := FamilyMark(devices, r, before);
            if exists i :: 0 <= i < 8 && !r[i] && Discrepancy(devices, r[..i])
            then 1 <= m <= 8 && !r[m - 1] && Discrepancy(devices, r[..m - 1]) && forall i :: m <= i < 8 && !r[i] ==> !Discrepancy(devices, r[..i])
            else m == before
  {
    LastZeroIsLast(devices, r, FAMILY_BITS);
  }

  /** A device above r branches off from r no later than at the last zero of r. */
  lemma BranchesAtZero(devices: set<Rom>, r: Rom, d: Rom, k: nat)
    requires r in devices && d in devices && DiffersFirstAt(r, d, k)
    ensures k + 1 <= LastZero(devices, r)
  {
    LastZeroIsLast(devices, r, ROM_BITS);
    assert r[..ROM_BITS] == r;
    assert r[..k] <= r && r[..k] <= d;
    assert r in Active(devices, r[..k]) && d in Active(devices, r[..k]);
    assert SomeBit(devices, r[..k], false) && SomeBit(devices, r[..k], true);
  }

  /** From the last zero on, the next walk turns to the 1 there and otherwise repeats the bits before. */
  lemma NextTurnsAtZero(devices: set<Rom>, r: Rom)
    requires r in devices && LastZero(devices, r) > 0
    ensures var z := LastZero(devices, r);
            var path := r[..z - 1] + [true];
            && !r[z - 1] && Active(devices, path) != {}
            && Walk(devices, r, z, []) == Walk(devices, r, z, path)
            && Walk(devices, r, z, []) in Active(devices, path)
  {
    var z := LastZero(devices, r);
    LastZeroIsLast(devices, r, ROM_BITS);
    assert r[..ROM_BITS] == r;
    var path := r[..z - 1];
    assert r in Active(devices, []);
    WalkKeepsPrefix(devices, r, z, [], z - 1, r);
    assert Discrepancy(devices, path) && Direction(devices, path, r, z);
    StepOfWalk(devices, path, r, z, 0) by { assert r in Active(devices, path); }
    WalkFindsDevice(devices, r, z, path + [true]);
  }

  lemma NextIsSuccessor(devices: set<Rom>, r: Rom)
    requires r in devices && LastZero(devices, r) > 0
    ensures var s := Walk(devices, r, LastZero(devices, r), []);
            s in devices && Before(r, s) && forall d :: d in devices && Before(r, d) ==> d == s || Before(s, d)
  {
    var z := LastZero(devices, r);
    var s := Walk(devices, r, z, []);
    NextTurnsAtZero(devices, r);
    var path := r[..z - 1] + [true];
    assert s[..z] == path && s[..z - 1] == path[..z - 1] == r[..z - 1] && s[z - 1] == path[z - 1];
    assert DiffersFirstAt(r, s, z - 1);
    forall d | d in devices && Before(r, d) ensures d == s || Before(s, d) {
      var k: nat :| DiffersFirstAt(r, d, k);
      BranchesAtZero(devices, r, d, k);
      if k == z - 1 {
        assert d[..z] == path;
        WalkFindsLeast(devices, r, z, path, d);
      } else {
        assert s[..k] == s[..z - 1][..k] == r[..z - 1][..k] == r[..k];
        assert s[k] == s[..z - 1][k] == r[k];
        assert DiffersFirstAt(s, d, k);
      }
    }
  }

  // ---------------------------------------------------------------- repeated searches

  /** Consecutive searches on one bus: the states around them and what they reported. */
  ghost predicate IsRun(devices: set<Rom>, states: seq<SearchState>, reports: seq<Option<Rom>>) {
    && |states| == |reports| + 1
    && forall i :: 0 <= i < |reports| ==> IsCall(devices, states, reports, i)
  }

  predicate IsCall(devices: set<Rom>, states: seq<SearchState>, reports: seq<Option<Rom>>, i: nat)
    requires i < |reports| && |states| == |reports| + 1
  {
    SearchOnce(devices, states[i]) == (states[i + 1], reports[i])
  }

  /** Where a search begins anew; after ResetSearch and after every search that reported the end. */
  predicate AtStart(st: SearchState) {
    st.lastDiscrepancy == 0 && !st.lastDevice
  }

  ghost predicate NoZeroFamily(devices: set<Rom>) {
    forall d :: d in devices ==> !ZeroFamily(d)
  }

  /** The state in which the search that reported r leaves the driver. */
  predicate Holds(devices: set<Rom>, st: SearchState, r: Rom) {
    st.rom == r && st.lastDiscrepancy == LastZero(devices, r) && st.lastDevice == (st.lastDiscrepancy == 0)
  }

  lemma FirstSearch(devices: set<Rom>, s: seq<Rom>, st: SearchState)
    requires Lists(s, devices) && NoZeroFamily(devices) && AtStart(st) && |s| > 0
    ensures var (st', r) := SearchOnce(devices, st); r == Some(s[0]) && Holds(devices, st', s[0])
  {
    assert s[0] in devices;
    assert s[0] in Active(devices, []);
    var r := Walk(devices, st.rom, 0, []);
    WalkFindsDevice(devices, st.rom, 0, []);
    WalkFindsLeast(devices, st.rom, 0, [], s[0]);
    var i :| 0 <= i < |s| && s[i] == r;
    BeforeIsStrictOrder(s[0], s[i]);
  }

  lemma SuccessorInList(devices: set<Rom>, s: seq<Rom>, k: nat, n: Rom)
    requires Lists(s, devices) && k < |s| && n in devices && Before(s[k], n)
    requires forall d :: d in devices && Before(s[k], d) ==> d == n || Before(n, d)
    ensures k + 1 < |s| && n == s[k + 1]
  {
    var i :| 0 <= i < |s| && s[i] == n;
    BeforeIsStrictOrder(s[k], s[i]);
    assert k < i;
    assert s[k + 1] in devices && Before(s[k], s[k + 1]);
    BeforeIsStrictOrder(s[k + 1], s[i]);
  }

  lemma NextSearch(devices: set<Rom>, s: seq<Rom>, st: SearchState, k: nat)
    requires Lists(s, devices) && NoZeroFamily(devices) && k < |s| && Holds(devices, st, s[k])
    ensures var (st', r) := SearchOnce(devices, st);
            if k + 1 < |s| then r == Some(s[k + 1]) && Holds(devices, st', s[k + 1])
            else r == None && AtStart(st')
  {
    assert s[k] in devices;
    if LastZero(devices, s[k]) > 0 {
      NextIsSuccessor(devices, s[k]);
      SuccessorInList(devices, s, k, Walk(devices, s[k], LastZero(devices, s[k]), []));
    } else if k + 1 < |s| {
      assert s[k + 1] in devices && Before(s[k], s[k + 1]);
      var b: nat :| DiffersFirstAt(s[k], s[k + 1], b);
      BranchesAtZero(devices, s[k], s[k + 1], b);
    }
  }

  /** The state before search number m of a round. */
  predicate AtCall(devices: set<Rom>, s: seq<Rom>, st: SearchState, m: nat)
    requires m <= |s|
  {
    if m == 0 then AtStart(st) else Holds(devices, st, s[m - 1])
  }

  lemma OneCall(devices: set<Rom>, s: seq<Rom>, st: SearchState, m: nat)
    requires Lists(s, devices) && NoZeroFamily(devices) && m <= |s| && AtCall(devices, s, st, m)
    ensures SearchOnce(devices, st).1 == if m < |s| then Some(s[m]) else None
    ensures AtCall(devices, s, SearchOnce(devices, st).0, if m < |s| then m + 1 else 0)
  {
    if m > 0 {
      NextSearch(devices, s, st, m - 1);
    } else if |s| > 0 {
      FirstSearch(devices, s, st);
    } else {
      assert forall d :: d in devices ==> d in s;
      assert devices == {};
    }
  }

  /** What a search reports: round after round the devices in turn, and then the end. */
  function ReportOf(s: seq<Rom>, call: nat): Option<Rom> {
    var m := call % (|s| + 1);
    if m < |s| then Some(s[m]) else None
  }

  /**
   Main result. Whatever ROM codes are on the bus, as long as no family byte is zero: counted from a
   start of the search, round after round reports exactly the devices in ascending order and then the end.
   */
  lemma Enumeration(devices: set<Rom>, s: seq<Rom>, states: seq<SearchState>, reports: seq<Option<Rom>>)
    requires Lists(s, devices) && NoZeroFamily(devices)
    requires IsRun(devices, states, reports) && AtStart(states[0])
    ensures forall i :: 0 <= i < |reports| ==> reports[i] == ReportOf(s, i)
  {
    forall i | 0 <= i < |reports| ensures reports[i] == ReportOf(s, i) {
      EnumerationAt(devices, s, states, reports, i);
      PositionIsRemainder(i, |s| + 1);
    }
  }

  /** The search at position m of its round. */
  predicate Reports(s: seq<Rom>, m: nat, report: Option<Rom>) {
    report == if m < |s| then Some(s[m]) else None
  }

  lemma {:induction false} EnumerationAt(devices: set<Rom>, s: seq<Rom>, states: seq<SearchState>,
                                         reports: seq<Option<Rom>>, i: nat)
    requires Lists(s, devices) && NoZeroFamily(devices)
    requires IsRun(devices, states, reports) && AtStart(states[0])
    requires i < |reports|
    ensures Reports(s, Position(i, |s| + 1), reports[i])
    ensures AtCall(devices, s, states[i + 1], Position(i + 1, |s| + 1))
  {
    hide Lists, NoZeroFamily, SearchOnce, Holds, Before;
    if i > 0 {
      EnumerationAt(devices, s, states, reports, i - 1);
    }
    assert IsCall(devices, states, reports, i);
    OneCall(devices, s, states[i], Position(i, |s| + 1));
  }

  /** The ascending list exists for every set of devices. */
  lemma {:induction false} ListExists(devices: set<Rom>) returns (s: seq<Rom>)
    ensures Lists(s, devices)
    decreases devices
  {
    if devices == {} {
      s := [];
    } else {
      var zero := ResetSearch().rom;
      var least := Walk(devices, zero, 0, []);
      ActiveAtStart(devices);
      WalkFindsDevice(devices, zero, 0, []);
      var rest := ListExists(devices - {least});
      s := [least] + rest;
      forall i, j | 0 <= i < j < |s| ensures Before(s[i], s[j]) {
        if i == 0 {
          assert s[j] in rest && s[j] in Active(devices, []);
          WalkFindsLeast(devices, zero, 0, [], s[j]);
        }
      }
    }
  }

  lemma LeastHasZeroFamily(devices: set<Rom>, rom: Rom, z: Rom)
    requires z in devices && ZeroFamily(z)
    ensures ZeroFamily(Walk(devices, rom, 0, []))
  {
    var r := Walk(devices, rom, 0, []);
    assert z in Active(devices, []);
    WalkFindsLeast(devices, rom, 0, [], z);
    if r != z {
      var k: nat :| DiffersFirstAt(r, z, k);
      forall n | 0 <= n < FAMILY_BITS ensures !r[n] {
        assert r[n] == r[..k][n] == z[..k][n] == z[n];
      }
    }
  }

  /** A device whose family byte is zero makes every search report the end at once. */
  lemma {:induction false} ZeroFamilyHidesAll(devices: set<Rom>, z: Rom, states: seq<SearchState>,
                                              reports: seq<Option<Rom>>, i: nat)
    requires z in devices && ZeroFamily(z) && IsRun(devices, states, reports) && AtStart(states[0])
    requires i < |reports|
    ensures reports[i] == None && AtStart(states[i + 1])
  {
    if i > 0 {
      ZeroFamilyHidesAll(devices, z, states, reports, i - 1);
    }
    assert IsCall(devices, states, reports, i);
    LeastHasZeroFamily(devices, states[i].rom, z);
  }

  lemma FirstRound(s: seq<Rom>, m: nat)
    requires m < |s|
    ensures ReportOf(s, m) == Some(s[m])
  {
    DivisionUnique(m, 0, m, |s| + 1);
  }

  /** The enumeration is complete exactly when no device has a zero family byte. */
  lemma CompleteIffNoZeroFamily(devices: set<Rom>, s: seq<Rom>, states: seq<SearchState>, reports: seq<Option<Rom>>)
    requires Lists(s, devices)
    requires IsRun(devices, states, reports) && AtStart(states[0]) && |reports| > |s|
    ensures (forall i :: 0 <= i < |reports| ==> reports[i] == ReportOf(s, i)) <==> NoZeroFamily(devices)
  {
    hide IsRun, SearchOnce, ReportOf, Ascending, ZeroFamily;
    if NoZeroFamily(devices) {
      Enumeration(devices, s, states, reports);
    } else {
      var z :| z in devices && ZeroFamily(z);
      var m :| 0 <= m < |s| && s[m] == z;
      ZeroFamilyHidesAll(devices, z, states, reports, m);
      FirstRound(s, m);
      assert reports[m] != ReportOf(s, m);
    }
  }

  // ---------------------------------------------------------------- search for a family

  predicate SameFamily(a: Rom, b: Rom) {
    a[..FAMILY_BITS] == b[..FAMILY_BITS]
  }

  /** After TargetSearch the next search finds a device of that family exactly when the bus has one. */
  lemma TargetFindsFamily(devices: set<Rom>, code: bv8, st: SearchState)
    requires code != 0
    requires st == SearchState(Bits([code, 0, 0, 0, 0, 0, 0, 0]), ROM_BITS, 0, false)
    ensures (exists d :: d in devices && SameFamily(d, st.rom))
            <==> (var r := SearchOnce(devices, st).1; r.Some? && r.value in devices && SameFamily(r.value, st.rom))
  {
    if d :| d in devices && SameFamily(d, st.rom) {
      assert d in Active(devices, []);
      var r := Walk(devices, st.rom, ROM_BITS, []);
      var f := st.rom[..FAMILY_BITS];
      WalkKeepsPrefix(devices, st.rom, ROM_BITS, [], FAMILY_BITS, d);
      WalkFindsDevice(devices, st.rom, ROM_BITS, []);
      assert f <= d;
      assert d in Active(devices, f);
      WalkFindsDevice(devices, st.rom, ROM_BITS, f);
      assert r[..FAMILY_BITS] == f;
      FamilyByteZero([code, 0, 0, 0, 0, 0, 0, 0]);
      assert !ZeroFamily(st.rom);
      var n :| 0 <= n < FAMILY_BITS && st.rom[n];
      assert r[n] == f[n] == st.rom[n];
    }
  }
}
