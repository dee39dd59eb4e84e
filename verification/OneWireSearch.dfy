/**
 The 1-Wire ROM search: a stateful depth-first walk over the trie of device ROM codes,
 seen only through the wired-AND bus.

 A ROM code is written here as its 64 bits in the order in which they are transmitted.
 The driver keeps it as eight bytes, least significant bit first; `Bits` relates the two.
 */
module OneWireSearch {
  import opened Options

  const ROM_BITS: nat := 64
  const FAMILY_BITS: nat := 8

  type Rom = r: seq<bool> | |r| == ROM_BITS witness seq(ROM_BITS, _ => false)

  // ---------------------------------------------------------------- the ROM buffer

  function Mask(k: nat): bv8
    requires k < 8
  {
    if k == 0 then 0x01 else if k == 1 then 0x02 else if k == 2 then 0x04 else if k == 3 then 0x08
    else if k == 4 then 0x10 else if k == 5 then 0x20 else if k == 6 then 0x40 else 0x80
  }

  function BitAt(bytes: seq<bv8>, n: nat): bool
    requires |bytes| == 8 && n < ROM_BITS
  {
    bytes[n / 8] & Mask(n % 8) != 0
  }

  function Bits(bytes: seq<bv8>): Rom
    requires |bytes| == 8
  {
    seq(ROM_BITS, n requires 0 <= n < ROM_BITS => BitAt(bytes, n))
  }

  function WithMask(b: bv8, mask: bv8, bit: bool): bv8 {
    if bit then b | mask else b & !mask
  }

  function WithBit(b: bv8, k: nat, bit: bool): bv8
    requires k < 8
  {
    WithMask(b, Mask(k), bit)
  }

  lemma WithBitAt(b: bv8, i: nat, j: nat, bit: bool)
    requires i < 8 && j < 8
    ensures (WithBit(b, i, bit) & Mask(j) != 0) == if i == j then bit else b & Mask(j) != 0
  {
  }

  function SetBitAt(bytes: seq<bv8>, n: nat, bit: bool): seq<bv8>
    requires |bytes| == 8 && n < ROM_BITS
  {
    bytes[n / 8 := WithBit(bytes[n / 8], n % 8, bit)]
  }

  lemma SetBitAtBit(bytes: seq<bv8>, n: nat, bit: bool, j: nat)
    requires |bytes| == 8 && n < ROM_BITS && j < ROM_BITS
    ensures BitAt(SetBitAt(bytes, n, bit), j) == if j == n then bit else BitAt(bytes, j)
  {
    if j / 8 != n / 8 {
      assert SetBitAt(bytes, n, bit)[j / 8] == bytes[j / 8];
    } else {
      WithBitAt(bytes[n / 8], n % 8, j % 8, bit);
    }
  }

  lemma SetBitIsUpdate(bytes: seq<bv8>, n: nat, bit: bool)
    requires |bytes| == 8 && n < ROM_BITS
    ensures Bits(SetBitAt(bytes, n, bit)) == Bits(bytes)[n := bit]
  {
    forall j | 0 <= j < ROM_BITS
      ensures Bits(SetBitAt(bytes, n, bit))[j] == Bits(bytes)[n := bit][j]
    {
      SetBitAtBit(bytes, n, bit, j);
    }
  }

  /** Byte number and mask point at bit n. */
  predicate AtBit(byteNumber: nat, mask: bv8, n: nat) {
    byteNumber == n / 8 && mask == Mask(n % 8)
  }

  lemma NextMask(k: nat)
    requires k < 8
    ensures Mask(k) << 1 == if k == 7 then 0 else Mask(k + 1)
    ensures Mask(k) != 0
  {
  }

  lemma NextCursor(byteNumber: nat, mask: bv8, n: nat)
    requires AtBit(byteNumber, mask, n)
    ensures if mask << 1 == 0 then AtBit(byteNumber + 1, 1, n + 1) else AtBit(byteNumber, mask << 1, n + 1)
  {
    NextMask(n % 8);
    assert n % 8 == 7 ==> (n + 1) / 8 == n / 8 + 1 && (n + 1) % 8 == 0;
    assert n % 8 < 7 ==> (n + 1) / 8 == n / 8 && (n + 1) % 8 == n % 8 + 1;
  }

  lemma StoreAtCursor(bytes: seq<bv8>, byteNumber: nat, mask: bv8, n: nat, bit: bool)
    requires |bytes| == 8 && n < ROM_BITS && AtBit(byteNumber, mask, n)
    ensures byteNumber < 8 && Bits(bytes[byteNumber := WithMask(bytes[byteNumber], mask, bit)]) == Bits(bytes)[n := bit]
  {
    SetBitIsUpdate(bytes, n, bit);
  }

  lemma ZeroByte(b: bv8)
    ensures b == 0 <==> b & 0x01 == 0 && b & 0x02 == 0 && b & 0x04 == 0 && b & 0x08 == 0
                        && b & 0x10 == 0 && b & 0x20 == 0 && b & 0x40 == 0 && b & 0x80 == 0
  {
  }

  lemma FamilyByteZero(bytes: seq<bv8>)
    requires |bytes| == 8
    ensures bytes[0] == 0 <==> ZeroFamily(Bits(bytes))
  {
    ZeroByte(bytes[0]);
    if ZeroFamily(Bits(bytes)) {
      forall n | 0 <= n < FAMILY_BITS ensures !BitAt(bytes, n) {
        assert !Bits(bytes)[n];
      }
      assert !BitAt(bytes, 0) && !BitAt(bytes, 1) && !BitAt(bytes, 2) && !BitAt(bytes, 3)
             && !BitAt(bytes, 4) && !BitAt(bytes, 5) && !BitAt(bytes, 6) && !BitAt(bytes, 7);
    } else {
      var n :| 0 <= n < FAMILY_BITS && Bits(bytes)[n];
      assert BitAt(bytes, n);
    }
  }

  // ---------------------------------------------------------------- the bus

  /** The devices that still take part after `path` was written to the bus. */
  function Active(devices: set<Rom>, path: seq<bool>): set<Rom> {
    set d | d in devices && path <= d
  }

  predicate SomeBit(devices: set<Rom>, path: seq<bool>, bit: bool)
    requires |path| < ROM_BITS
  {
    exists d :: d in Active(devices, path) && d[|path|] == bit
  }

  predicate Discrepancy(devices: set<Rom>, path: seq<bool>)
    requires |path| < ROM_BITS
  {
    SomeBit(devices, path, false) && SomeBit(devices, path, true)
  }

  /** The wire with its devices. A device takes part as long as every bit written matched its own. */
  /** How often a reset looks at the wire, plus one, before it gives up. */
  const RETRIES: nat := 125

  class Bus {
    const devices: set<Rom>
    var lowFor: nat  // how often a look at the idle wire still finds it low
    ghost var path: seq<bool>
    var active: set<Rom>
    var position: nat
    var complement: bool

    ghost predicate Searching()
      reads this
    {
      position == |path| && active == Active(devices, path)
    }

    /** The devices that a reset finds: all of them, unless the wire stays low for too long. */
    ghost function Answering(): set<Rom>
      reads this
    {
      if lowFor < RETRIES - 1 then devices else {}
    }

    constructor (devices: set<Rom>, lowFor: nat)
      ensures this.devices == devices && this.lowFor == lowFor
    {
      this.devices, this.lowFor := devices, lowFor;
      path, active, position, complement := [], {}, 0, false;
    }

    method IsHigh() returns (high: bool)
      modifies `lowFor
      ensures high == (old(lowFor) == 0) && lowFor == if high then 0 else old(lowFor) - 1
    {
      high := lowFor == 0;
      if !high {
        lowFor := lowFor - 1;
      }
    }

    /** Waits until the wire is high, sends the reset pulse and looks for the pull of the devices. */
    method Reset() returns (presence: bool)
      modifies this
      ensures presence == (old(Answering()) != {}) == (old(lowFor) < 124 && devices != {})
    {
      var retries := RETRIES;
      var high := false;
      while !high
        invariant 0 < retries <= RETRIES && old(lowFor) == lowFor + (RETRIES - retries) - if high then 1 else 0
        invariant high ==> lowFor == 0 && retries < RETRIES
        decreases retries
      {
        retries := retries - 1;
        if retries == 0 {
          return false;
        }
        high := IsHigh();
      }
      active := {};
      presence := devices != {};
    }

    method StartSearch()
      modifies this
      ensures Searching() && path == [] && !complement
    {
      path, active, position, complement := [], devices, 0, false;
    }

    /** Every device pulls the line low that has a 0 to send: first its bit, then the complement of it. */
    method ReadBit() returns (bit: bool)
      requires Searching() && position < ROM_BITS
      modifies this
      ensures Searching() && path == old(path) && complement == !old(complement)
      ensures bit == !SomeBit(devices, path, old(complement))
    {
      bit := forall d | d in active :: d[position] != complement;
      complement := !complement;
    }

    method WriteBit(bit: bool)
      requires Searching() && position < ROM_BITS && !complement
      modifies this
      ensures Searching() && path == old(path) + [bit] && !complement
    {
      active := set d | d in active && d[position] == bit;
      path, position := path + [bit], position + 1;
    }
  }

  // ---------------------------------------------------------------- what one search does

  datatype SearchState = SearchState(
    rom: Rom,
    lastDiscrepancy: nat,
    lastFamilyDiscrepancy: nat,
    lastDevice: bool)

  predicate ZeroFamily(r: Rom) {
    forall n :: 0 <= n < FAMILY_BITS ==> !r[n]
  }

  function Direction(devices: set<Rom>, path: seq<bool>, rom: Rom, last: nat): bool
    requires |path| < ROM_BITS
  {
    if !Discrepancy(devices, path) then SomeBit(devices, path, true)
    else if |path| + 1 < last then rom[|path|]
    else |path| + 1 == last
  }

  function Walk(devices: set<Rom>, rom: Rom, last: nat, path: seq<bool>): Rom
    requires |path| <= ROM_BITS
    decreases ROM_BITS - |path|
  {
    if |path| == ROM_BITS then path
    else Walk(devices, rom, last, path + [Direction(devices, path, rom, last)])
  }

  /** The 1-based number of the last bit of `path` where a 0 was chosen although a 1 was on offer; 0 if none. */
  function LastZero(devices: set<Rom>, path: seq<bool>): nat
    requires |path| <= ROM_BITS
    ensures LastZero(devices, path) <= |path|
  {
    if path == [] then 0
    else
      var n := |path| - 1;
      if !path[n] && Discrepancy(devices, path[..n]) then |path| else LastZero(devices, path[..n])
  }

  function FamilyMark(devices: set<Rom>, path: seq<bool>, before: nat): nat
    requires |path| <= ROM_BITS
  {
    var z := LastZero(devices, if |path| <= FAMILY_BITS then path else path[..FAMILY_BITS]);
    if z > 0 then z else before
  }

  function ResetSearch(): SearchState {
    SearchState(seq(ROM_BITS, _ => false), 0, 0, false)
  }

  function SearchOnce(devices: set<Rom>, st: SearchState): (SearchState, Option<Rom>) {
    if st.lastDevice || devices == {} then (SearchState(st.rom, 0, 0, false), None)
    else
      var r := Walk(devices, st.rom, st.lastDiscrepancy, []);
      if ZeroFamily(r) then (SearchState(r, 0, 0, false), None)
      else
        var z := LastZero(devices, r);
        (SearchState(r, z, FamilyMark(devices, r, st.lastFamilyDiscrepancy), z == 0), Some(r))
  }

  // ---------------------------------------------------------------- the driver

  class OneWire {
    const romNo: array<bv8>
    var lastDiscrepancy: nat
    var lastFamilyDiscrepancy: nat
    var lastDeviceFlag: bool

    ghost predicate Valid()
      reads this
    {
      romNo.Length == 8 && lastDiscrepancy <= ROM_BITS && lastFamilyDiscrepancy <= FAMILY_BITS
    }

    ghost function State(): SearchState
      requires Valid()
      reads this, romNo
    {
      SearchState(Bits(romNo[..]), lastDiscrepancy, lastFamilyDiscrepancy, lastDeviceFlag)
    }

    constructor ()
      ensures Valid() && fresh(romNo) && State() == ResetSearch()
    {
      romNo := new bv8[8](_ => 0);
      lastDiscrepancy, lastFamilyDiscrepancy, lastDeviceFlag := 0, 0, false;
      new;
      ZeroBits(romNo[..]);
    }

    method Reset()
      requires Valid()
      modifies this, romNo
      ensures Valid() && State() == ResetSearch()
    {
      lastDiscrepancy, lastFamilyDiscrepancy, lastDeviceFlag := 0, 0, false;
      var i := 7;
      while true
        invariant 0 <= i <= 7
        invariant forall k :: i < k < 8 ==> romNo[k] == 0
        invariant Valid() && lastDiscrepancy == lastFamilyDiscrepancy == 0 && !lastDeviceFlag
        decreases i
      {
        romNo[i] := 0;
        if i == 0 { break; }
        i := i - 1;
      }
      ZeroBits(romNo[..]);
    }

    method TargetSearch(familyCode: bv8)
      requires Valid()
      modifies this, romNo
      ensures Valid()
      ensures State() == SearchState(Bits([familyCode, 0, 0, 0, 0, 0, 0, 0]), ROM_BITS, 0, false)
    {
      romNo[0] := familyCode;
      for i := 1 to 8
        invariant romNo[0] == familyCode && forall k :: 1 <= k < i ==> romNo[k] == 0
      {
        romNo[i] := 0;
      }
      lastDiscrepancy, lastFamilyDiscrepancy, lastDeviceFlag := 64, 0, false;
      assert romNo[..] == [familyCode, 0, 0, 0, 0, 0, 0, 0];
    }

    method Search(bus: Bus, newAddr: array<bv8>) returns (found: bool)
      requires Valid() && newAddr.Length == 8 && newAddr != romNo
      modifies this, romNo, bus, newAddr
      ensures Valid()
      ensures (State(), if found then Some(Bits(newAddr[..])) else None) == SearchOnce(old(bus.Answering()), old(State()))
    {
      found := false;
      ghost var st := State();

      if !lastDeviceFlag {
        var presence := bus.Reset();
        if !presence {
          lastDiscrepancy, lastDeviceFlag, lastFamilyDiscrepancy := 0, false, 0;
          return false;
        }
        bus.StartSearch();
        ActiveAtStart(bus.devices);
        var idBitNumber, lastZero := FollowBits(bus);
        if !(idBitNumber < 65) {
          lastDiscrepancy := lastZero;
          if lastDiscrepancy == 0 {
            lastDeviceFlag := true;
          }
          found := true;
        }
      }

      FamilyByteZero(romNo[..]);
      if !found || romNo[0] == 0 {
        lastDiscrepancy, lastDeviceFlag, lastFamilyDiscrepancy := 0, false, 0;
        found := false;
      }
      CopyAddress(newAddr);
    }

    /** So far the ROM buffer holds the path written to the bus, followed by bits of the last search. */
    ghost predicate Following(bus: Bus, rom: Rom, mark: nat, lastZero: nat)
      reads this, romNo, bus
    {
      && Valid() && bus.Searching() && !bus.complement && |bus.path| <= ROM_BITS
      && Bits(romNo[..]) == bus.path + rom[|bus.path|..]
      && Active(bus.devices, bus.path) != {}
      && lastZero == LastZero(bus.devices, bus.path)
      && lastFamilyDiscrepancy == FamilyMark(bus.devices, bus.path, mark)
      && Walk(bus.devices, rom, lastDiscrepancy, bus.path) == Walk(bus.devices, rom, lastDiscrepancy, [])
    }

    /** The bit loop of a search. */
    method FollowBits(bus: Bus) returns (idBitNumber: nat, lastZero: nat)
      requires Valid() && bus.Searching() && !bus.complement && bus.path == []
      requires Active(bus.devices, []) != {}
      modifies `lastFamilyDiscrepancy, romNo, bus
      ensures Valid() && idBitNumber == 65
      ensures Bits(romNo[..]) == Walk(bus.devices, old(Bits(romNo[..])), lastDiscrepancy, [])
      ensures lastZero == LastZero(bus.devices, Bits(romNo[..]))
      ensures lastFamilyDiscrepancy == FamilyMark(bus.devices, Bits(romNo[..]), old(lastFamilyDiscrepancy))
    {
      idBitNumber, lastZero := 1, 0;
      var romByteNumber, romByteMask: bv8 := 0, 1;
      ghost var rom, mark := Bits(romNo[..]), lastFamilyDiscrepancy;

      while romByteNumber < 8
        invariant 1 <= idBitNumber <= 65 && bus.position == idBitNumber - 1
        invariant AtBit(romByteNumber, romByteMask, idBitNumber - 1)
        invariant Following(bus, rom, mark, lastZero)
        decreases 65 - idBitNumber
      {
        var present;
        present, lastZero := FollowBit(bus, idBitNumber, romByteNumber, romByteMask, lastZero, rom, mark);
        if !present {
          break;
        }
        romByteNumber, romByteMask := AdvanceCursor(romByteNumber, romByteMask, idBitNumber - 1);
        idBitNumber := idBitNumber + 1;
      }
    }

    method AdvanceCursor(romByteNumber: nat, romByteMask: bv8, ghost n: nat) returns (number: nat, mask: bv8)
      requires AtBit(romByteNumber, romByteMask, n)
      ensures AtBit(number, mask, n + 1)
    {
      NextCursor(romByteNumber, romByteMask, n);
      number, mask := romByteNumber, romByteMask << 1;
      if mask == 0 {
        number, mask := number + 1, 1;
      }
    }

    /** One turn of the bit loop, up to writing the chosen bit to the bus. */
    method FollowBit(bus: Bus, idBitNumber: nat, romByteNumber: nat, romByteMask: bv8, zeroBefore: nat,
                     ghost rom: Rom, ghost mark: nat)
      returns (present: bool, lastZero: nat)
      requires 1 <= idBitNumber <= 64 && AtBit(romByteNumber, romByteMask, idBitNumber - 1)
      requires Following(bus, rom, mark, zeroBefore) && bus.position == idBitNumber - 1
      modifies `lastFamilyDiscrepancy, romNo, bus
      ensures present && Following(bus, rom, mark, lastZero) && bus.position == idBitNumber
    {
      ghost var path := bus.path;
      var direction;
      present, direction, lastZero := ChooseDirection(bus, idBitNumber, romByteNumber, romByteMask, zeroBefore, rom, mark);
      if present {
        StoreAtCursor(romNo[..], romByteNumber, romByteMask, idBitNumber - 1, direction);
        StoreBit(romByteNumber, romByteMask, direction);
        ReplaceNext(path, rom, direction);
        bus.WriteBit(direction);
      }
    }

    /** Reads a bit and its complement from the bus and decides which way to go. */
    method ChooseDirection(bus: Bus, idBitNumber: nat, romByteNumber: nat, romByteMask: bv8, zeroBefore: nat,
                           ghost rom: Rom, ghost mark: nat)
      returns (present: bool, direction: bool, lastZero: nat)
      requires Valid() && 1 <= idBitNumber <= 64 && AtBit(romByteNumber, romByteMask, idBitNumber - 1)
      requires bus.Searching() && !bus.complement && bus.position == idBitNumber - 1
      requires Active(bus.devices, bus.path) != {}
      requires Bits(romNo[..])[idBitNumber - 1] == rom[idBitNumber - 1]
      requires zeroBefore == LastZero(bus.devices, bus.path)
      requires lastFamilyDiscrepancy == FamilyMark(bus.devices, bus.path, mark)
      modifies `lastFamilyDiscrepancy, bus
      ensures Valid() && bus.Searching() && !bus.complement && bus.path == old(bus.path)
      ensures present && direction == Direction(bus.devices, bus.path, rom, lastDiscrepancy)
      ensures Active(bus.devices, bus.path + [direction]) != {}
      ensures lastZero == LastZero(bus.devices, bus.path + [direction])
      ensures lastFamilyDiscrepancy == FamilyMark(bus.devices, bus.path + [direction], mark)
    {
      var idBit := bus.ReadBit();
      var cmpIdBit := bus.ReadBit();
      ActiveHasNextBit(bus.devices, bus.path);
      StepOfWalk(bus.devices, bus.path, rom, lastDiscrepancy, mark);
      present, direction, lastZero := !(idBit && cmpIdBit), idBit, zeroBefore;
      if idBit == cmpIdBit {
        direction := ResolveDiscrepancy(idBitNumber, romByteNumber, romByteMask);
        if !direction {
          lastZero := idBitNumber;
          if lastZero < 9 {
            lastFamilyDiscrepancy := lastZero;
          }
        }
      }
    }

    method ResolveDiscrepancy(idBitNumber: nat, romByteNumber: nat, romByteMask: bv8) returns (direction: bool)
      requires Valid() && 1 <= idBitNumber <= 64
      requires AtBit(romByteNumber, romByteMask, idBitNumber - 1)
      ensures direction == if idBitNumber < lastDiscrepancy then Bits(romNo[..])[idBitNumber - 1]
                           else idBitNumber == lastDiscrepancy
    {
      if idBitNumber < lastDiscrepancy {
        direction := romNo[romByteNumber] & romByteMask != 0;
      } else {
        direction := idBitNumber == lastDiscrepancy;
      }
    }

    method StoreBit(romByteNumber: nat, romByteMask: bv8, bit: bool)
      requires Valid() && romByteNumber < 8
      modifies romNo
      ensures romNo[..] == old(romNo[..])[romByteNumber := WithMask(old(romNo[romByteNumber]), romByteMask, bit)]
    {
      if bit {
        romNo[romByteNumber] := romNo[romByteNumber] | romByteMask;
      } else {
        romNo[romByteNumber] := romNo[romByteNumber] & !romByteMask;
      }
    }

    method CopyAddress(newAddr: array<bv8>)
      requires Valid() && newAddr.Length == 8 && newAddr != romNo
      modifies newAddr
      ensures newAddr[..] == romNo[..]
    {
      for i := 0 to 8
        invariant newAddr[..i] == romNo[..i]
      {
        newAddr[i] := romNo[i];
      }
    }
  }

  lemma ReplaceNext(path: seq<bool>, rom: Rom, bit: bool)
    requires |path| < ROM_BITS
    ensures (path + rom[|path|..])[|path| := bit] == path + [bit] + rom[|path| + 1..]
  {
  }

  lemma ZeroBits(bytes: seq<bv8>)
    requires |bytes| == 8 && forall k :: 0 <= k < 8 ==> bytes[k] == 0
    ensures Bits(bytes) == seq(ROM_BITS, _ => false)
  {
    forall n | 0 <= n < ROM_BITS ensures !BitAt(bytes, n) {
    }
  }

  lemma ActiveAtStart(devices: set<Rom>)
    ensures Active(devices, []) == devices
  {
  }

  lemma ActiveHasNextBit(devices: set<Rom>, path: seq<bool>)
    requires |path| < ROM_BITS && Active(devices, path) != {}
    ensures SomeBit(devices, path, false) || SomeBit(devices, path, true)
  {
    var d :| d in Active(devices, path);
    assert d[|path|] == false || d[|path|] == true;
  }

  /** One turn of the bit loop: some device still listens, and the two zero marks advance with the path. */
  lemma StepOfWalk(devices: set<Rom>, path: seq<bool>, rom: Rom, last: nat, mark: nat)
    requires |path| < ROM_BITS && Active(devices, path) != {}
    ensures var bit := Direction(devices, path, rom, last);
            && Active(devices, path + [bit]) != {}
            && (!bit && Discrepancy(devices, path) ==> LastZero(devices, path + [bit]) == |path| + 1)
            && (bit || !Discrepancy(devices, path) ==> LastZero(devices, path + [bit]) == LastZero(devices, path))
            && FamilyMark(devices, path + [bit], mark)
               == if !bit && Discrepancy(devices, path) && |path| < FAMILY_BITS then |path| + 1
                  else FamilyMark(devices, path, mark)
  {
    var bit := Direction(devices, path, rom, last);
    ActiveHasNextBit(devices, path);
    var d :| d in Active(devices, path) && d[|path|] == bit;
    assert d in Active(devices, path + [bit]);
    assert (path + [bit])[..|path|] == path;
    if |path| >= FAMILY_BITS {
      assert (path + [bit])[..FAMILY_BITS] == path[..FAMILY_BITS];
      assert |path| == FAMILY_BITS ==> path[..FAMILY_BITS] == path;
    }
  }
}
