/** Packing a 32-bit local time into the date and time fields of a FAT directory entry. */
module FatTime {
  import opened Calendar

  const FAT_EPOCH: nat := 1980

  // ---------------------------------------------------------------- the fields

  function Pack(year: bv32, month: bv32, day: bv32, hour: bv32, minute: bv32, half: bv32): bv32 {
    (((year << 9) | (month << 5) | day) << 16) | ((hour << 11) | (minute << 5) | half)
  }

  /** The fields of a directory entry; see 'Date and Time Formats' of the FAT32 File System Specification 1.03. */
  function YearField(v: bv32): bv32 { (v >> 25) & 0x7F }
  function MonthField(v: bv32): bv32 { (v >> 21) & 0x0F }
  function DayField(v: bv32): bv32 { (v >> 16) & 0x1F }
  function HourField(v: bv32): bv32 { (v >> 11) & 0x1F }
  function MinuteField(v: bv32): bv32 { (v >> 5) & 0x3F }
  function HalfField(v: bv32): bv32 { v & 0x1F }

  predicate HasFields(v: bv32, year: bv32, month: bv32, day: bv32, hour: bv32, minute: bv32, half: bv32) {
    && YearField(v) == year && MonthField(v) == month && DayField(v) == day
    && HourField(v) == hour && MinuteField(v) == minute && HalfField(v) == half
  }

  /** Fields that are small enough do not overflow into each other. */
  lemma FieldsUnpack(year: bv32, month: bv32, day: bv32, hour: bv32, minute: bv32, half: bv32)
    requires year < 0x80 && month < 0x10 && day < 0x20 && hour < 0x20 && minute < 0x40 && half < 0x20
    ensures HasFields(Pack(year, month, day, hour, minute, half), year, month, day, hour, minute, half)
  {
  }

  /** A number as a word, by its binary digits, and back. */
  function Bits(x: nat): bv32 {
    if x == 0 then 0 else (Bits(x / 2) << 1) | if x % 2 == 1 then 1 else 0
  }

  function Number(v: bv32): nat
    decreases v
  {
    if v == 0 then 0 else ShiftShrinks(v); 2 * Number(v >> 1) + if v & 1 == 1 then 1 else 0
  }

  lemma ShiftShrinks(v: bv32)
    requires v != 0
    ensures v >> 1 < v
  {
  }

  /** 2^k, as a number and as a word. */
  function Limit(k: nat): nat {
    if k == 0 then 1 else 2 * Limit(k - 1)
  }

  function LimitBits(k: nat): bv32 {
    if k == 0 then 1 else LimitBits(k - 1) << 1
  }

  lemma Limits()
    ensures Limit(4) == 0x10 && Limit(5) == 0x20 && Limit(6) == 0x40 && Limit(7) == 0x80
    ensures LimitBits(4) == 0x10 && LimitBits(5) == 0x20 && LimitBits(6) == 0x40 && LimitBits(7) == 0x80
  {
    assert Limit(2) == 4 && LimitBits(2) == 4;
  }

  lemma LimitSmall(k: nat)
    requires k <= 7
    ensures 0 < LimitBits(k) <= 0x80
  {
    Limits();
    assert LimitBits(0) == 1 && LimitBits(1) == 2 && LimitBits(2) == 4 && LimitBits(3) == 8;
  }

  lemma OneDigit(b: bv32, t: bv32, bit: bv32)
    requires b < t <= 0x80 && bit <= 1
    ensures (b << 1) | bit < t << 1 && ((b << 1) | bit) >> 1 == b && ((b << 1) | bit) & 1 == bit
  {
  }

  /** The word of a number below 2^k has no more than k digits, and is read back. */
  lemma {:induction false} BitsBack(x: nat, k: nat)
    requires k <= 7 && x < Limit(k)
    ensures Bits(x) < LimitBits(k) && Number(Bits(x)) == x
  {
    LimitSmall(k);
    if x > 0 {
      BitsBack(x / 2, k - 1);
      LimitSmall(k - 1);
      OneDigit(Bits(x / 2), LimitBits(k - 1), if x % 2 == 1 then 1 else 0);
    }
  }

  // ---------------------------------------------------------------- the time function

  /** A 32-bit time ends in the year 2106. */
  lemma YearBound(days: nat, year: nat, rest: nat)
    requires days < UINT_RANGE / DAY + 1 && year >= EPOCH && DaysBeforeYear(year) + rest == days
    ensures year <= 2106
  {
    if year >= 2107 {
      ClosedForm(2107);
      YearsMonotone(2107, year);
    }
  }

  /** The first second of 1980. */
  const FAT_START: nat := 315532800

  lemma StartOf1980(d: Date)
    requires IsDate(d)
    ensures FAT_START == DAY * DaysBeforeYear(FAT_EPOCH)
    ensures d.year < FAT_EPOCH <==> Seconds(d) < FAT_START
  {
    ClosedForm(FAT_EPOCH);
    SecondsSplit(d);
    DayInYear(d);
    if d.year < FAT_EPOCH {
      YearsMonotone(d.year, FAT_EPOCH);
    } else {
      YearsMonotone(FAT_EPOCH, d.year);
    }
  }

  /** The date of a time, packed, the seconds halved; 0 for times before 1980. */
  method GetFatTime(time: nat) returns (v: bv32, ghost date: Date)
    requires time < UINT_RANGE
    ensures time < FAT_START ==> v == 0
    ensures time >= FAT_START ==>
              && IsDate(date) && Seconds(date) == time && FAT_EPOCH <= date.year <= 2106 && IsPacked(v, date)
              && Seconds(Unpacked(v)) == time - time % 2
              && Number(v >> 25) == date.year - 1980 && Number((v >> 21) & 0xF) == date.month + 1
              && Number((v >> 16) & 0x1F) == date.day && Number((v >> 11) & 0x1F) == date.hours
              && Number((v >> 5) & 0x3F) == date.minutes && Number(v & 0x1F) == date.seconds / 2
  {
    date := Date(EPOCH, 0, 1, 0, 0, 0);
    if time == 0 {
      return 0, date;
    }
    var year, month, day, hour, minute, second := BreakDown(time);
    date := Date(year, month, day, hour, minute, second);
    StartOf1980(date);
    if year < FAT_EPOCH {
      return 0, date;
    }
    v := Packed(year, month, day, hour, minute, second);
    UnpackedIsDate(v, date);
    RoundedDown(date);
    FieldsTell(v, date);
  }

  /** The date that a directory entry tells; a month of 0 is none. */
  function Unpacked(v: bv32): (d: Date)
    ensures d.month < 12 && d.day > 0
  {
    var (month, day) := (Number(MonthField(v)), Number(DayField(v)));
    Date(FAT_EPOCH + Number(YearField(v)), if 1 <= month <= 12 then month - 1 else 0, if day > 0 then day else 1,
         Number(HourField(v)), Number(MinuteField(v)), 2 * Number(HalfField(v)))
  }

  lemma UnpackedIsDate(v: bv32, d: Date)
    requires IsPacked(v, d) && d.day > 0
    ensures Unpacked(v) == d.(seconds := 2 * (d.seconds / 2))
  {
    hide Limit, LimitBits, Bits, Number, YearField, MonthField, DayField, HourField, MinuteField, HalfField;
    Limits();
    BitsBack(d.year - FAT_EPOCH, 7);
    BitsBack(d.month + 1, 4);
    BitsBack(d.day, 5);
    BitsBack(d.hours, 5);
    BitsBack(d.minutes, 6);
    BitsBack(d.seconds / 2, 5);
  }

  /** Where the fields stand in the word. */
  lemma FieldsTell(v: bv32, d: Date)
    requires IsPacked(v, d)
    ensures Number(v >> 25) == d.year - FAT_EPOCH && Number((v >> 21) & 0xF) == d.month + 1
    ensures Number((v >> 16) & 0x1F) == d.day && Number((v >> 11) & 0x1F) == d.hours
    ensures Number((v >> 5) & 0x3F) == d.minutes && Number(v & 0x1F) == d.seconds / 2
  {
    hide Limit, LimitBits, Bits, Number;
    Limits();
    YearOnTop(v);
    BitsBack(d.year - FAT_EPOCH, 7);
    BitsBack(d.month + 1, 4);
    BitsBack(d.day, 5);
    BitsBack(d.hours, 5);
    BitsBack(d.minutes, 6);
    BitsBack(d.seconds / 2, 5);
  }

  lemma YearOnTop(v: bv32)
    ensures YearField(v) == v >> 25
  {
  }

  method BreakDown(time: nat) returns (year: nat, month: nat, day: nat, hour: nat, minute: nat, second: nat)
    requires time < UINT_RANGE
    ensures var d := Date(year, month, day, hour, minute, second); IsDate(d) && Seconds(d) == time && year <= 2106
  {
    second, minute, hour := time % 60, time / 60 % 60, time / 60 / 60 % 24;
    var days := time / 60 / 60 / 24;
    var rest;
    year, rest := FindYear(days);
    TimeSplits(time);
    YearBound(days, year, rest);
    MonthsFillYear(year);
    month, rest := FindMonth(rest, year);
    day := rest + 1;
  }

  method FindYear(days: nat) returns (year: nat, rest: nat)
    ensures year >= EPOCH && rest < DaysOfYear(year) && DaysBeforeYear(year) + rest == days
  {
    year, rest := EPOCH, days;
    while rest >= DaysOfYear(year)
      invariant year >= EPOCH && DaysBeforeYear(year) + rest == days
      decreases rest
    {
      rest := rest - DaysOfYear(year);
      year := year + 1;
    }
  }

  method FindMonth(days: nat, year: nat) returns (month: nat, rest: nat)
    requires days < DaysBeforeMonth(12, year)
    ensures month < 12 && rest < DaysOfMonth(month, year) && DaysBeforeMonth(month, year) + rest == days
  {
    month, rest := 0, days;
    while rest >= DaysOfMonth(month, year)
      invariant month < 12 && DaysBeforeMonth(month, year) + rest == days
      decreases 12 - month
    {
      MonthsMonotone(month + 1, 12, year);
      rest := rest - DaysOfMonth(month, year);
      month := month + 1;
    }
  }

  /** The fields of v are those of the date. */
  predicate IsPacked(v: bv32, d: Date) {
    && FAT_EPOCH <= d.year < FAT_EPOCH + 0x80 && d.month < 12 && d.day < 32 && d.hours < 24 && d.minutes < 60 && d.seconds < 60
    && HasFields(v, Bits(d.year - FAT_EPOCH), Bits(d.month + 1), Bits(d.day), Bits(d.hours), Bits(d.minutes), Bits(d.seconds / 2))
  }

  method Packed(year: nat, month: nat, day: nat, hour: nat, minute: nat, second: nat) returns (v: bv32)
    requires FAT_EPOCH <= year < FAT_EPOCH + 0x80 && month < 12 && day < 32 && hour < 24 && minute < 60 && second < 60
    ensures IsPacked(v, Date(year, month, day, hour, minute, second))
  {
    hide Number, Pack, Bits, Limit, LimitBits, HasFields;
    var y, m, d := Bits(year - FAT_EPOCH), Bits(month + 1), Bits(day);
    var h, n, s := Bits(hour), Bits(minute), Bits(second / 2);
    Limits();
    BitsBack(year - FAT_EPOCH, 7);
    BitsBack(month + 1, 4);
    BitsBack(day, 5);
    BitsBack(hour, 5);
    BitsBack(minute, 6);
    BitsBack(second / 2, 5);
    v := Pack(y, m, d, h, n, s);
    FieldsUnpack(y, m, d, h, n, s);
  }

  lemma EvenPart(minutes: nat, seconds: nat)
    ensures minutes * 60 + 2 * (seconds / 2) == minutes * 60 + seconds - (minutes * 60 + seconds) % 2
  {
    assert minutes * 60 + seconds == 2 * (minutes * 30) + seconds;
  }

  /** Halving the seconds loses no more than an odd second. */
  lemma RoundedDown(d: Date)
    requires d.month < 12 && d.day > 0
    ensures Seconds(d.(seconds := 2 * (d.seconds / 2))) == Seconds(d) - Seconds(d) % 2
  {
    EvenPart((DayNumber(d) * 24 + d.hours) * 60 + d.minutes, d.seconds);
  }
}
