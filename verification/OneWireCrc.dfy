/**
 The 1-Wire CRC routines (Maxim Application Note 27) against their bit-serial definitions:
 a message is fed into the shift register bit by bit, the least significant bit of every byte first.
 */
module OneWireCrc {

  // ---------------------------------------------------------------- messages as bits

  predicate FirstBit(b: bv8) {
    b & 1 != 0
  }

  function RestBits(b: bv8): bv8 {
    b >> 1
  }

  function ByteBits(b: bv8): seq<bool> {
    Taken(FirstBit, RestBits, b, 8)
  }

  function MessageBits(m: seq<bv8>): seq<bool> {
    if m == [] then [] else MessageBits(m[..|m| - 1]) + ByteBits(m[|m| - 1])
  }

  /** A shift register of any kind that takes in bits one after the other. */
  function FeedBits<R>(shiftIn: (R, bool) -> R, register: R, bits: seq<bool>): R {
    if bits == [] then register
    else shiftIn(FeedBits(shiftIn, register, bits[..|bits| - 1]), bits[|bits| - 1])
  }

  lemma {:induction false} FeedBitsAppend<R>(shiftIn: (R, bool) -> R, register: R, a: seq<bool>, b: seq<bool>)
    ensures FeedBits(shiftIn, register, a + b) == FeedBits(shiftIn, FeedBits(shiftIn, register, a), b)
  {
    if b == [] {
      assert a + b == a;
    } else {
      var n := |b| - 1;
      assert (a + b)[..|a + b| - 1] == a + b[..n];
      FeedBitsAppend(shiftIn, register, a, b[..n]);
    }
  }

  lemma FeedOneMore<R>(shiftIn: (R, bool) -> R, register: R, bits: seq<bool>, k: nat)
    requires k < |bits|
    ensures FeedBits(shiftIn, register, bits[..k + 1]) == shiftIn(FeedBits(shiftIn, register, bits[..k]), bits[k])
  {
    assert bits[..k + 1][..k] == bits[..k];
  }

  function Repeat<T>(f: T -> T, x: T, n: nat): T {
    if n == 0 then x else f(Repeat(f, x, n - 1))
  }

  /** The first n bits taken off one end of b. */
  function Taken<B>(first: B -> bool, rest: B -> B, b: B, n: nat): (bits: seq<bool>)
    ensures |bits| == n
  {
    if n == 0 then [] else Taken(first, rest, b, n - 1) + [first(Repeat(rest, b, n - 1))]
  }

  /** Every bit of a y may just as well be mixed into the register ahead of time. */
  ghost predicate Absorbs<R(!new), B(!new)>(
      shiftIn: (R, bool) -> R, step: R -> R, mix: (R, B) -> R, first: B -> bool, rest: B -> B) {
    forall x: R, y: B :: mix(shiftIn(x, first(y)), rest(y)) == step(mix(x, y))
  }

  /** Then feeding the bits of b is the same as mixing in the whole of b at once and taking plain steps. */
  lemma {:induction false} FeedIsSteps<R(!new), B(!new)>(
      shiftIn: (R, bool) -> R, step: R -> R, mix: (R, B) -> R, first: B -> bool, rest: B -> B, r: R, b: B, n: nat)
    requires Absorbs(shiftIn, step, mix, first, rest)
    ensures mix(FeedBits(shiftIn, r, Taken(first, rest, b, n)), Repeat(rest, b, n)) == Repeat(step, mix(r, b), n)
  {
    if n > 0 {
      FeedIsSteps(shiftIn, step, mix, first, rest, r, b, n - 1);
      assert Taken(first, rest, b, n)[..n - 1] == Taken(first, rest, b, n - 1);
    }
  }

  lemma {:induction false} RepeatAdds<T>(f: T -> T, x: T, m: nat, n: nat)
    ensures Repeat(f, x, m + n) == Repeat(f, Repeat(f, x, m), n)
  {
    if n > 0 {
      RepeatAdds(f, x, m, n - 1);
    }
  }

  /** Parts of a register that are far enough up just move down during n steps. */
  ghost predicate MovesDown<T(!new)>(f: T -> T, n: nat, down: T -> T, join: (T, T) -> T, clear: T -> bool) {
    forall h: T, l: T :: clear(h) ==> Repeat(f, join(h, l), n) == join(down(h), Repeat(f, l, n))
  }

  lemma MovesDownTwice<T(!new)>(f: T -> T, n: nat, down: T -> T, join: (T, T) -> T, clear: T -> bool, h: T, l: T)
    requires MovesDown(f, n, down, join, clear) && clear(h) && clear(down(h))
    ensures Repeat(f, join(h, l), n + n) == join(down(down(h)), Repeat(f, l, n + n))
  {
    RepeatAdds(f, join(h, l), n, n);
    RepeatAdds(f, l, n, n);
  }

  lemma RepeatFour<T>(f: T -> T, x: T)
    ensures Repeat(f, x, 4) == f(f(f(f(x))))
  {
    assert Repeat(f, x, 1) == f(x);
    assert Repeat(f, x, 2) == f(f(x));
    assert Repeat(f, x, 3) == f(f(f(x)));
  }

  lemma RepeatEight<T>(f: T -> T, x: T)
    ensures Repeat(f, x, 8) == f(f(f(f(f(f(f(f(x))))))))
  {
    RepeatFour(f, x);
    RepeatFour(f, Repeat(f, x, 4));
    RepeatAdds(f, x, 4, 4);
  }

  lemma AllBitsTaken(b: bv8)
    ensures Repeat(RestBits, b, 8) == 0
  {
    RepeatEight(RestBits, b);
  }

  lemma {:induction false} TakenAt<B>(first: B -> bool, rest: B -> B, b: B, n: nat)
    ensures forall k :: 0 <= k < n ==> Taken(first, rest, b, n)[k] == first(Repeat(rest, b, k))
  {
    if n > 0 {
      TakenAt(first, rest, b, n - 1);
    }
  }

  lemma NextByte(m: seq<bv8>, i: nat)
    requires i < |m|
    ensures MessageBits(m[..i + 1]) == MessageBits(m[..i]) + ByteBits(m[i])
  {
    assert m[..i + 1][..i] == m[..i];
  }

  // ---------------------------------------------------------------- CRC-8, x^8 + x^5 + x^4 + 1 reflected

  function ShiftIn8(crc: bv8, bit: bool): bv8 {
    var c := crc >> 1;
    if (crc & 1 != 0) != bit then c ^ 0x8C else c
  }

  /** The bit-serial definition. */
  function Serial8(crc: bv8, bits: seq<bool>): bv8 {
    FeedBits(ShiftIn8, crc, bits)
  }

  function Step8(u: bv8): bv8 {
    ShiftIn8(u, false)
  }

  function Steps8(u: bv8): bv8 {
    Step8(Step8(Step8(Step8(Step8(Step8(Step8(Step8(u))))))))
  }

  /** The lookup table: sixteen rows of sixteen entries. */
  function Table(x: bv8): bv8 {
    var hi, lo := x >> 4, x & 0x0F;
    if hi == 0 then Row0(lo) else if hi == 1 then Row1(lo) else
    if hi == 2 then Row2(lo) else if hi == 3 then Row3(lo) else
    if hi == 4 then Row4(lo) else if hi == 5 then Row5(lo) else
    if hi == 6 then Row6(lo) else if hi == 7 then Row7(lo) else
    if hi == 8 then Row8(lo) else if hi == 9 then Row9(lo) else
    if hi == 10 then Row10(lo) else if hi == 11 then Row11(lo) else
    if hi == 12 then Row12(lo) else if hi == 13 then Row13(lo) else
    if hi == 14 then Row14(lo) else Row15(lo)
  }

  function Row0(lo: bv8): bv8 {
    if lo == 0 then 0 else if lo == 1 then 94 else if lo == 2 then 188 else if lo == 3 then 226 else
    if lo == 4 then 97 else if lo == 5 then 63 else if lo == 6 then 221 else if lo == 7 then 131 else
    if lo == 8 then 194 else if lo == 9 then 156 else if lo == 10 then 126 else if lo == 11 then 32 else
    if lo == 12 then 163 else if lo == 13 then 253 else if lo == 14 then 31 else 65
  }

  function Row1(lo: bv8): bv8 {
    if lo == 0 then 157 else if lo == 1 then 195 else if lo == 2 then 33 else if lo == 3 then 127 else
    if lo == 4 then 252 else if lo == 5 then 162 else if lo == 6 then 64 else if lo == 7 then 30 else
    if lo == 8 then 95 else if lo == 9 then 1 else if lo == 10 then 227 else if lo == 11 then 189 else
    if lo == 12 then 62 else if lo == 13 then 96 else if lo == 14 then 130 else 220
  }

  function Row2(lo: bv8): bv8 {
    if lo == 0 then 35 else if lo == 1 then 125 else if lo == 2 then 159 else if lo == 3 then 193 else
    if lo == 4 then 66 else if lo == 5 then 28 else if lo == 6 then 254 else if lo == 7 then 160 else
    if lo == 8 then 225 else if lo == 9 then 191 else if lo == 10 then 93 else if lo == 11 then 3 else
    if lo == 12 then 128 else if lo == 13 then 222 else if lo == 14 then 60 else 98
  }

  function Row3(lo: bv8): bv8 {
    if lo == 0 then 190 else if lo == 1 then 224 else if lo == 2 then 2 else if lo == 3 then 92 else
    if lo == 4 then 223 else if lo == 5 then 129 else if lo == 6 then 99 else if lo == 7 then 61 else
    if lo == 8 then 124 else if lo == 9 then 34 else if lo == 10 then 192 else if lo == 11 then 158 else
    if lo == 12 then 29 else if lo == 13 then 67 else if lo == 14 then 161 else 255
  }

  function Row4(lo: bv8): bv8 {
    if lo == 0 then 70 else if lo == 1 then 24 else if lo == 2 then 250 else if lo == 3 then 164 else
    if lo == 4 then 39 else if lo == 5 then 121 else if lo == 6 then 155 else if lo == 7 then 197 else
    if lo == 8 then 132 else if lo == 9 then 218 else if lo == 10 then 56 else if lo == 11 then 102 else
    if lo == 12 then 229 else if lo == 13 then 187 else if lo == 14 then 89 else 7
  }

  function Row5(lo: bv8): bv8 {
    if lo == 0 then 219 else if lo == 1 then 133 else if lo == 2 then 103 else if lo == 3 then 57 else
    if lo == 4 then 186 else if lo == 5 then 228 else if lo == 6 then 6 else if lo == 7 then 88 else
    if lo == 8 then 25 else if lo == 9 then 71 else if lo == 10 then 165 else if lo == 11 then 251 else
    if lo == 12 then 120 else if lo == 13 then 38 else if lo == 14 then 196 else 154
  }

  function Row6(lo: bv8): bv8 {
    if lo == 0 then 101 else if lo == 1 then 59 else if lo == 2 then 217 else if lo == 3 then 135 else
    if lo == 4 then 4 else if lo == 5 then 90 else if lo == 6 then 184 else if lo == 7 then 230 else
    if lo == 8 then 167 else if lo == 9 then 249 else if lo == 10 then 27 else if lo == 11 then 69 else
    if lo == 12 then 198 else if lo == 13 then 152 else if lo == 14 then 122 else 36
  }

  function Row7(lo: bv8): bv8 {
    if lo == 0 then 248 else if lo == 1 then 166 else if lo == 2 then 68 else if lo == 3 then 26 else
    if lo == 4 then 153 else if lo == 5 then 199 else if lo == 6 then 37 else if lo == 7 then 123 else
    if lo == 8 then 58 else if lo == 9 then 100 else if lo == 10 then 134 else if lo == 11 then 216 else
    if lo == 12 then 91 else if lo == 13 then 5 else if lo == 14 then 231 else 185
  }

  function Row8(lo: bv8): bv8 {
    if lo == 0 then 140 else if lo == 1 then 210 else if lo == 2 then 48 else if lo == 3 then 110 else
    if lo == 4 then 237 else if lo == 5 then 179 else if lo == 6 then 81 else if lo == 7 then 15 else
    if lo == 8 then 78 else if lo == 9 then 16 else if lo == 10 then 242 else if lo == 11 then 172 else
    if lo == 12 then 47 else if lo == 13 then 113 else if lo == 14 then 147 else 205
  }

  function Row9(lo: bv8): bv8 {
    if lo == 0 then 17 else if lo == 1 then 79 else if lo == 2 then 173 else if lo == 3 then 243 else
    if lo == 4 then 112 else if lo == 5 then 46 else if lo == 6 then 204 else if lo == 7 then 146 else
    if lo == 8 then 211 else if lo == 9 then 141 else if lo == 10 then 111 else if lo == 11 then 49 else
    if lo == 12 then 178 else if lo == 13 then 236 else if lo == 14 then 14 else 80
  }

  function Row10(lo: bv8): bv8 {
    if lo == 0 then 175 else if lo == 1 then 241 else if lo == 2 then 19 else if lo == 3 then 77 else
    if lo == 4 then 206 else if lo == 5 then 144 else if lo == 6 then 114 else if lo == 7 then 44 else
    if lo == 8 then 109 else if lo == 9 then 51 else if lo == 10 then 209 else if lo == 11 then 143 else
    if lo == 12 then 12 else if lo == 13 then 82 else if lo == 14 then 176 else 238
  }

  function Row11(lo: bv8): bv8 {
    if lo == 0 then 50 else if lo == 1 then 108 else if lo == 2 then 142 else if lo == 3 then 208 else
    if lo == 4 then 83 else if lo == 5 then 13 else if lo == 6 then 239 else if lo == 7 then 177 else
    if lo == 8 then 240 else if lo == 9 then 174 else if lo == 10 then 76 else if lo == 11 then 18 else
    if lo == 12 then 145 else if lo == 13 then 207 else if lo == 14 then 45 else 115
  }

  function Row12(lo: bv8): bv8 {
    if lo == 0 then 202 else if lo == 1 then 148 else if lo == 2 then 118 else if lo == 3 then 40 else
    if lo == 4 then 171 else if lo == 5 then 245 else if lo == 6 then 23 else if lo == 7 then 73 else
    if lo == 8 then 8 else if lo == 9 then 86 else if lo == 10 then 180 else if lo == 11 then 234 else
    if lo == 12 then 105 else if lo == 13 then 55 else if lo == 14 then 213 else 139
  }

  function Row13(lo: bv8): bv8 {
    if lo == 0 then 87 else if lo == 1 then 9 else if lo == 2 then 235 else if lo == 3 then 181 else
    if lo == 4 then 54 else if lo == 5 then 104 else if lo == 6 then 138 else if lo == 7 then 212 else
    if lo == 8 then 149 else if lo == 9 then 203 else if lo == 10 then 41 else if lo == 11 then 119 else
    if lo == 12 then 244 else if lo == 13 then 170 else if lo == 14 then 72 else 22
  }

  function Row14(lo: bv8): bv8 {
    if lo == 0 then 233 else if lo == 1 then 183 else if lo == 2 then 85 else if lo == 3 then 11 else
    if lo == 4 then 136 else if lo == 5 then 214 else if lo == 6 then 52 else if lo == 7 then 106 else
    if lo == 8 then 43 else if lo == 9 then 117 else if lo == 10 then 151 else if lo == 11 then 201 else
    if lo == 12 then 74 else if lo == 13 then 20 else if lo == 14 then 246 else 168
  }

  function Row15(lo: bv8): bv8 {
    if lo == 0 then 116 else if lo == 1 then 42 else if lo == 2 then 200 else if lo == 3 then 150 else
    if lo == 4 then 21 else if lo == 5 then 75 else if lo == 6 then 169 else if lo == 7 then 247 else
    if lo == 8 then 182 else if lo == 9 then 232 else if lo == 10 then 10 else if lo == 11 then 84 else
    if lo == 12 then 215 else if lo == 13 then 137 else if lo == 14 then 107 else 53
  }

  lemma TableQuarter0(x: bv8)
    requires 0 <= x <= 63
    ensures Table(x) == Steps8(x)
  {
  }

  lemma TableQuarter1(x: bv8)
    requires 64 <= x <= 127
    ensures Table(x) == Steps8(x)
  {
  }

  lemma TableQuarter2(x: bv8)
    requires 128 <= x <= 191
    ensures Table(x) == Steps8(x)
  {
  }

  lemma TableQuarter3(x: bv8)
    requires 192 <= x <= 255
    ensures Table(x) == Steps8(x)
  {
  }

  lemma TableIsSerial(x: bv8)
    ensures Table(x) == Steps8(x)
  {
    if x < 64 { TableQuarter0(x); } else if x < 128 { TableQuarter1(x); }
    else if x < 192 { TableQuarter2(x); } else { TableQuarter3(x); }
  }

  function Mix8(crc: bv8, b: bv8): bv8 {
    crc ^ b
  }

  lemma Absorb8(crc: bv8, b: bv8, bit: bool, rest: bv8)
    requires bit == FirstBit(b) && rest == RestBits(b)
    ensures Mix8(ShiftIn8(crc, bit), rest) == Step8(Mix8(crc, b))
  {
  }

  lemma Absorbs8()
    ensures Absorbs(ShiftIn8, Step8, Mix8, FirstBit, RestBits)
  {
    forall x, y ensures Mix8(ShiftIn8(x, FirstBit(y)), RestBits(y)) == Step8(Mix8(x, y)) {
      Absorb8(x, y, FirstBit(y), RestBits(y));
    }
  }

  lemma FeedIsSteps8(crc: bv8, b: bv8)
    ensures Mix8(Serial8(crc, ByteBits(b)), Repeat(RestBits, b, 8)) == Repeat(Step8, Mix8(crc, b), 8)
  {
    Absorbs8();
    FeedIsSteps(ShiftIn8, Step8, Mix8, FirstBit, RestBits, crc, b, 8);
  }

  /** One byte: the table entry of register xor byte is the register after eight bit steps. */
  lemma ByteStep8(crc: bv8, b: bv8)
    ensures Serial8(crc, ByteBits(b)) == Table(crc ^ b)
  {
    FeedIsSteps8(crc, b);
    AllBitsTaken(b);
    RepeatEight(Step8, crc ^ b);
    TableIsSerial(crc ^ b);
  }

  /** The table-driven form. */
  method Crc8(addr: seq<bv8>) returns (crc: bv8)
    ensures crc == Serial8(0, MessageBits(addr))
  {
    crc := 0;
    var i := 0;
    while i < |addr|
      invariant 0 <= i <= |addr|
      invariant crc == Serial8(0, MessageBits(addr[..i]))
    {
      NextByte(addr, i);
      FeedBitsAppend(ShiftIn8, 0 as bv8, MessageBits(addr[..i]), ByteBits(addr[i]));
      ByteStep8(crc, addr[i]);
      crc := Table(crc ^ addr[i]);
      i := i + 1;
    }
    assert addr[..i] == addr;
  }

  /** The form without a table, selected by ONEWIRE_CRC8_TABLE == 0. */
  method Crc8Bitwise(addr: seq<bv8>) returns (crc: bv8)
    ensures crc == Serial8(0, MessageBits(addr))
  {
    crc := 0;
    var i := 0;
    while i < |addr|
      invariant 0 <= i <= |addr|
      invariant crc == Serial8(0, MessageBits(addr[..i]))
    {
      NextByte(addr, i);
      FeedBitsAppend(ShiftIn8, 0 as bv8, MessageBits(addr[..i]), ByteBits(addr[i]));
      crc := ShiftByteIn(crc, addr[i]);
      i := i + 1;
    }
    assert addr[..i] == addr;
  }

  method ShiftByteIn(start: bv8, byte: bv8) returns (crc: bv8)
    ensures crc == Serial8(start, ByteBits(byte))
  {
    crc := start;
    var inbyte, i := byte, 8;
    while i > 0
      invariant 0 <= i <= 8
      invariant inbyte == Repeat(RestBits, byte, 8 - i)
      invariant crc == Serial8(start, ByteBits(byte)[..8 - i])
    {
      TakenAt(FirstBit, RestBits, byte, 8);
      FeedOneMore(ShiftIn8, start, ByteBits(byte), 8 - i);
      crc := ShiftBitIn(crc, inbyte);
      inbyte := RestBits(inbyte);
      i := i - 1;
    }
    assert ByteBits(byte)[..8] == ByteBits(byte);
  }

  method ShiftBitIn(start: bv8, inbyte: bv8) returns (crc: bv8)
    ensures crc == ShiftIn8(start, FirstBit(inbyte))
  {
    MixBit(start, inbyte);
    var mix := (start ^ inbyte) & 0x01;
    crc := start >> 1;
    if mix != 0 { crc := crc ^ 0x8C; }
  }

  lemma MixBit(crc: bv8, b: bv8)
    ensures ((crc ^ b) & 1 != 0) <==> ((crc & 1 != 0) != (b & 1 != 0))
  {
  }

  // ---------------------------------------------------------------- CRC-16, reflected polynomial 0xA001

  predicate LowBit(x: bv16) {
    x & 1 != 0
  }

  function Half(x: bv16): bv16 {
    x >> 1
  }

  function Poly(x: bv16): bv16 {
    x ^ 0xA001
  }

  function Xor16(a: bv16, b: bv16): bv16 {
    a ^ b
  }

  function Wide(b: bv8): bv16 {
    b as bv16
  }

  function ShiftIn16(crc: bv16, bit: bool): bv16 {
    if LowBit(crc) != bit then Poly(Half(crc)) else Half(crc)
  }

  lemma LowBitOfXor(x: bv16, y: bv16)
    ensures LowBit(Xor16(x, y)) <==> LowBit(x) != LowBit(y)
  {
  }

  lemma HalfOfXor(x: bv16, y: bv16)
    ensures Half(Xor16(x, y)) == Xor16(Half(x), Half(y))
  {
  }

  lemma PolyOfXor(x: bv16, y: bv16)
    ensures Xor16(Poly(x), y) == Poly(Xor16(x, y)) == Xor16(x, Poly(y))
  {
    hide Xor16, Poly;
    PolyIsXor(x);
    PolyIsXor(y);
    PolyIsXor(Xor16(x, y));
    XorCommutes(x, 0xA001);
    XorAssociates(0xA001, x, y);
    XorCommutes(0xA001, Xor16(x, y));
    XorAssociates(x, y, 0xA001);
  }

  lemma PolyIsXor(x: bv16)
    ensures Poly(x) == Xor16(x, 0xA001)
  {
  }

  lemma XorCommutes(x: bv16, y: bv16)
    ensures Xor16(x, y) == Xor16(y, x)
  {
  }

  lemma XorAssociates(x: bv16, y: bv16, z: bv16)
    ensures Xor16(Xor16(x, y), z) == Xor16(x, Xor16(y, z))
  {
    assert (x ^ y) ^ z == x ^ (y ^ z);
  }

  lemma XorZero(x: bv16)
    ensures Xor16(x, Wide(0)) == x
  {
  }

  lemma WideBits(b: bv8)
    ensures LowBit(Wide(b)) == FirstBit(b) && Half(Wide(b)) == Wide(RestBits(b))
  {
  }

  /** The bit-serial definition. */
  function Serial16(crc: bv16, bits: seq<bool>): bv16 {
    FeedBits(ShiftIn16, crc, bits)
  }

  function Step16(u: bv16): bv16 {
    ShiftIn16(u, false)
  }

  function Mix16(crc: bv16, b: bv8): bv16 {
    Xor16(crc, Wide(b))
  }

  lemma Absorb16(crc: bv16, b: bv8, bit: bool, rest: bv8)
    requires bit == FirstBit(b) && rest == RestBits(b)
    ensures Mix16(ShiftIn16(crc, bit), rest) == Step16(Mix16(crc, b))
  {
    hide LowBit, Half, Poly, Xor16, Wide, FirstBit, RestBits;
    WideBits(b);
    LowBitOfXor(crc, Wide(b));
    HalfOfXor(crc, Wide(b));
    PolyOfXor(Half(crc), Wide(rest));
    PolyOfXor(Half(crc), Half(Wide(b)));
  }

  lemma Absorbs16()
    ensures Absorbs(ShiftIn16, Step16, Mix16, FirstBit, RestBits)
  {
    forall x, y ensures Mix16(ShiftIn16(x, FirstBit(y)), RestBits(y)) == Step16(Mix16(x, y)) {
      Absorb16(x, y, FirstBit(y), RestBits(y));
    }
  }

  function OddParity(n: bv16): bv16 {
    if n == 0 then 0 else if n == 1 then 1 else if n == 2 then 1 else if n == 3 then 0
    else if n == 4 then 1 else if n == 5 then 0 else if n == 6 then 0 else if n == 7 then 1
    else if n == 8 then 1 else if n == 9 then 0 else if n == 10 then 0 else if n == 11 then 1
    else if n == 12 then 0 else if n == 13 then 1 else if n == 14 then 1 else 0
  }

  predicate OddByte(cdata: bv16) {
    OddParity(cdata & 0x0F) ^ OddParity(cdata >> 4) != 0
  }

  function ShiftLeft6(x: bv16): bv16 {
    x << 6
  }

  function ShiftLeft1(x: bv16): bv16 {
    x << 1
  }

  /** What the code xors to the high byte of the register for the byte cdata. */
  function Fold(cdata: bv16): bv16 {
    var d := ShiftLeft6(cdata);
    (if OddByte(cdata) then 0xC001 else 0) ^ d ^ ShiftLeft1(d)
  }

  function Steps16(u: bv16): bv16 {
    Step16(Step16(Step16(Step16(Step16(Step16(Step16(Step16(u))))))))
  }

  lemma LowByteSteps(w: bv16)
    requires w <= 0xFF
    ensures Steps16(w) == Fold(w)
  {
    if w < 0x80 {
      LowerHalfSteps(w);
    } else {
      UpperHalfSteps(w);
    }
  }

  lemma LowerHalfSteps(w: bv16)
    requires w < 0x80
    ensures Steps16(w) == Fold(w)
  {
  }

  lemma UpperHalfSteps(w: bv16)
    requires 0x80 <= w <= 0xFF
    ensures Steps16(w) == Fold(w)
  {
  }

  lemma LowByteFolds(w: bv16)
    requires w <= 0xFF
    ensures Repeat(Step16, w, 8) == Fold(w)
  {
    LowByteSteps(w);
    RepeatEight(Step16, w);
  }

  function DownFour(h: bv16): bv16 {
    h >> 4
  }

  predicate LowFourClear(h: bv16) {
    h & 0x0F == 0
  }

  lemma FourSteps(h: bv16, l: bv16, x: bv16, down: bv16)
    requires LowFourClear(h) && x == Xor16(h, l) && down == DownFour(h)
    ensures Step16(Step16(Step16(Step16(x)))) == Xor16(down, Step16(Step16(Step16(Step16(l)))))
  {
    hide LowBit, Half, Poly, Xor16, Step16, DownFour, LowFourClear;
    FourLowBits(h);
    OneStep(h, l);
    OneStep(Half(h), Step16(l));
    OneStep(Half(Half(h)), Step16(Step16(l)));
    OneStep(Half(Half(Half(h))), Step16(Step16(Step16(l))));
  }

  /** A part of the register whose lowest bit is clear moves down by one in a step. */
  lemma OneStep(h: bv16, l: bv16)
    requires !LowBit(h)
    ensures Step16(Xor16(h, l)) == Xor16(Half(h), Step16(l))
  {
    hide LowBit, Half, Poly, Xor16;
    LowBitOfXor(h, l);
    HalfOfXor(h, l);
    PolyOfXor(Half(h), Half(l));
  }

  lemma FourLowBits(h: bv16)
    requires LowFourClear(h)
    ensures !LowBit(h) && !LowBit(Half(h)) && !LowBit(Half(Half(h))) && !LowBit(Half(Half(Half(h))))
    ensures Half(Half(Half(Half(h)))) == DownFour(h)
  {
  }

  lemma FourStepsMoveDown(h: bv16, l: bv16, x: bv16, down: bv16)
    requires LowFourClear(h) && x == Xor16(h, l) && down == DownFour(h)
    ensures Repeat(Step16, x, 4) == Xor16(down, Repeat(Step16, l, 4))
  {
    FourSteps(h, l, x, down);
    RepeatFour(Step16, x);
    RepeatFour(Step16, l);
  }

  lemma Step16MovesDown()
    ensures MovesDown(Step16, 4, DownFour, Xor16, LowFourClear)
  {
    forall h, l | LowFourClear(h) ensures Repeat(Step16, Xor16(h, l), 4) == Xor16(DownFour(h), Repeat(Step16, l, 4)) {
      FourStepsMoveDown(h, l, Xor16(h, l), DownFour(h));
    }
  }

  lemma HighByteMovesDown(u: bv16, high: bv16, low: bv16, h: bv16)
    requires u == Xor16(h, low) && LowFourClear(h) && LowFourClear(DownFour(h)) && high == DownFour(DownFour(h))
    ensures Repeat(Step16, u, 8) == Xor16(high, Repeat(Step16, low, 8))
  {
    Step16MovesDown();
    MovesDownTwice(Step16, 4, DownFour, Xor16, LowFourClear, h, low);
  }

  lemma HighByteParts(u: bv16, h: bv16, low: bv16, high: bv16)
    requires high == u >> 8 && low == u & 0xFF && h == u & 0xFF00
    ensures u == Xor16(h, low) && LowFourClear(h) && LowFourClear(DownFour(h)) && high == DownFour(DownFour(h))
  {
  }

  lemma EightStepsSplit(u: bv16, high: bv16, low: bv16)
    requires high == u >> 8 && low == u & 0xFF
    ensures Repeat(Step16, u, 8) == Xor16(high, Repeat(Step16, low, 8))
  {
    HighByteParts(u, u & 0xFF00, low, high);
    HighByteMovesDown(u, high, low, u & 0xFF00);
  }

  lemma SerialByte16(crc: bv16, b: bv8)
    ensures Serial16(crc, ByteBits(b)) == Repeat(Step16, Mix16(crc, b), 8)
  {
    hide Xor16, Wide, ShiftIn16, Step16, FirstBit, RestBits;
    XorZero(FeedBits(ShiftIn16, crc, Taken(FirstBit, RestBits, b, 8)));
    Absorbs16();
    FeedIsSteps(ShiftIn16, Step16, Mix16, FirstBit, RestBits, crc, b, 8);
    AllBitsTaken(b);
  }

  lemma ByteStep16(crc: bv16, b: bv8, high: bv16, low: bv16)
    requires high == Mix16(crc, b) >> 8 && low == Mix16(crc, b) & 0xFF
    ensures Serial16(crc, ByteBits(b)) == high ^ Fold(low)
  {
    SerialByte16(crc, b);
    EightStepsSplit(Mix16(crc, b), high, low);
    LowByteFolds(low);
  }

  lemma HighByteKept(crc: bv16, b: bv8, high: bv16, low: bv16)
    requires high == crc >> 8 && low == ((b as bv16) ^ crc) & 0xFF
    ensures high == Mix16(crc, b) >> 8 && low == Mix16(crc, b) & 0xFF
  {
  }

  method Crc16(input: seq<bv8>, start: bv16) returns (crc: bv16)
    ensures crc == Serial16(start, MessageBits(input))
  {
    crc := start;
    var i := 0;
    while i < |input|
      invariant 0 <= i <= |input|
      invariant crc == Serial16(start, MessageBits(input[..i]))
    {
      NextByte(input, i);
      FeedBitsAppend(ShiftIn16, start, MessageBits(input[..i]), ByteBits(input[i]));
      crc := TakeByte(crc, input[i]);
      i := i + 1;
    }
    assert input[..i] == input;
  }

  method TakeByte(start: bv16, byte: bv8) returns (crc: bv16)
    ensures crc == Serial16(start, ByteBits(byte))
  {
    var cdata := byte as bv16;
    cdata := (cdata ^ start) & 0xFF;
    var high := start >> 8;
    HighByteKept(start, byte, high, cdata);
    ByteStep16(start, byte, high, cdata);
    crc := FoldByte(high, cdata);
  }

  method FoldByte(high: bv16, data: bv16) returns (crc: bv16)
    ensures crc == high ^ Fold(data)
  {
    crc := high;
    var cdata := ShiftLeft6(data);
    XorRegroups(high, cdata, ShiftLeft1(cdata));
    if OddByte(data) {
      crc := crc ^ 0xC001;
    }
    crc := crc ^ cdata;
    cdata := ShiftLeft1(cdata);
    crc := crc ^ cdata;
  }

  lemma XorRegroups(h: bv16, d: bv16, e: bv16)
    ensures h ^ 0xC001 ^ d ^ e == h ^ (0xC001 ^ d ^ e)
    ensures h ^ d ^ e == h ^ (0 ^ d ^ e)
  {
  }

  // ---------------------------------------------------------------- the check of a received CRC-16

  /** The two complemented CRC bytes, the low one first. */
  predicate IsComplement(inverted: seq<bv8>, crc: bv16) {
    |inverted| == 2 && inverted[0] as bv16 == !crc & 0xFF && inverted[1] as bv16 == !crc >> 8
  }

  method CheckCrc16(input: seq<bv8>, inverted: seq<bv8>, start: bv16) returns (ok: bool)
    requires |inverted| == 2
    ensures var crc := Serial16(start, MessageBits(input));
            ok <==> inverted[0] as bv16 == !crc & 0xFF && inverted[1] as bv16 == !crc >> 8
  {
    var crc := Crc16(input, start);
    crc := !crc;
    ok := crc & 0xFF == inverted[0] as bv16 && crc >> 8 == inverted[1] as bv16;
  }

  lemma ShiftIn16Injective(c: bv16, d: bv16, bit: bool)
    requires c != d
    ensures ShiftIn16(c, bit) != ShiftIn16(d, bit)
  {
    hide LowBit, Half, Poly;
    HalvesDiffer(c, d);
    PolyInjective(Half(c), Half(d));
    TopBitTells(c, d);
    TopBitTells(d, c);
  }

  lemma HalvesDiffer(c: bv16, d: bv16)
    ensures c != d && LowBit(c) == LowBit(d) ==> Half(c) != Half(d)
  {
  }

  lemma PolyInjective(x: bv16, y: bv16)
    ensures x != y ==> Poly(x) != Poly(y)
  {
    hide Poly;
    PolyTwice(x);
    PolyTwice(y);
  }

  lemma PolyTwice(x: bv16)
    ensures Poly(Poly(x)) == x
  {
  }

  lemma TopBitTells(c: bv16, d: bv16)
    ensures Poly(Half(c)) != Half(d)
  {
    TopBit(c);
    TopBit(d);
  }

  lemma TopBit(c: bv16)
    ensures Half(c) < 0x8000 <= Poly(Half(c))
  {
  }

  lemma {:induction false} Serial16Injective(c: bv16, d: bv16, bits: seq<bool>)
    requires c != d
    ensures Serial16(c, bits) != Serial16(d, bits)
  {
    if bits != [] {
      Serial16Injective(c, d, bits[..|bits| - 1]);
      ShiftIn16Injective(Serial16(c, bits[..|bits| - 1]), Serial16(d, bits[..|bits| - 1]), bits[|bits| - 1]);
    }
  }

  lemma FoldSeparates(high: bv16, v: bv16, w: bv16)
    requires v <= 0xFF && w <= 0xFF && v != w
    ensures high ^ Fold(v) != high ^ Fold(w)
  {
  }

  lemma BytesSeparated(crc: bv16, x: bv8, y: bv8, high: bv16, v: bv16, w: bv16)
    requires high == Mix16(crc, x) >> 8 == Mix16(crc, y) >> 8
    requires v == Mix16(crc, x) & 0xFF && w == Mix16(crc, y) & 0xFF && v != w && v <= 0xFF && w <= 0xFF
    ensures Serial16(crc, ByteBits(x)) != Serial16(crc, ByteBits(y))
  {
    ByteStep16(crc, x, high, v);
    ByteStep16(crc, y, high, w);
    FoldSeparates(high, v, w);
  }

  lemma LowBytesDiffer(crc: bv16, x: bv8, y: bv8)
    requires x != y
    ensures Mix16(crc, x) & 0xFF != Mix16(crc, y) & 0xFF
    ensures Mix16(crc, x) & 0xFF <= 0xFF && Mix16(crc, y) & 0xFF <= 0xFF
    ensures Mix16(crc, x) >> 8 == Mix16(crc, y) >> 8
  {
  }

  lemma ByteChangesRegister(crc: bv16, x: bv8, y: bv8)
    requires x != y
    ensures Serial16(crc, ByteBits(x)) != Serial16(crc, ByteBits(y))
  {
    LowBytesDiffer(crc, x, y);
    BytesSeparated(crc, x, y, Mix16(crc, x) >> 8, Mix16(crc, x) & 0xFF, Mix16(crc, y) & 0xFF);
  }

  lemma {:induction false} MessageBitsAppend(a: seq<bv8>, b: seq<bv8>)
    ensures MessageBits(a + b) == MessageBits(a) + MessageBits(b)
    decreases |b|
  {
    if b == [] {
      assert a + b == a;
    } else {
      var front, last := b[..|b| - 1], b[|b| - 1];
      assert b == front + [last] && a + b == (a + front) + [last];
      MessageBitsAppend(a, front);
      OneMoreByte(front, last);
      OneMoreByte(a + front, last);
      Regroup(MessageBits(a), MessageBits(front), ByteBits(last));
    }
  }

  lemma OneMoreByte(m: seq<bv8>, b: bv8)
    ensures MessageBits(m + [b]) == MessageBits(m) + ByteBits(b)
  {
    assert (m + [b])[..|m|] == m;
  }

  lemma Regroup(a: seq<bool>, b: seq<bool>, c: seq<bool>)
    ensures (a + b) + c == a + (b + c)
  {
  }

  /** Changing one byte of a message, whatever stands around it, changes its CRC. */
  lemma ByteErrorChangesCrc(start: bv16, before: seq<bv8>, x: bv8, y: bv8, after: seq<bv8>)
    requires x != y
    ensures Serial16(start, MessageBits(before + [x] + after)) != Serial16(start, MessageBits(before + [y] + after))
  {
    var c := Serial16(start, MessageBits(before));
    forall b: bv8 ensures Serial16(start, MessageBits(before + [b] + after))
                          == Serial16(Serial16(c, ByteBits(b)), MessageBits(after)) {
      MessageBitsAppend(before + [b], after);
      NextByte(before + [b], |before|);
      assert (before + [b])[..|before|] == before && (before + [b])[..|before| + 1] == before + [b];
      FeedBitsAppend(ShiftIn16, start, MessageBits(before + [b]), MessageBits(after));
      FeedBitsAppend(ShiftIn16, start, MessageBits(before), ByteBits(b));
    }
    ByteChangesRegister(c, x, y);
    Serial16Injective(Serial16(c, ByteBits(x)), Serial16(c, ByteBits(y)), MessageBits(after));
  }

  /** So the check that accepts a message refuses it with any one byte of message or CRC changed. */
  lemma CheckRefusesByteError(start: bv16, before: seq<bv8>, x: bv8, y: bv8, after: seq<bv8>,
                              inverted: seq<bv8>, other: seq<bv8>)
    requires IsComplement(inverted, Serial16(start, MessageBits(before + [x] + after)))
    ensures x != y ==> !IsComplement(inverted, Serial16(start, MessageBits(before + [y] + after)))
    ensures other != inverted ==> !IsComplement(other, Serial16(start, MessageBits(before + [x] + after)))
  {
    var c := Serial16(start, MessageBits(before + [x] + after));
    if x != y {
      ByteErrorChangesCrc(start, before, x, y, after);
      ComplementDetermines(inverted, c, Serial16(start, MessageBits(before + [y] + after)));
    }
    if IsComplement(other, c) {
      ComplementUnique(inverted[0], other[0]);
      ComplementUnique(inverted[1], other[1]);
    }
  }

  lemma ComplementDetermines(inverted: seq<bv8>, c: bv16, d: bv16)
    requires IsComplement(inverted, c) && c != d
    ensures !IsComplement(inverted, d)
  {
    assert !c & 0xFF == !d & 0xFF && !c >> 8 == !d >> 8 ==> c == d;
  }

  lemma ComplementUnique(a: bv8, b: bv8)
    requires a as bv16 == b as bv16
    ensures a == b
  {
  }
}
