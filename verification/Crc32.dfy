/**
 The reflected CRC-32 that guards every record of the log and the snapshot
 (section 8 of RFC 1952), bit by bit over a 32-bit register, and the proof that
 it detects every error burst of at most 32 bits.
 */
module Crc32 {
  import opened Bytes
  import opened ShiftRegister

  const POLYNOMIAL: bv32 := 0xEDB88320
  const INITIAL: bv32 := 0xFFFFFFFF

  /** One turn of the register: the low bit falls out and feeds back the polynomial. */
  function Step(c: bv32): bv32 {
    if c & 1 == 1 then (c >> 1) ^ POLYNOMIAL else c >> 1
  }

  function Xor(a: bv32, b: bv32): bv32 { a ^ b }

  function And(a: bv32, b: bv32): bv32 { a & b }

  function ShiftUp(a: bv32): bv32 { a << 1 }

  predicate IsOdd(a: bv32) { a & 1 == 1 }

  /** The mask of the bits at position n and above. */
  function Above(n: nat): bv32 {
    if n == 0 then 0xFFFFFFFF else ShiftUp(Above(n - 1))
  }

  predicate Fits(a: bv32, n: nat) { And(a, Above(n)) == 0 }

  /** The register as a linear feedback shift register. */
  const CRC: Register<bv32> := Register(32, 0, 1, Xor, Step, ShiftUp, IsOdd, Fits)

  /** The n lowest binary digits of a number, the lowest first. */
  function Digits(v: nat, n: nat): (s: seq<bool>)
    ensures |s| == n
    decreases n
  {
    if n == 0 then [] else [v % 2 == 1] + Digits(v / 2, n - 1)
  }

  /** The bits of a byte in the order the reflected register meets them. */
  function ByteBits(b: byte): (s: seq<bool>)
    ensures |s| == 8
  {
    Digits(b, 8)
  }

  /** The byte as a 32-bit word with the same binary digits. */
  function Widen(b: byte): bv32 {
    Word(CRC, ByteBits(b))
  }

  function Bits(data: seq<byte>): seq<bool> {
    Flatten(ByteBits, data)
  }

  function Complement(c: bv32): u32 {
    (!c) as int
  }

  function Crc(data: seq<byte>): u32 {
    Complement(Absorb(CRC, Widen, 8, INITIAL, data))
  }

  method ComputeByte(start: bv32, word: bv32) returns (crc: bv32)
    ensures crc == Turns(CRC, CRC.mix(start, word), 8)
  {
    crc := start ^ word;
    ghost var entered := crc;
    for i := 0 to 8
      invariant Turns(CRC, crc, 8 - i) == Turns(CRC, entered, 8)
    {
      ghost var before := crc;
      crc := if crc & 1 == 1 then (crc >> 1) ^ POLYNOMIAL else crc >> 1;
      assert crc == CRC.turn(before);
    }
  }

  method AbsorbAll(data: seq<byte>) returns (crc: bv32)
    ensures crc == Absorb(CRC, Widen, 8, INITIAL, data)
  {
    crc := INITIAL;
    for k := 0 to |data|
      invariant Absorb(CRC, Widen, 8, crc, data[k..]) == Absorb(CRC, Widen, 8, INITIAL, data)
    {
      assert data[k..][0] == data[k] && data[k..][1..] == data[k + 1..];
      crc := ComputeByte(crc, Widen(data[k]));
    }
  }

  method ComputeCrc32(data: seq<byte>) returns (checksum: u32)
    ensures checksum == Crc(data)
  {
    var crc := AbsorbAll(data);
    checksum := Complement(crc);
  }

  // ---------- The laws of the register ----------

  /** The bits of `small` are among the bits of `large`. */
  predicate Within(small: bv32, large: bv32) { small & !large == 0 }

  predicate HasTop(a: bv32) { a & 0x80000000 == 0x80000000 }

  lemma ShiftWithin(x: bv32, y: bv32, up: bv32, vp: bv32)
    requires Within(x, y)
    requires up == x << 1 && vp == y << 1
    ensures Within(up, vp)
  {
  }

  lemma {:induction false} AboveShrinks(n: nat)
    ensures Within(Above(n + 1), Above(n))
  {
    if n != 0 {
      AboveShrinks(n - 1);
      ShiftWithin(Above(n), Above(n - 1), ShiftUp(Above(n)), ShiftUp(Above(n - 1)));
    }
  }

  lemma AboveThirtyOne()
    ensures Above(31) == 0x80000000
  {
    assert Above(4) == 0xFFFFFFF0;
    assert Above(8) == 0xFFFFFF00;
    assert Above(12) == 0xFFFFF000;
    assert Above(16) == 0xFFFF0000;
    assert Above(20) == 0xFFF00000;
    assert Above(24) == 0xFF000000;
    assert Above(28) == 0xF0000000;
  }

  lemma TopInherited(small: bv32, large: bv32)
    requires Within(small, large) && HasTop(small)
    ensures HasTop(large)
  {
  }

  lemma {:induction false} AboveTop(n: nat)
    requires n <= 31
    ensures HasTop(Above(n))
    decreases 31 - n
  {
    if n == 31 {
      AboveThirtyOne();
    } else {
      AboveTop(n + 1);
      AboveShrinks(n);
      TopInherited(Above(n + 1), Above(n));
    }
  }

  lemma MaskPush(bit: bv32, x: bv32, mask: bv32, next: bv32, up: bv32, pushed: bv32, under: bv32, out: bv32)
    requires bit <= 1
    requires under == x & mask && under == 0 && next == mask << 1
    requires up == x << 1 && pushed == bit ^ up && out == pushed & next
    ensures out == 0
  {
  }

  lemma MaskReturn(x: bv32, mask: bv32, under: bv32, pushed: bv32)
    requires under == x & mask && under == 0
    requires HasTop(mask)
    requires pushed == x << 1
    ensures pushed & 1 == 0 && pushed >> 1 == x
  {
  }

  lemma PushLow(w: bv32, bit: bool, pushed: bv32)
    requires pushed == (if bit then 1 else 0) ^ (w << 1)
    ensures pushed & 1 == 1 <==> bit
  {
  }

  lemma BothOdd(x: bv32, y: bv32)
    requires x & 1 == 1 && y & 1 == 1
    ensures (x ^ y) & 1 == 0 && (x ^ y) >> 1 == ((x >> 1) ^ POLYNOMIAL) ^ ((y >> 1) ^ POLYNOMIAL)
  {
  }

  lemma FirstOdd(x: bv32, y: bv32)
    requires x & 1 == 1 && y & 1 == 0
    ensures (x ^ y) & 1 == 1 && ((x ^ y) >> 1) ^ POLYNOMIAL == ((x >> 1) ^ POLYNOMIAL) ^ (y >> 1)
  {
  }

  lemma SecondOdd(x: bv32, y: bv32)
    requires x & 1 == 0 && y & 1 == 1
    ensures (x ^ y) & 1 == 1 && ((x ^ y) >> 1) ^ POLYNOMIAL == (x >> 1) ^ ((y >> 1) ^ POLYNOMIAL)
  {
  }

  lemma BothEven(x: bv32, y: bv32)
    requires x & 1 == 0 && y & 1 == 0
    ensures (x ^ y) & 1 == 0 && (x ^ y) >> 1 == (x >> 1) ^ (y >> 1)
  {
  }

  lemma Parity(x: bv32)
    ensures x & 1 == 0 || x & 1 == 1
  {
  }

  lemma StepBothOdd(x: bv32, y: bv32, sum: bv32)
    requires x & 1 == 1 && y & 1 == 1 && sum == x ^ y
    ensures Step(sum) == Step(x) ^ Step(y)
  {
    BothOdd(x, y);
  }

  lemma StepFirstOdd(x: bv32, y: bv32, sum: bv32)
    requires x & 1 == 1 && y & 1 == 0 && sum == x ^ y
    ensures Step(sum) == Step(x) ^ Step(y)
  {
    FirstOdd(x, y);
  }

  lemma StepSecondOdd(x: bv32, y: bv32, sum: bv32)
    requires x & 1 == 0 && y & 1 == 1 && sum == x ^ y
    ensures Step(sum) == Step(x) ^ Step(y)
  {
    SecondOdd(x, y);
  }

  lemma StepBothEven(x: bv32, y: bv32, sum: bv32)
    requires x & 1 == 0 && y & 1 == 0 && sum == x ^ y
    ensures Step(sum) == Step(x) ^ Step(y)
  {
    BothEven(x, y);
  }

  /** The step is additive over exclusive or. */
  lemma StepXor(x: bv32, y: bv32, sum: bv32)
    requires sum == x ^ y
    ensures Step(sum) == Step(x) ^ Step(y)
  {
    Parity(x);
    Parity(y);
    if x & 1 == 1 && y & 1 == 1 {
      StepBothOdd(x, y, sum);
    } else if x & 1 == 1 {
      StepFirstOdd(x, y, sum);
    } else if y & 1 == 1 {
      StepSecondOdd(x, y, sum);
    } else {
      StepBothEven(x, y, sum);
    }
  }

  /** The polynomial's top bit tells whether the bit that fell out was set. */
  lemma StepInjective(x: bv32, y: bv32)
    requires Step(x) == Step(y)
    ensures x == y
  {
  }

  lemma XorAssociative(x: bv32, y: bv32, z: bv32)
    ensures x ^ (y ^ z) == (x ^ y) ^ z
  {
  }

  lemma XorRegroups(x: bv32, y: bv32, z: bv32, xy: bv32, yz: bv32)
    requires xy == x ^ y && yz == y ^ z
    ensures x ^ yz == xy ^ z
  {
    XorAssociative(x, y, z);
  }

  lemma XorCancels(x: bv32, y: bv32, z: bv32)
    requires x ^ z == y ^ z || z ^ x == z ^ y
    ensures x == y
  {
  }

  lemma CrcAssociative()
    ensures Associative(CRC)
  {
    forall x, y, z ensures CRC.mix(x, CRC.mix(y, z)) == CRC.mix(CRC.mix(x, y), z) {
      XorRegroups(x, y, z, CRC.mix(x, y), CRC.mix(y, z));
    }
  }

  lemma CrcCancels()
    ensures CancelsRight(CRC) && CancelsLeft(CRC)
  {
    forall x, y, z | CRC.mix(x, z) == CRC.mix(y, z) ensures x == y { XorCancels(x, y, z); }
    forall x, y, z | CRC.mix(z, x) == CRC.mix(z, y) ensures x == y { XorCancels(x, y, z); }
  }

  lemma CrcHasZero()
    ensures HasZero(CRC)
  {
  }

  lemma CrcTurnInjective()
    ensures TurnInjective(CRC)
  {
    forall x, y | CRC.turn(x) == CRC.turn(y) ensures x == y { StepInjective(x, y); }
  }

  lemma StepOfXor(x: bv32, y: bv32)
    ensures Step(Xor(x, y)) == Xor(Step(x), Step(y))
  {
    StepXor(x, y, Xor(x, y));
  }

  lemma CrcTurnAdditive()
    ensures TurnAdditive(CRC)
  {
    forall x, y ensures CRC.turn(CRC.mix(x, y)) == CRC.mix(CRC.turn(x), CRC.turn(y)) { StepOfXor(x, y); }
  }

  lemma CrcLowBitReadable()
    ensures LowBitReadable(CRC)
  {
    forall b, x ensures CRC.low(CRC.mix(One(CRC, b), CRC.push(x))) == b {
      PushLow(x, b, CRC.mix(One(CRC, b), CRC.push(x)));
    }
  }

  lemma PushUnderMask(bit: bv32, x: bv32, mask: bv32, next: bv32, pushed: bv32)
    requires bit <= 1
    requires And(x, mask) == 0 && next == ShiftUp(mask) && pushed == Xor(bit, ShiftUp(x))
    ensures And(pushed, next) == 0
  {
    MaskPush(bit, x, mask, next, ShiftUp(x), pushed, And(x, mask), And(pushed, next));
  }

  lemma FitsGrows(bit: bool, x: bv32, n: nat)
    requires Fits(x, n)
    ensures Fits(Xor(if bit then 1 else 0, ShiftUp(x)), n + 1)
  {
    PushUnderMask(if bit then 1 else 0, x, Above(n), Above(n + 1), Xor(if bit then 1 else 0, ShiftUp(x)));
  }

  lemma CrcPushGrows()
    ensures PushGrows(CRC)
  {
    forall b, x, n: nat | CRC.fits(x, n) ensures CRC.fits(CRC.mix(One(CRC, b), CRC.push(x)), n + 1) {
      FitsGrows(b, x, n);
    }
  }

  lemma StepUnderMask(x: bv32, mask: bv32)
    requires And(x, mask) == 0 && HasTop(mask)
    ensures Step(ShiftUp(x)) == x
  {
    MaskReturn(x, mask, And(x, mask), ShiftUp(x));
  }

  lemma StepUndoesShift(x: bv32, n: nat)
    requires Fits(x, n) && n < 32
    ensures Step(ShiftUp(x)) == x
  {
    AboveTop(n);
    StepUnderMask(x, Above(n));
  }

  lemma CrcTurnUndoesPush()
    ensures TurnUndoesPush(CRC)
  {
    forall x, n: nat | CRC.fits(x, n) && n < 32 ensures CRC.turn(CRC.push(x)) == x { StepUndoesShift(x, n); }
  }

  lemma CrcIsLawful()
    ensures Lawful(CRC)
  {
    CrcAssociative();
    CrcCancels();
    CrcHasZero();
    CrcTurnInjective();
    CrcTurnAdditive();
    CrcLowBitReadable();
    CrcPushGrows();
    CrcTurnUndoesPush();
  }

  // ---------- Bytes and bits agree ----------

  function Power(n: nat): nat {
    if n == 0 then 1 else 2 * Power(n - 1)
  }

  lemma {:induction false} DigitsInjective(v: nat, w: nat, n: nat)
    requires v < Power(n) && w < Power(n)
    requires Digits(v, n) == Digits(w, n)
    ensures v == w
    decreases n
  {
    if n != 0 {
      assert Digits(v, n)[0] == Digits(w, n)[0];
      assert Digits(v, n)[1..] == Digits(v / 2, n - 1);
      assert Digits(w, n)[1..] == Digits(w / 2, n - 1);
      DigitsInjective(v / 2, w / 2, n - 1);
    }
  }

  lemma ByteBitsInjective(a: byte, b: byte)
    requires ByteBits(a) == ByteBits(b)
    ensures a == b
  {
    assert Power(8) == 256;
    DigitsInjective(a, b, 8);
  }

  lemma WordAsInt(a: bv32)
    ensures (a as int) as bv32 == a
  {
  }

  lemma AsIntInjective(a: bv32, b: bv32)
    requires a as int == b as int
    ensures a == b
  {
    WordAsInt(a);
    WordAsInt(b);
  }

  lemma NotInjective(a: bv32, b: bv32)
    requires !a == !b
    ensures a == b
  {
  }

  lemma ComplementInjective(a: bv32, b: bv32)
    requires Complement(a) == Complement(b)
    ensures a == b
  {
    AsIntInjective(!a, !b);
    NotInjective(a, b);
  }

  /** The byte-wise register of the code is the bit-serial register over the message bits. */
  lemma CrcReadsBits(data: seq<byte>)
    ensures Absorb(CRC, Widen, 8, INITIAL, data) == Feed(CRC, INITIAL, Bits(data))
  {
    CrcIsLawful();
    AbsorbIsFeed(CRC, Widen, ByteBits, 8, INITIAL, data);
  }

  lemma BitsInjective(x: seq<byte>, y: seq<byte>)
    requires |x| == |y| && Bits(x) == Bits(y)
    ensures x == y
  {
    forall a: byte, b: byte | ByteBits(a) == ByteBits(b) ensures a == b { ByteBitsInjective(a, b); }
    FlattenInjective(ByteBits, 8, x, y);
  }

  // ---------- Error detection ----------

  /** Two equal-length messages whose bits agree outside one window of 32 bits. */
  ghost predicate BurstApart(x: seq<byte>, y: seq<byte>, k: nat) {
    && |x| == |y| && |Bits(x)| == |Bits(y)|
    && forall i :: 0 <= i < |Bits(x)| && !(k <= i < k + 32) ==> Bits(x)[i] == Bits(y)[i]
  }

  /** Every error burst of at most 32 bits, wherever it starts, changes the checksum. */
  lemma DetectsBurst(x: seq<byte>, y: seq<byte>, k: nat)
    requires BurstApart(x, y, k)
    ensures Crc(x) == Crc(y) <==> x == y
  {
    if Crc(x) == Crc(y) {
      ComplementInjective(Absorb(CRC, Widen, 8, INITIAL, x), Absorb(CRC, Widen, 8, INITIAL, y));
      CrcReadsBits(x);
      CrcReadsBits(y);
      CrcIsLawful();
      WindowDetected(CRC, INITIAL, Bits(x), Bits(y), k);
      BitsInjective(x, y);
    }
  }

  lemma BitsOfThree(prefix: seq<byte>, x: seq<byte>, suffix: seq<byte>)
    ensures Bits(prefix + x + suffix) == Bits(prefix) + Bits(x) + Bits(suffix)
    ensures |Bits(prefix)| == 8 * |prefix| && |Bits(x)| == 8 * |x|
  {
    FlattenConcat(ByteBits, prefix + x, suffix);
    FlattenConcat(ByteBits, prefix, x);
    FlattenLength(ByteBits, 8, prefix);
    FlattenLength(ByteBits, 8, x);
  }

  /** In particular, damage confined to four neighbouring bytes is always noticed. */
  lemma DetectsFourBytes(prefix: seq<byte>, x: seq<byte>, y: seq<byte>, suffix: seq<byte>)
    requires |x| == |y| <= 4 && x != y
    ensures Crc(prefix + x + suffix) != Crc(prefix + y + suffix)
  {
    var m, n := prefix + x + suffix, prefix + y + suffix;
    BitsOfThree(prefix, x, suffix);
    BitsOfThree(prefix, y, suffix);
    assert BurstApart(m, n, 8 * |prefix|);
    DetectsBurst(m, n, 8 * |prefix|);
    assert m[|prefix|..|prefix| + |x|] == x && n[|prefix|..|prefix| + |x|] == y;
  }

  // ---------- The loaded word is the byte ----------

  lemma HighBitClear(y: bv8)
    requires y as int < 128
    ensures y & 0x80 == 0
  {
  }

  lemma DoubleByte(y: bv8, up: bv8)
    requires y & 0x80 == 0 && up == y << 1
    ensures up as int == 2 * (y as int) && up & 1 == 0
  {
  }

  lemma SetLow(up: bv8, bit: bool, out: bv8)
    requires up & 1 == 0 && out == up ^ (if bit then 1 else 0)
    ensures out as int == up as int + if bit then 1 else 0
  {
  }

  lemma WidenPush(y: bv8, bit: bool, out: bv8, x: bv32)
    requires y & 0x80 == 0 && out == (y << 1) ^ (if bit then 1 else 0) && x == y as bv32
    ensures (if bit then 1 else 0) ^ (x << 1) == out as bv32
  {
  }

  lemma PushByte(y: bv8, bit: bool, x: bv32) returns (out: bv8)
    requires y as int < 128 && x == y as bv32
    ensures out as int == 2 * (y as int) + if bit then 1 else 0
    ensures Xor(if bit then 1 else 0, ShiftUp(x)) == out as bv32
  {
    HighBitClear(y);
    DoubleByte(y, y << 1);
    out := (y << 1) ^ (if bit then 1 else 0);
    SetLow(y << 1, bit, out);
    WidenPush(y, bit, out, x);
  }

  lemma {:induction false} WordIsNumber(v: nat, n: nat) returns (y: bv8)
    requires v < Power(n) && n <= 8
    ensures Word(CRC, Digits(v, n)) == y as bv32 && y as int == v
    decreases n
  {
    if n == 0 {
      y := 0;
    } else {
      PowerUpTo(n - 1);
      var half := WordIsNumber(v / 2, n - 1);
      assert Digits(v, n)[1..] == Digits(v / 2, n - 1);
      y := PushByte(half, v % 2 == 1, half as bv32);
    }
  }

  lemma {:induction false} PowerUpTo(n: nat)
    requires n <= 7
    ensures Power(n) <= 128
  {
    assert Power(7) == 128;
    PowerGrows(n, 7);
  }

  lemma {:induction false} PowerGrows(m: nat, n: nat)
    requires m <= n
    ensures Power(m) <= Power(n)
    decreases n - m
  {
    if m < n {
      PowerGrows(m + 1, n);
    }
  }

  lemma ByteAsWord(y: bv8)
    ensures (y as bv32) as int == y as int
  {
  }

  /** The word that is mixed in for a byte is the byte's own value: what the cast and the exclusive or of the code do. */
  lemma WidenIsByte(b: byte)
    ensures Widen(b) as int == b
  {
    assert Power(8) == 256;
    var y := WordIsNumber(b, 8);
    ByteAsWord(y);
  }

  // ---------- A known value ----------

  /** The letter 'a' is loaded as the number 97. */
  lemma WidenLetter()
    ensures Widen(97) == 97
  {
    WidenIsByte(97);
    AsIntInjective(Widen(97), 97);
  }

  lemma TurnedValues()
    ensures Step(0xFFFFFF9E) == 0x7FFFFFCF && Step(0x7FFFFFCF) == 0xD2477CC7
    ensures Step(0xD2477CC7) == 0x849B3D43 && Step(0x849B3D43) == 0xAFF51D81
    ensures Step(0xAFF51D81) == 0xBA420DE0 && Step(0xBA420DE0) == 0x5D2106F0
    ensures Step(0x5D2106F0) == 0x2E908378 && Step(0x2E908378) == 0x174841BC
  {
  }

  lemma TurnOnce(c: bv32, n: nat)
    ensures Turns(CRC, c, n + 1) == Turns(CRC, Step(c), n)
  {
  }

  lemma TurnsOfLetter()
    ensures Turns(CRC, 0xFFFFFF9E, 8) == 0x174841BC
  {
    TurnedValues();
    TurnOnce(0xFFFFFF9E, 7);
    TurnOnce(0x7FFFFFCF, 6);
    TurnOnce(0xD2477CC7, 5);
    TurnOnce(0x849B3D43, 4);
    TurnOnce(0xAFF51D81, 3);
    TurnOnce(0xBA420DE0, 2);
    TurnOnce(0x5D2106F0, 1);
    TurnOnce(0x2E908378, 0);
  }

  lemma EndValues()
    ensures Xor(INITIAL, 97) == 0xFFFFFF9E && Complement(0x174841BC) == 0xE8B7BE43
  {
  }

  /** Polynomial, start value, bit order and final complement are those of the standard: its checksum of "a". */
  lemma ChecksumOfLetter()
    ensures Crc([97]) == 0xE8B7BE43
  {
    var data: seq<byte> := [97];
    WidenLetter();
    EndValues();
    TurnsOfLetter();
    assert data[1..] == [];
    assert Absorb(CRC, Widen, 8, INITIAL, data) == 0x174841BC;
  }
}
