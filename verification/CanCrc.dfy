/**
 * The CRC-15 of CAN frames (Bosch CAN Specification 2.0, CRC sequence): the
 * table-driven computation of canframelen.c against the bit-serial register.
 */
module CanCrc {
  import opened Bytes
  import opened CanBits

  // ---- The register of fifteen flip-flops ----

  /** The flip-flops, most significant first. */
  type Register = s: seq<bool> | |s| == 15 witness seq(15, _ => false)

  function Zeros(n: nat): (s: seq<bool>)
    ensures |s| == n && forall i :: 0 <= i < n ==> !s[i]
  {
    seq(n, _ => false)
  }

  function Plus(x: Register, y: Register): (r: Register)
    ensures forall i :: 0 <= i < 15 ==> r[i] == (x[i] != y[i])
  {
    seq(15, i requires 0 <= i < 15 => x[i] != y[i])
  }

  /** The generator polynomial 0x4599 without its leading term. */
  const POLYNOMIAL: Register :=
    [true, false, false, false, true, false, true, true, false, false, true, true, false, false,
     true]

  function Up(x: Register): Register {
    x[1..] + [false]
  }

  /** One clock of the CRC register with the next bit of the frame. */
  function Clock(x: Register, bit: bool): Register {
    if x[0] != bit then Plus(Up(x), POLYNOMIAL) else Up(x)
  }

  const RESET: Register := Zeros(15)

  /** The register after `bits`, starting from `x`. */
  ghost function CrcOf(x: Register, bits: seq<bool>): Register
    decreases |bits|
  {
    if bits == [] then x else CrcOf(Clock(x, bits[0]), bits[1..])
  }

  lemma {:induction false} CrcJoin(x: Register, a: seq<bool>, b: seq<bool>)
    ensures CrcOf(x, a + b) == CrcOf(CrcOf(x, a), b)
    decreases |a|
  {
    if a == [] {
      assert a + b == b;
    } else {
      assert (a + b)[1..] == a[1..] + b;
      CrcJoin(Clock(x, a[0]), a[1..], b);
    }
  }

  // ---- Several clocks at once ----

  ghost function Clocks(x: Register, n: nat): Register
    decreases n
  {
    if n == 0 then x else Clocks(Clock(x, false), n - 1)
  }

  lemma ClockLinear(x: Register, y: Register)
    ensures Clock(Plus(x, y), false) == Plus(Clock(x, false), Clock(y, false))
  {
  }

  lemma {:induction false} ClocksLinear(x: Register, y: Register, n: nat)
    ensures Clocks(Plus(x, y), n) == Plus(Clocks(x, n), Clocks(y, n))
    decreases n
  {
    if n > 0 {
      ClockLinear(x, y);
      ClocksLinear(Clock(x, false), Clock(y, false), n - 1);
    }
  }

  /** Feeding one bit from the top of `data` is a clock with `data` added. */
  lemma FeedOne(x: Register, data: Register)
    ensures Plus(Clock(x, data[0]), Up(data)) == Clock(Plus(x, data), false)
  {
  }

  /** Feeding bits is clocking a register to which they have been added. */
  lemma {:induction false} FeedMany(x: Register, data: Register, n: nat)
    requires n <= 15
    ensures Plus(CrcOf(x, data[..n]), data[n..] + Zeros(n)) == Clocks(Plus(x, data), n)
    decreases n
  {
    if n == 0 {
      assert data[0..] + Zeros(0) == data;
    } else {
      FeedOne(x, data);
      FeedMany(Clock(x, data[0]), Up(data), n - 1);
      assert data[..n][1..] == Up(data)[..n - 1];
      assert Up(data)[n - 1..] + Zeros(n - 1) == data[n..] + Zeros(n);
    }
  }

  /** A byte fed bit by bit. */
  lemma ByteCrc(x: Register, d: bv8)
    ensures CrcOf(x, ByteBits(d)) == Clocks(Plus(x, ByteBits(d) + Zeros(7)), 8)
  {
    var data := ByteBits(d) + Zeros(7);
    FeedMany(x, data, 8);
    assert data[..8] == ByteBits(d);
    var y := CrcOf(x, ByteBits(d));
    assert data[8..] + Zeros(8) == RESET;
    assert Plus(y, RESET) == y;
  }

  // ---- Words and the table ----

  /** The lookup table, sixteen entries a row. */
  function CrcTable(i: bv16): bv16 {
    Pick(i >> 4,
         Pick(i & 0xf, 0x0000, 0x4599, 0x4eab, 0x0b32, 0x58cf, 0x1d56, 0x1664, 0x53fd, 0x7407, 0x319e, 0x3aac, 0x7f35, 0x2cc8, 0x6951, 0x6263, 0x27fa),
         Pick(i & 0xf, 0x2d97, 0x680e, 0x633c, 0x26a5, 0x7558, 0x30c1, 0x3bf3, 0x7e6a, 0x5990, 0x1c09, 0x173b, 0x52a2, 0x015f, 0x44c6, 0x4ff4, 0x0a6d),
         Pick(i & 0xf, 0x5b2e, 0x1eb7, 0x1585, 0x501c, 0x03e1, 0x4678, 0x4d4a, 0x08d3, 0x2f29, 0x6ab0, 0x6182, 0x241b, 0x77e6, 0x327f, 0x394d, 0x7cd4),
         Pick(i & 0xf, 0x76b9, 0x3320, 0x3812, 0x7d8b, 0x2e76, 0x6bef, 0x60dd, 0x2544, 0x02be, 0x4727, 0x4c15, 0x098c, 0x5a71, 0x1fe8, 0x14da, 0x5143),
         Pick(i & 0xf, 0x73c5, 0x365c, 0x3d6e, 0x78f7, 0x2b0a, 0x6e93, 0x65a1, 0x2038, 0x07c2, 0x425b, 0x4969, 0x0cf0, 0x5f0d, 0x1a94, 0x11a6, 0x543f),
         Pick(i & 0xf, 0x5e52, 0x1bcb, 0x10f9, 0x5560, 0x069d, 0x4304, 0x4836, 0x0daf, 0x2a55, 0x6fcc, 0x64fe, 0x2167, 0x729a, 0x3703, 0x3c31, 0x79a8),
         Pick(i & 0xf, 0x28eb, 0x6d72, 0x6640, 0x23d9, 0x7024, 0x35bd, 0x3e8f, 0x7b16, 0x5cec, 0x1975, 0x1247, 0x57de, 0x0423, 0x41ba, 0x4a88, 0x0f11),
         Pick(i & 0xf, 0x057c, 0x40e5, 0x4bd7, 0x0e4e, 0x5db3, 0x182a, 0x1318, 0x5681, 0x717b, 0x34e2, 0x3fd0, 0x7a49, 0x29b4, 0x6c2d, 0x671f, 0x2286),
         Pick(i & 0xf, 0x2213, 0x678a, 0x6cb8, 0x2921, 0x7adc, 0x3f45, 0x3477, 0x71ee, 0x5614, 0x138d, 0x18bf, 0x5d26, 0x0edb, 0x4b42, 0x4070, 0x05e9),
         Pick(i & 0xf, 0x0f84, 0x4a1d, 0x412f, 0x04b6, 0x574b, 0x12d2, 0x19e0, 0x5c79, 0x7b83, 0x3e1a, 0x3528, 0x70b1, 0x234c, 0x66d5, 0x6de7, 0x287e),
         Pick(i & 0xf, 0x793d, 0x3ca4, 0x3796, 0x720f, 0x21f2, 0x646b, 0x6f59, 0x2ac0, 0x0d3a, 0x48a3, 0x4391, 0x0608, 0x55f5, 0x106c, 0x1b5e, 0x5ec7),
         Pick(i & 0xf, 0x54aa, 0x1133, 0x1a01, 0x5f98, 0x0c65, 0x49fc, 0x42ce, 0x0757, 0x20ad, 0x6534, 0x6e06, 0x2b9f, 0x7862, 0x3dfb, 0x36c9, 0x7350),
         Pick(i & 0xf, 0x51d6, 0x144f, 0x1f7d, 0x5ae4, 0x0919, 0x4c80, 0x47b2, 0x022b, 0x25d1, 0x6048, 0x6b7a, 0x2ee3, 0x7d1e, 0x3887, 0x33b5, 0x762c),
         Pick(i & 0xf, 0x7c41, 0x39d8, 0x32ea, 0x7773, 0x248e, 0x6117, 0x6a25, 0x2fbc, 0x0846, 0x4ddf, 0x46ed, 0x0374, 0x5089, 0x1510, 0x1e22, 0x5bbb),
         Pick(i & 0xf, 0x0af8, 0x4f61, 0x4453, 0x01ca, 0x5237, 0x17ae, 0x1c9c, 0x5905, 0x7eff, 0x3b66, 0x3054, 0x75cd, 0x2630, 0x63a9, 0x689b, 0x2d02),
         Pick(i & 0xf, 0x276f, 0x62f6, 0x69c4, 0x2c5d, 0x7fa0, 0x3a39, 0x310b, 0x7492, 0x5368, 0x16f1, 0x1dc3, 0x585a, 0x0ba7, 0x4e3e, 0x450c, 0x0095))
  }

  /** One clock on words. */
  function CrcStep(crc: bv16, bit: bool): bv16 {
    if (crc & 0x4000 != 0) != bit then ((crc << 1) ^ 0x4599) & 0x7fff else (crc << 1) & 0x7fff
  }

  function Shift(x: bv16): bv16 {
    CrcStep(x, false)
  }

  function Shift8(x: bv16): bv16 {
    Shift(Shift(Shift(Shift(Shift(Shift(Shift(Shift(x))))))))
  }

  lemma TableEighth0(i: bv16)
    requires 0x0 <= i < 0x20
    ensures CrcTable(i) == Shift8(i << 7)
  {
  }

  lemma TableEighth1(i: bv16)
    requires 0x20 <= i < 0x40
    ensures CrcTable(i) == Shift8(i << 7)
  {
  }

  lemma TableEighth2(i: bv16)
    requires 0x40 <= i < 0x60
    ensures CrcTable(i) == Shift8(i << 7)
  {
  }

  lemma TableEighth3(i: bv16)
    requires 0x60 <= i < 0x80
    ensures CrcTable(i) == Shift8(i << 7)
  {
  }

  lemma TableEighth4(i: bv16)
    requires 0x80 <= i < 0xa0
    ensures CrcTable(i) == Shift8(i << 7)
  {
  }

  lemma TableEighth5(i: bv16)
    requires 0xa0 <= i < 0xc0
    ensures CrcTable(i) == Shift8(i << 7)
  {
  }

  lemma TableEighth6(i: bv16)
    requires 0xc0 <= i < 0xe0
    ensures CrcTable(i) == Shift8(i << 7)
  {
  }

  lemma TableEighth7(i: bv16)
    requires 0xe0 <= i < 0x100
    ensures CrcTable(i) == Shift8(i << 7)
  {
  }

  /** Every table entry is the word after eight clocks from its index. */
  lemma TableEntry(i: bv16)
    requires i < 0x100
    ensures CrcTable(i) == Shift8(i << 7)
  {
    if i < 0x20 {
      TableEighth0(i);
    } else if i < 0x40 {
      TableEighth1(i);
    } else if i < 0x60 {
      TableEighth2(i);
    } else if i < 0x80 {
      TableEighth3(i);
    } else if i < 0xa0 {
      TableEighth4(i);
    } else if i < 0xc0 {
      TableEighth5(i);
    } else if i < 0xe0 {
      TableEighth6(i);
    } else {
      TableEighth7(i);
    }
  }

  // ---- The register as the low fifteen bits of a word ----

  predicate Top(x: bv16) {
    x & 0x4000 != 0
  }

  function UpWord(x: bv16): bv16 {
    (x << 1) & 0x7fff
  }

  /** Bit `i` of the low fifteen bits, most significant first. */
  predicate WordBit(x: bv16, i: nat)
    decreases i
  {
    if i == 0 then Top(x) else WordBit(UpWord(x), i - 1)
  }

  function Load(x: bv16): (r: Register)
    ensures forall i :: 0 <= i < 15 ==> r[i] == WordBit(x, i)
  {
    seq(15, i requires 0 <= i < 15 => WordBit(x, i))
  }

  lemma MaskWord(x: bv16)
    ensures Top(x & 0x7fff) == Top(x) && UpWord(x & 0x7fff) == UpWord(x)
  {
  }

  lemma MaskBit(x: bv16, i: nat)
    ensures WordBit(x & 0x7fff, i) == WordBit(x, i)
  {
    MaskWord(x);
  }

  lemma LoadMask(x: bv16)
    ensures Load(x & 0x7fff) == Load(x)
  {
    forall i: nat | i < 15 ensures Load(x & 0x7fff)[i] == Load(x)[i] {
      MaskBit(x, i);
    }
  }

  lemma XorTop(x: bv16, y: bv16)
    ensures Top(x ^ y) == (Top(x) != Top(y))
  {
  }

  lemma XorUp(x: bv16, y: bv16)
    ensures UpWord(x ^ y) == UpWord(x) ^ UpWord(y)
  {
  }

  /** Bit i of z is the sum of those of x and y, for every sum found by shifting. */
  lemma {:induction false} SumBit(x: bv16, y: bv16, i: nat) returns (z: bv16)
    ensures z == x ^ y && WordBit(z, i) == (WordBit(x, i) != WordBit(y, i))
    decreases i
  {
    z := x ^ y;
    if i == 0 {
      XorTop(x, y);
    } else {
      XorUp(x, y);
      var z' := SumBit(UpWord(x), UpWord(y), i - 1);
      assert z' == UpWord(z);
    }
  }

  lemma LoadPlus(x: bv16, y: bv16)
    ensures Load(x ^ y) == Plus(Load(x), Load(y))
  {
    forall i: nat | i < 15 ensures Load(x ^ y)[i] == Plus(Load(x), Load(y))[i] {
      var _ := SumBit(x, y, i);
    }
  }

  lemma ThreeUp(x: bv16)
    ensures UpWord(UpWord(UpWord(x))) == (x << 3) & 0x7fff
  {
  }

  lemma BitThreeOn(x: bv16, i: nat)
    ensures WordBit(x, i + 3) == WordBit((x << 3) & 0x7fff, i)
  {
    ThreeUp(x);
    assert WordBit(x, i + 3) == WordBit(UpWord(x), i + 2);
    assert WordBit(UpWord(x), i + 2) == WordBit(UpWord(UpWord(x)), i + 1);
  }

  lemma NoBitFifteen(x: bv16)
    ensures !WordBit(x, 15)
  {
    BitThreeOn(x, 12);
    BitThreeOn((x << 3) & 0x7fff, 9);
    BitThreeOn((x << 6) & 0x7fff, 6);
    BitThreeOn((x << 9) & 0x7fff, 3);
    BitThreeOn((x << 12) & 0x7fff, 0);
  }

  lemma LoadUp(x: bv16)
    ensures Load(x << 1) == Up(Load(x))
  {
    LoadMask(x << 1);
    forall i: nat | i < 15 ensures Load((x << 1) & 0x7fff)[i] == Up(Load(x))[i] {
      assert WordBit(x, i + 1) == WordBit(UpWord(x), i);
      if i == 14 {
        NoBitFifteen(x);
      }
    }
  }

  lemma LoadPolynomial()
    ensures Load(0x4599) == POLYNOMIAL
  {
    forall i: nat | i < 15 ensures Load(0x4599)[i] == POLYNOMIAL[i] {
      PolynomialBit(i);
    }
  }

  lemma PolynomialBit(i: nat)
    requires i < 15
    ensures WordBit(0x4599, i) == POLYNOMIAL[i]
  {
    var c, j := 0x4599, i;
    while j >= 3
      invariant 0 <= j <= i && (i - j) % 3 == 0 && WordBit(0x4599, i) == WordBit(c, j)
      invariant c == if i - j == 0 then 0x4599 else if i - j == 3 then 0x2cc8 else if i - j == 6 then 0x6640
                     else if i - j == 9 then 0x3200 else 0x1000
    {
      BitThreeOn(c, j - 3);
      c, j := (c << 3) & 0x7fff, j - 3;
    }
    LowBits(c, j);
  }

  lemma LoadMasked(x: bv16, r: Register)
    requires Load(x) == r
    ensures Load(x & 0x7fff) == r
  {
    LoadMask(x);
  }

  lemma LoadXor(x: bv16, y: bv16, r: Register, s: Register)
    requires Load(x) == r && Load(y) == s
    ensures Load(x ^ y) == Plus(r, s)
  {
    LoadPlus(x, y);
  }

  lemma FlipWord(y: bv16, r: Register)
    requires Load(y) == r
    ensures Load(y ^ 0x4599) == Plus(r, POLYNOMIAL)
  {
    LoadPolynomial();
    LoadXor(y, 0x4599, r, POLYNOMIAL);
  }

  lemma FlipMasked(y: bv16, r: Register)
    requires Load(y) == r
    ensures Load((y ^ 0x4599) & 0x7fff) == Plus(r, POLYNOMIAL)
  {
    FlipWord(y, r);
    LoadMasked(y ^ 0x4599, Plus(r, POLYNOMIAL));
  }

  lemma LoadFlip(x: bv16)
    ensures Load(((x << 1) ^ 0x4599) & 0x7fff) == Plus(Up(Load(x)), POLYNOMIAL)
  {
    LoadUp(x);
    FlipMasked(x << 1, Up(Load(x)));
  }

  lemma LoadKeep(x: bv16)
    ensures Load((x << 1) & 0x7fff) == Up(Load(x))
  {
    LoadUp(x);
    LoadMask(x << 1);
  }

  /** One clock on words is one clock of the register. */
  lemma LoadStep(x: bv16, bit: bool)
    ensures Load(CrcStep(x, bit)) == Clock(Load(x), bit)
  {
    LoadFlip(x);
    LoadKeep(x);
  }

  lemma {:induction false} ClocksTwo(x: bv16, n: nat)
    ensures Clocks(Load(x), n + 2) == Clocks(Load(Shift(Shift(x))), n)
  {
    LoadStep(x, false);
    LoadStep(Shift(x), false);
  }

  lemma LoadShifts(x: bv16)
    ensures Load(Shift8(x)) == Clocks(Load(x), 8)
  {
    var x2 := Shift(Shift(x));
    var x4 := Shift(Shift(x2));
    var x6 := Shift(Shift(x4));
    ClocksTwo(x, 6);
    ClocksTwo(x2, 4);
    ClocksTwo(x4, 2);
    ClocksTwo(x6, 0);
  }

  lemma LowSeven(lo: bv16)
    requires lo < 0x80
    ensures Shift8(lo) == lo << 8
  {
  }

  lemma ByteTops(d: bv8, x: bv16)
    requires x == (d as bv16) << 7
    ensures Top(x) == Bit(d, 0) && Top(UpWord(x)) == Bit(d, 1) && Top(UpWord(UpWord(x))) == Bit(d, 2)
    ensures var y := (x << 3) & 0x7fff;
            Top(y) == Bit(d, 3) && Top(UpWord(y)) == Bit(d, 4) && Top(UpWord(UpWord(y))) == Bit(d, 5)
    ensures var z := (((x << 3) & 0x7fff) << 3) & 0x7fff;
            Top(z) == Bit(d, 6) && Top(UpWord(z)) == Bit(d, 7) && UpWord(UpWord(z)) == 0
  {
  }

  lemma {:induction false} ZeroBit(i: nat)
    ensures !WordBit(0, i)
    decreases i
  {
    if i > 0 {
      ZeroBit(i - 1);
    }
  }

  lemma LowBits(x: bv16, i: nat)
    ensures i == 0 ==> WordBit(x, i) == Top(x)
    ensures i == 1 ==> WordBit(x, i) == Top(UpWord(x))
    ensures i == 2 ==> WordBit(x, i) == Top(UpWord(UpWord(x)))
    ensures i >= 2 && UpWord(UpWord(x)) == 0 ==> !WordBit(x, i)
  {
    if i >= 2 {
      assert WordBit(x, i) == WordBit(UpWord(UpWord(x)), i - 2);
      ZeroBit(i - 2);
    }
  }

  lemma ByteBit(d: bv8, x: bv16, i: nat)
    requires x == (d as bv16) << 7
    ensures WordBit(x, i) == (i < 8 && Bit(d, i))
  {
    ByteTops(d, x);
    if i < 3 {
      LowBits(x, i);
    } else {
      BitThreeOn(x, i - 3);
      var y := (x << 3) & 0x7fff;
      if i < 6 {
        LowBits(y, i - 3);
      } else {
        BitThreeOn(y, i - 6);
        LowBits((y << 3) & 0x7fff, i - 6);
      }
    }
  }

  lemma LoadByte(d: bv8)
    ensures Load((d as bv16) << 7) == ByteBits(d) + Zeros(7)
  {
    forall i: nat | i < 15 ensures Load((d as bv16) << 7)[i] == (ByteBits(d) + Zeros(7))[i] {
      ByteBit(d, (d as bv16) << 7, i);
    }
  }

  lemma TableIndex(crc: bv16, d: bv8)
    requires crc < 0x8000
    ensures ((crc >> 7) ^ (d as bv16)) & 0xff < 0x100
    ensures crc ^ ((d as bv16) << 7) == (((((crc >> 7) ^ (d as bv16)) & 0xff) << 7) ^ (crc & 0x7f))
  {
  }

  lemma TableResult(t: bv16, crc: bv16)
    requires t < 0x8000
    ensures (t ^ (crc << 8)) & 0x7fff == t ^ ((crc & 0x7f) << 8)
  {
  }

  lemma ShiftBound(x: bv16)
    ensures Shift8(x) < 0x8000
  {
  }

  lemma LowClocks(crc: bv16)
    ensures Load((crc & 0x7f) << 8) == Clocks(Load(crc & 0x7f), 8)
  {
    LowSeven(crc & 0x7f);
    LoadShifts(crc & 0x7f);
  }

  lemma TopClocks(i: bv16)
    requires i < 0x100
    ensures CrcTable(i) < 0x8000 && Load(CrcTable(i)) == Clocks(Load(i << 7), 8)
  {
    TableEntry(i);
    ShiftBound(i << 7);
    LoadShifts(i << 7);
  }

  /** Feeding a byte splits into clocks of the top and of the bottom of the register. */
  lemma FeedByte(crc: bv16, d: bv8, dw: bv16, top: bv16, low: bv16)
    requires Load(dw) == ByteBits(d) + Zeros(7) && crc ^ dw == top ^ low
    ensures CrcOf(Load(crc), ByteBits(d)) == Plus(Clocks(Load(top), 8), Clocks(Load(low), 8))
  {
    ByteCrc(Load(crc), d);
    LoadPlus(crc, dw);
    LoadPlus(top, low);
    ClocksLinear(Load(top), Load(low), 8);
  }

  lemma TableSum(crc: bv16, d: bv8, i: bv16)
    requires crc < 0x8000 && i == ((crc >> 7) ^ (d as bv16)) & 0xff
    ensures i < 0x100
    ensures CrcOf(Load(crc), ByteBits(d)) == Plus(Clocks(Load(i << 7), 8), Clocks(Load(crc & 0x7f), 8))
  {
    TableIndex(crc, d);
    LoadByte(d);
    FeedByte(crc, d, (d as bv16) << 7, i << 7, crc & 0x7f);
  }

  lemma TableFinish(t: bv16, crc: bv16, r: Register, s: Register)
    requires t < 0x8000 && Load(t) == r && Load((crc & 0x7f) << 8) == s
    ensures Load((t ^ (crc << 8)) & 0x7fff) == Plus(r, s)
  {
    TableResult(t, crc);
    LoadXor(t, (crc & 0x7f) << 8, r, s);
  }

  /** With a table entry `t` for index `i`, one lookup does the work of feeding a byte bit by bit. */
  lemma TableFeedsByte(crc: bv16, d: bv8, i: bv16, t: bv16)
    requires crc < 0x8000 && i == ((crc >> 7) ^ (d as bv16)) & 0xff
    requires t < 0x8000 && Load(t) == Clocks(Load(i << 7), 8)
    ensures Load((t ^ (crc << 8)) & 0x7fff) == CrcOf(Load(crc), ByteBits(d))
  {
    TableSum(crc, d, i);
    LowClocks(crc);
    TableFinish(t, crc, Clocks(Load(i << 7), 8), Clocks(Load(crc & 0x7f), 8));
  }

  // ---- The functions of canframelen.c ----

  /** Whole bytes by table. */
  method CrcUpdateBytewise(crc0: bv16, data: seq<bv8>) returns (crc: bv16)
    requires crc0 < 0x8000
    ensures crc < 0x8000 && Load(crc) == CrcOf(Load(crc0), BitsOf(data, 0, 8 * |data|))
  {
    crc := crc0;
    assert BitsOf(data, 0, 0) == [];
    for k := 0 to |data|
      invariant crc < 0x8000 && Load(crc) == CrcOf(Load(crc0), BitsOf(data, 0, 8 * k))
    {
      crc := ByteStep(crc, data[k]);
      BytePrefix(data, k);
      CrcJoin(Load(crc0), BitsOf(data, 0, 8 * k), ByteBits(data[k]));
    }
  }

  /** One byte by table. */
  method ByteStep(crc0: bv16, d: bv8) returns (crc: bv16)
    requires crc0 < 0x8000
    ensures crc < 0x8000 && Load(crc) == CrcOf(Load(crc0), ByteBits(d))
  {
    var idx := ((crc0 >> 7) ^ (d as bv16)) & 0xff;
    var t := Lookup(idx);
    TableFeedsByte(crc0, d, idx, t);
    crc := (t ^ (crc0 << 8)) & 0x7fff;
  }

  method Lookup(i: bv16) returns (t: bv16)
    requires i < 0x100
    ensures t < 0x8000 && Load(t) == Clocks(Load(i << 7), 8)
  {
    TopClocks(i);
    t := CrcTable(i);
  }

  lemma BytePrefix(data: seq<bv8>, k: nat)
    requires k < |data|
    ensures BitsOf(data, 0, 8 * (k + 1)) == BitsOf(data, 0, 8 * k) + ByteBits(data[k])
  {
    ByteAt(data, k);
    assert BitsOf(data, 0, 8 * (k + 1)) == BitsOf(data, 0, 8 * k) + BitsOf(data, 8 * k, 8 * k + 8);
  }

  /** The mask of bit `k`. */
  function BitMask(k: nat): bv8
    requires k <= 8
  {
    if k == 0 then 0x80 else if k == 1 then 0x40 else if k == 2 then 0x20 else if k == 3 then 0x10
    else if k == 4 then 0x08 else if k == 5 then 0x04 else if k == 6 then 0x02 else if k == 7 then 0x01 else 0
  }

  lemma BitMasks(data: bv8, k: nat)
    requires k < 8
    ensures BitMask(k) >> 1 == BitMask(k + 1)
    ensures (data & BitMask(k) != 0) == Bit(data, k)
  {
  }

  lemma CrcNext(x: Register, bits: seq<bool>, k: nat)
    requires k < |bits|
    ensures CrcOf(x, bits[..k + 1]) == Clock(CrcOf(x, bits[..k]), bits[k])
  {
    assert bits[..k + 1] == bits[..k] + [bits[k]];
    CrcJoin(x, bits[..k], [bits[k]]);
  }

  lemma LoadZero()
    ensures Load(0) == RESET
  {
    forall i: nat | i < 15 ensures Load(0)[i] == RESET[i] {
      ZeroBit(i);
    }
  }

  lemma TopIsFirst(x: bv16)
    ensures Load(x)[0] == Top(x)
  {
  }

  /** Shifts first and then adds the polynomial, without trimming the word. */
  method BitStep(crc0: bv16, next: bool) returns (crc: bv16)
    ensures Load(crc) == Clock(Load(crc0), next)
  {
    var bit := crc0 & 0x4000 != 0;
    if next {
      bit := !bit;
    }
    TopIsFirst(crc0);
    LoadUp(crc0);
    crc := crc0 << 1;
    if bit {
      FlipWord(crc, Up(Load(crc0)));
      crc := crc ^ 0x4599;
    }
  }

  /** The `bits` most significant bits of `data`, one at a time. */
  method CrcUpdateBitwise(crc0: bv16, data: bv8, bits: nat) returns (crc: bv16)
    requires bits <= 8
    ensures crc < 0x8000 && Load(crc) == CrcOf(Load(crc0), ByteBits(data)[..bits])
  {
    crc := crc0;
    var i := 0x80;
    for k := 0 to bits
      invariant i == BitMask(k) && Load(crc) == CrcOf(Load(crc0), ByteBits(data)[..k])
    {
      BitMasks(data, k);
      CrcNext(Load(crc0), ByteBits(data), k);
      crc := BitStep(crc, data & i != 0);
      i := i >> 1;
    }
    LoadMask(crc);
    crc := crc & 0x7fff;
  }

  lemma ShiftedBit(d: bv8, r: nat, k: nat)
    requires r < 8 && k + r < 8
    ensures Bit(d << r, k) == Bit(d, k + r)
  {
    if r == 0 {
      assert d << r == d << 0;
    } else if r == 1 {
      assert d << r == d << 1;
    } else if r == 2 {
      assert d << r == d << 2;
    } else if r == 3 {
      assert d << r == d << 3;
    } else if r == 4 {
      assert d << r == d << 4;
    } else if r == 5 {
      assert d << r == d << 5;
    } else if r == 6 {
      assert d << r == d << 6;
    } else {
      assert d << r == d << 7;
    }
  }

  lemma FirstBits(bitmap: seq<bv8>, start: nat, e: bv8)
    requires start / 8 < |bitmap| && start % 8 != 0
    requires forall k {:trigger Bit(e, k)} :: 0 <= k < 8 - start % 8 ==> Bit(e, k) == Bit(bitmap[start / 8], k + start % 8)
    ensures ByteBits(e)[..8 - start % 8] == BitsOf(bitmap, start, start + 8 - start % 8)
  {
    var r := start % 8;
    var a, b := ByteBits(e)[..8 - r], BitsOf(bitmap, start, start + 8 - r);
    forall k | 0 <= k < 8 - r ensures a[k] == b[k] {
      assert (start + k) / 8 == start / 8 && (start + k) % 8 == k + r;
      assert Bit(e, k) == Bit(bitmap[start / 8], k + r);
    }
  }

  lemma MiddleBits(bitmap: seq<bv8>, i: nat, j: nat)
    requires i <= j <= |bitmap|
    ensures BitsOf(bitmap[i..j], 0, 8 * (j - i)) == BitsOf(bitmap, 8 * i, 8 * j)
  {
    var a, b := BitsOf(bitmap[i..j], 0, 8 * (j - i)), BitsOf(bitmap, 8 * i, 8 * j);
    forall k: nat | k < 8 * (j - i) ensures a[k] == b[k] {
      assert (8 * i + k) / 8 == i + k / 8 && (8 * i + k) % 8 == k % 8;
    }
  }

  lemma LastBits(bitmap: seq<bv8>, end: nat)
    requires end / 8 < |bitmap|
    ensures ByteBits(bitmap[end / 8])[..end % 8] == BitsOf(bitmap, 8 * (end / 8), end)
  {
    var a, b := ByteBits(bitmap[end / 8])[..end % 8], BitsOf(bitmap, 8 * (end / 8), end);
    forall k | 0 <= k < end % 8 ensures a[k] == b[k] {
      assert (8 * (end / 8) + k) / 8 == end / 8 && (8 * (end / 8) + k) % 8 == k;
    }
  }

  /** Where the whole bytes begin. */
  function ByteStart(start: nat): nat {
    if start % 8 != 0 then start + 8 - start % 8 else start
  }

  /** How many whole bytes the code reads, in 32-bit unsigned arithmetic. */
  function ByteCount(start: nat, end: nat): nat {
    (end - ByteStart(start)) % 0x1_0000_0000 / 8
  }

  /** Both ends inside one byte that the range does not begin. */
  predicate WithinOneByte(start: nat, end: nat) {
    start % 8 != 0 && start / 8 == end / 8
  }

  /** All that is read lies in the bitmap: the first byte, the whole ones, and always the byte at the end. */
  predicate ReadsInside(start: nat, end: nat, size: nat) {
    && (start % 8 != 0 ==> start / 8 < size)
    && (ByteCount(start, end) > 0 ==> ByteStart(start) / 8 + ByteCount(start, end) <= size)
    && end / 8 < size
  }

  /** The whole bytes end where the last byte begins, unless the unsigned difference wraps around. */
  lemma WholeByteCount(start: nat, end: nat, size: nat)
    requires start <= end <= 8 * size && size <= 0x1fff_ffff
    ensures ByteStart(start) % 8 == 0
    ensures if WithinOneByte(start, end) then ByteCount(start, end) == 0x1fff_ffff && ByteStart(start) > 0
            else ByteStart(start) <= end && ByteStart(start) / 8 + ByteCount(start, end) == end / 8
  {
    var s := ByteStart(start);
    if WithinOneByte(start, end) {
      assert s == 8 * (end / 8) + 8;
      assert -8 <= end - s < 0;
      assert (end - s) % 0x1_0000_0000 == end - s + 0x1_0000_0000;
    } else {
      assert s <= end;
      assert (end - s) % 0x1_0000_0000 == end - s;
    }
  }

  /**
   * For a range of the bitmap the reads stay inside it if and only if the
   * range ends before the bitmap does, and does not begin and end in the
   * middle of the same byte.
   */
  lemma StaysInBounds(start: nat, end: nat, size: nat)
    requires start <= end <= 8 * size && size <= 0x1fff_ffff
    ensures ReadsInside(start, end, size) <==> end < 8 * size && !WithinOneByte(start, end)
  {
    WholeByteCount(start, end, size);
  }

  /** The CRC of a whole bitmap reads the byte behind it; that of the second bit alone reads 512 MiB. */
  lemma ReadsOutside(size: nat)
    requires 0 < size <= 0x1fff_ffff
    ensures !ReadsInside(0, 8 * size, size) && 8 * size / 8 == size
    ensures !ReadsInside(1, 2, size) && ByteCount(1, 2) == 0x1fff_ffff
  {
    WholeByteCount(1, 2, size);
  }

  /** The number of whole bytes, as the code computes it. */
  method CountBytes(ghost start: nat, s: nat, end: nat, ghost size: nat) returns (n: nat)
    requires start <= end <= 8 * size && size <= 0x1fff_ffff && s == ByteStart(start)
    ensures 8 * (s / 8) == s
    ensures if WithinOneByte(start, end) then n > 0 && s / 8 + n > size else s / 8 + n == end / 8
    ensures ReadsInside(start, end, size) <==> end < 8 * size && !WithinOneByte(start, end)
  {
    n := (end - s) % 0x1_0000_0000 / 8;
    WholeByteCount(start, end, size);
    StaysInBounds(start, end, size);
  }

  /**
   * The CRC of the bits [start, end): partial bits, whole bytes by table,
   * partial bits. None is a read outside the bitmap.
   */
  method CalcBitmapCrc(bitmap: seq<bv8>, start: nat, end: nat) returns (r: Option<bv16>)
    requires start <= end <= 8 * |bitmap| && |bitmap| <= 0x1fff_ffff
    ensures r.Some? <==> ReadsInside(start, end, |bitmap|)
    ensures r.Some? <==> end < 8 * |bitmap| && !WithinOneByte(start, end)
    ensures r.Some? ==> r.value < 0x8000 && Load(r.value) == CrcOf(RESET, BitsOf(bitmap, start, end))
  {
    var crc, s := CrcToByte(bitmap, start);
    var n := CountBytes(start, s, end, |bitmap|);
    if n > 0 && s / 8 + n > |bitmap| { return None; }
    crc := CrcWholeBytes(bitmap, start, s / 8, s / 8 + n, crc);
    if end / 8 >= |bitmap| { return None; }
    crc := CrcLastByte(bitmap, start, end, crc);
    return Some(crc);
  }

  /** The bits up to the first whole byte. */
  method CrcToByte(bitmap: seq<bv8>, start: nat) returns (crc: bv16, s: nat)
    requires start <= 8 * |bitmap|
    ensures s == ByteStart(start) <= 8 * |bitmap| && crc < 0x8000 && Load(crc) == CrcOf(RESET, BitsOf(bitmap, start, s))
  {
    crc, s := 0, start;
    if start % 8 != 0 {
      crc := CrcFirstByte(bitmap, start);
      s := start + 8 - start % 8;
    } else {
      LoadZero();
      assert BitsOf(bitmap, start, start) == [];
    }
  }

  /** The bits of the last byte before `end`. */
  method CrcLastByte(bitmap: seq<bv8>, ghost start: nat, end: nat, crc0: bv16) returns (crc: bv16)
    requires end / 8 < |bitmap| && start <= 8 * (end / 8)
    requires Load(crc0) == CrcOf(RESET, BitsOf(bitmap, start, 8 * (end / 8)))
    ensures crc < 0x8000 && Load(crc) == CrcOf(RESET, BitsOf(bitmap, start, end))
  {
    LastBits(bitmap, end);
    crc := CrcUpdateBitwise(crc0, bitmap[end / 8], end % 8);
    JoinRange(bitmap, start, 8 * (end / 8), end);
  }

  /** The bits from `start` to the end of its byte. */
  method CrcFirstByte(bitmap: seq<bv8>, start: nat) returns (crc: bv16)
    requires start / 8 < |bitmap| && start % 8 != 0
    ensures crc < 0x8000 && Load(crc) == CrcOf(RESET, BitsOf(bitmap, start, start + 8 - start % 8))
  {
    LoadZero();
    var e := bitmap[start / 8] << (start % 8);
    ShiftedByte(bitmap[start / 8], start % 8);
    FirstBits(bitmap, start, e);
    crc := CrcUpdateBitwise(0, e, 8 - start % 8);
  }

  lemma ShiftedByte(d: bv8, r: nat)
    requires r < 8
    ensures forall k {:trigger Bit(d << r, k)} :: 0 <= k < 8 - r ==> Bit(d << r, k) == Bit(d, k + r)
  {
    forall k: nat {:trigger Bit(d << r, k)} | k < 8 - r ensures Bit(d << r, k) == Bit(d, k + r) {
      ShiftedBit(d, r, k);
    }
  }

  /** Bytes `i` to `j` - 1. */
  method CrcWholeBytes(bitmap: seq<bv8>, ghost start: nat, i: nat, j: nat, crc0: bv16) returns (crc: bv16)
    requires i <= j <= |bitmap| && start <= 8 * i
    requires crc0 < 0x8000 && Load(crc0) == CrcOf(RESET, BitsOf(bitmap, start, 8 * i))
    ensures crc < 0x8000 && Load(crc) == CrcOf(RESET, BitsOf(bitmap, start, 8 * j))
  {
    var data := bitmap[i..j];
    WholeBytes(bitmap, start, i, j, data);
    crc := CrcUpdateBytewise(crc0, data);
  }

  lemma WholeBytes(bitmap: seq<bv8>, start: nat, i: nat, j: nat, data: seq<bv8>)
    requires i <= j <= |bitmap| && start <= 8 * i && data == bitmap[i..j]
    ensures CrcOf(CrcOf(RESET, BitsOf(bitmap, start, 8 * i)), BitsOf(data, 0, 8 * |data|))
         == CrcOf(RESET, BitsOf(bitmap, start, 8 * j))
  {
    MiddleBits(bitmap, i, j);
    JoinRange(bitmap, start, 8 * i, 8 * j);
  }

  lemma JoinRange(bitmap: seq<bv8>, i: nat, j: nat, k: nat)
    requires i <= j <= k <= 8 * |bitmap|
    ensures CrcOf(RESET, BitsOf(bitmap, i, k)) == CrcOf(CrcOf(RESET, BitsOf(bitmap, i, j)), BitsOf(bitmap, j, k))
  {
    assert BitsOf(bitmap, i, k) == BitsOf(bitmap, i, j) + BitsOf(bitmap, j, k);
    CrcJoin(RESET, BitsOf(bitmap, i, j), BitsOf(bitmap, j, k));
  }

  /** Feeding a register its own contents empties it: the CRC of bits followed by their CRC is zero. */
  lemma {:induction false} OwnContents(x: Register, n: nat)
    requires n <= 15
    ensures CrcOf(x, x[..n]) == x[n..] + Zeros(n)
    decreases n
  {
    if n == 0 {
      assert x[0..] + Zeros(0) == x;
    } else {
      OwnContents(Up(x), n - 1);
      assert x[..n][1..] == Up(x)[..n - 1];
      assert Up(x)[n - 1..] + Zeros(n - 1) == x[n..] + Zeros(n);
    }
  }

  lemma SelfCheck(bits: seq<bool>)
    ensures CrcOf(RESET, bits + CrcOf(RESET, bits)) == RESET
  {
    var x := CrcOf(RESET, bits);
    CrcJoin(RESET, bits, x);
    OwnContents(x, 15);
    assert x[..15] == x && x[15..] + Zeros(15) == RESET;
  }
}
