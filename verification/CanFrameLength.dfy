/**
 * The length of CAN frames on the wire (canframelen.c): the exact length from
 * the frame's bits, CRC and stuffing, between the two closed-form bounds.
 */
module CanFrameLength {
  import opened CanBits
  import opened CanCrc
  import opened CanStuffing

  const CAN_EFF_FLAG: bv32 := 0x8000_0000
  const CAN_RTR_FLAG: bv32 := 0x4000_0000

  /** A frame and its payload; `len` and `can_dlc` are the payload's length. */
  datatype CanFrame = CanFrame(canId: bv32, data: seq<bv8>)

  datatype Mode = NoBitstuffing | Worstcase | Exact | Unknown

  predicate IsExtended(f: CanFrame) {
    f.canId & CAN_EFF_FLAG != 0
  }

  predicate IsRemote(f: CanFrame) {
    f.canId & CAN_RTR_FLAG != 0
  }

  // ---- The bits of a frame, field by field ----

  function Bits8To1(x: bv32): seq<bool> {
    [x & 0x100 != 0, x & 0x80 != 0, x & 0x40 != 0, x & 0x20 != 0,
     x & 0x10 != 0, x & 0x8 != 0, x & 0x4 != 0, x & 0x2 != 0]
  }

  function Bits16To9(x: bv32): seq<bool> {
    [x & 0x10000 != 0, x & 0x8000 != 0, x & 0x4000 != 0, x & 0x2000 != 0,
     x & 0x1000 != 0, x & 0x800 != 0, x & 0x400 != 0, x & 0x200 != 0]
  }

  function Bits28To23(x: bv32): seq<bool> {
    [x & 0x10000000 != 0, x & 0x8000000 != 0, x & 0x4000000 != 0,
     x & 0x2000000 != 0, x & 0x1000000 != 0, x & 0x800000 != 0]
  }

  function Bits22To18(x: bv32): seq<bool> {
    [x & 0x400000 != 0, x & 0x200000 != 0, x & 0x100000 != 0, x & 0x80000 != 0, x & 0x40000 != 0]
  }

  /** The eleven bits above the low eighteen. */
  function High11(x: bv32): (s: seq<bool>)
    ensures |s| == 11
  {
    Bits28To23(x) + Bits22To18(x)
  }

  /** The low eleven bits of a word, most significant first. */
  function Low11(x: bv32): (s: seq<bool>)
    ensures |s| == 11
  {
    [x & 0x400 != 0, x & 0x200 != 0] + Bits8To1(x) + [x & 1 != 0]
  }

  /** The low eighteen bits of a word, most significant first. */
  function Low18(x: bv32): (s: seq<bool>)
    ensures |s| == 18
  {
    [x & 0x20000 != 0] + Bits16To9(x) + Bits8To1(x) + [x & 1 != 0]
  }

  /** The data length code, most significant bit first. */
  function DlcBits(n: nat): seq<bool> {
    [n / 8 % 2 == 1, n / 4 % 2 == 1, n / 2 % 2 == 1, n % 2 == 1]
  }

  /**
   * Start of frame, arbitration and control field. Standard frames carry an
   * 11-bit identifier; extended ones split 29 bits around SRR and IDE.
   */
  function Header(f: CanFrame): seq<bool> {
    if IsExtended(f) then
      [false] + High11(f.canId) + [true, true] + Low18(f.canId)
      + ([IsRemote(f), false, false] + DlcBits(|f.data|))
    else
      [false] + Low11(f.canId) + ([IsRemote(f), false, false] + DlcBits(|f.data|))
  }

  /** What the code puts before the CRC: the data of every frame, remote ones included. */
  function Body(f: CanFrame): seq<bool> {
    Header(f) + BitsOf(f.data, 0, 8 * |f.data|)
  }

  /** Everything that is stuffed: the frame up to and including its CRC sequence. */
  ghost function FrameBits(f: CanFrame): seq<bool> {
    Body(f) + CrcOf(RESET, Body(f))
  }

  /** Delimiters, acknowledge slot, end of frame and interframe space follow unstuffed. */
  const TRAILER: nat := 3 + 7 + 3

  ghost function ExactLength(f: CanFrame): nat {
    |Stuffed(FrameBits(f))| + TRAILER
  }

  function PlainLength(f: CanFrame): nat {
    (if IsExtended(f) then 67 else 47) + |f.data| * 8
  }

  function WorstLength(f: CanFrame): nat {
    (if IsExtended(f) then 80 else 55) + |f.data| * 10
  }

  lemma FrameBitsLength(f: CanFrame)
    ensures |Header(f)| == (if IsExtended(f) then 39 else 19)
    ensures |FrameBits(f)| + TRAILER == PlainLength(f)
  {
  }

  /** The exact length lies between the plain and the worst-case formula. */
  lemma Sandwich(f: CanFrame)
    ensures PlainLength(f) <= ExactLength(f) <= WorstLength(f)
  {
    FrameBitsLength(f);
    StuffedLength(FrameBits(f), 0, false, 0);
    CountBound(FrameBits(f), 0, false, 0);
  }

  /**
   * The worst-case formula is the plain one with one stuff bit for every four
   * bits after the first, and bits that need as many exist.
   */
  lemma WorstIsReached(f: CanFrame)
    ensures WorstLength(f) == PlainLength(f) + (|FrameBits(f)| - 1) / 4
    ensures |Stuffed(Blocks(|FrameBits(f)|))| + TRAILER == WorstLength(f)
  {
    var n := |FrameBits(f)|;
    FrameBitsLength(f);
    MostStuffed(n);
    StuffedLength(Blocks(n), 0, false, 0);
  }

  // ---- Remote frames ----

  /** A remote frame has a length code, but no data field. */
  ghost function WireBits(f: CanFrame): seq<bool> {
    if IsRemote(f) then Header(f) + CrcOf(RESET, Header(f)) else FrameBits(f)
  }

  ghost function WireLength(f: CanFrame): nat {
    |Stuffed(WireBits(f))| + TRAILER
  }

  /** For remote frames the data is counted that they do not carry. */
  lemma RemoteOvercounted(f: CanFrame)
    requires IsRemote(f)
    ensures f.data != [] ==> ExactLength(f) >= WireLength(f) + 8 * |f.data| - 4
    ensures WireLength(f) <= WorstLength(CanFrame(f.canId, []))
  {
    var h, data := Header(f), BitsOf(f.data, 0, 8 * |f.data|);
    var crc, rest := CrcOf(RESET, h), data + CrcOf(RESET, Body(f));
    FrameBitsLength(f);
    assert FrameBits(f) == h + rest;
    StuffedLength(h + rest, 0, false, 0);
    StuffedLength(h + crc, 0, false, 0);
    CountFront(h, rest, 0, false, 0);
    CountFront(h, crc, 0, false, 0);
    CountBound(h + crc, 0, false, 0);
  }

  /** The exact length is the length on the wire except for remote frames with a length code. */
  lemma ExactOnWire(f: CanFrame)
    ensures ExactLength(f) >= WireLength(f)
    ensures ExactLength(f) == WireLength(f) <==> !IsRemote(f) || f.data == []
  {
    if IsRemote(f) {
      RemoteOvercounted(f);
      if f.data == [] {
        assert Body(f) == Header(f);
      }
    }
  }

  /** One such frame: 111 bits or more instead of at most 55. */
  lemma RemoteFrame() returns (f: CanFrame)
    ensures IsRemote(f) && |f.data| == 8 && ExactLength(f) >= 111 && WireLength(f) <= 55
  {
    f := CanFrame(CAN_RTR_FLAG, seq(8, _ => 0));
    assert IsRemote(f) && !IsExtended(f);
    Sandwich(f);
    RemoteOvercounted(f);
  }

  /** The wire carries the frame's bits back to a receiver that drops the stuff bits. */
  lemma Receivable(f: CanFrame, k: nat)
    ensures Destuff(Stuffed(FrameBits(f)), false, 0) == FrameBits(f)
    ensures CrcOf(RESET, FrameBits(f)) == RESET
    ensures k + 6 <= |Stuffed(FrameBits(f))| ==>
              exists j :: k < j < k + 6 && Stuffed(FrameBits(f))[j] != Stuffed(FrameBits(f))[k]
  {
    DestuffStuffed(FrameBits(f), 0, false, 0);
    assert FrameBits(f)[0..] == FrameBits(f);
    SelfCheck(Body(f));
    if k + 6 <= |Stuffed(FrameBits(f))| {
      StuffedRuns(FrameBits(f), 0, false, 0);
      NoSixEqual(Stuffed(FrameBits(f)), false, 0, k);
    }
  }

  // ---- The bitmap of cfl_exact() ----

  /** A byte is its eight bits. */
  lemma EightBits(d: bv8, s: seq<bool>)
    requires |s| == 8
    requires s[0] == Bit(d, 0) && s[1] == Bit(d, 1) && s[2] == Bit(d, 2) && s[3] == Bit(d, 3)
    requires s[4] == Bit(d, 4) && s[5] == Bit(d, 5) && s[6] == Bit(d, 6) && s[7] == Bit(d, 7)
    ensures ByteBits(d) == s
  {
  }

  lemma StdByte0(id: bv32, b: bv8)
    requires b == ((id & 0x7ff) >> 9) as bv8
    ensures Bit(b, 0) == false && Bit(b, 1) == false
    ensures Bit(b, 2) == false && Bit(b, 3) == false
    ensures Bit(b, 4) == false && Bit(b, 5) == false
    ensures Bit(b, 6) == (id & 0x400 != 0) && Bit(b, 7) == (id & 0x200 != 0)
  {
  }

  lemma StdByte1(id: bv32, b: bv8)
    requires b == ((id >> 1) & 0xff) as bv8
    ensures Bit(b, 0) == (id & 0x100 != 0) && Bit(b, 1) == (id & 0x80 != 0)
    ensures Bit(b, 2) == (id & 0x40 != 0) && Bit(b, 3) == (id & 0x20 != 0)
    ensures Bit(b, 4) == (id & 0x10 != 0) && Bit(b, 5) == (id & 0x8 != 0)
    ensures Bit(b, 6) == (id & 0x4 != 0) && Bit(b, 7) == (id & 0x2 != 0)
  {
  }

  lemma ExtByte0(id: bv32, b: bv8)
    requires b == ((id & 0x1fff_ffff) >> 23) as bv8
    ensures Bit(b, 0) == false && Bit(b, 1) == false
    ensures Bit(b, 2) == (id & 0x10000000 != 0) && Bit(b, 3) == (id & 0x8000000 != 0)
    ensures Bit(b, 4) == (id & 0x4000000 != 0) && Bit(b, 5) == (id & 0x2000000 != 0)
    ensures Bit(b, 6) == (id & 0x1000000 != 0) && Bit(b, 7) == (id & 0x800000 != 0)
  {
  }

  lemma ExtByte1(id: bv32, b: bv8)
    requires b == (((((id >> 18) & 0x3f) << 3) | (3 << 1) | ((id >> 17) & 1)) & 0xff) as bv8
    ensures Bit(b, 0) == (id & 0x400000 != 0) && Bit(b, 1) == (id & 0x200000 != 0)
    ensures Bit(b, 2) == (id & 0x100000 != 0) && Bit(b, 3) == (id & 0x80000 != 0)
    ensures Bit(b, 4) == (id & 0x40000 != 0) && Bit(b, 5) == true
    ensures Bit(b, 6) == true && Bit(b, 7) == (id & 0x20000 != 0)
  {
  }

  lemma ExtByte2(id: bv32, b: bv8)
    requires b == ((id >> 9) & 0xff) as bv8
    ensures Bit(b, 0) == (id & 0x10000 != 0) && Bit(b, 1) == (id & 0x8000 != 0)
    ensures Bit(b, 2) == (id & 0x4000 != 0) && Bit(b, 3) == (id & 0x2000 != 0)
    ensures Bit(b, 4) == (id & 0x1000 != 0) && Bit(b, 5) == (id & 0x800 != 0)
    ensures Bit(b, 6) == (id & 0x400 != 0) && Bit(b, 7) == (id & 0x200 != 0)
  {
  }

  /** The low bit of the identifier, the remote flag, two reserved bits and the length code. */
  function ControlByte(low: bv8, remote: bool, n: nat): bv8
    requires n <= 8
  {
    low | ((if remote then 1 else 0) << 6) | (0 << 4) | ((n as bv8) & 0xf)
  }

  lemma ControlBits(low: bool, remote: bool, n: nat, b: bv8)
    requires n <= 8 && b == ControlByte(if low then 0x80 else 0, remote, n)
    ensures ByteBits(b) == [low, remote, false, false] + DlcBits(n)
  {
    LengthCode(n);
    var c := (n as bv8) & 0xf;
    var s := [low, remote, false, false] + DlcBits(n);
    ControlOf(low, remote, c, b);
    EightBits(b, s);
  }

  lemma LengthCode(n: nat)
    requires n <= 8
    ensures var c := (n as bv8) & 0xf;
            && c < 0x10 && [c & 8 != 0, c & 4 != 0, c & 2 != 0, c & 1 != 0] == DlcBits(n)
  {
    if n == 0 {
      assert (n as bv8) & 0xf == 0;
    } else if n == 1 {
      assert (n as bv8) & 0xf == 1;
    } else if n == 2 {
      assert (n as bv8) & 0xf == 2;
    } else if n == 3 {
      assert (n as bv8) & 0xf == 3;
    } else if n == 4 {
      assert (n as bv8) & 0xf == 4;
    } else if n == 5 {
      assert (n as bv8) & 0xf == 5;
    } else if n == 6 {
      assert (n as bv8) & 0xf == 6;
    } else if n == 7 {
      assert (n as bv8) & 0xf == 7;
    } else {
      assert (n as bv8) & 0xf == 8;
    }
  }

  lemma ControlOf(low: bool, remote: bool, c: bv8, b: bv8)
    requires c < 0x10 && b == (if low then 0x80 else 0) | ((if remote then 1 else 0) << 6) | (0 << 4) | c
    ensures Bit(b, 0) == low && Bit(b, 1) == remote && Bit(b, 2) == false && Bit(b, 3) == false
    ensures Bit(b, 4) == (c & 8 != 0) && Bit(b, 5) == (c & 4 != 0)
    ensures Bit(b, 6) == (c & 2 != 0) && Bit(b, 7) == (c & 1 != 0)
  {
  }

  lemma LowBitOfId(id: bv32)
    ensures ((id << 7) & 0xff) as bv8 == if id & 1 != 0 then 0x80 else 0
    ensures ((id & 1) << 7) as bv8 == if id & 1 != 0 then 0x80 else 0
  {
  }

  lemma BitsJoin(bitmap: seq<bv8>, i: nat, j: nat, k: nat)
    requires i <= j <= k <= 8 * |bitmap|
    ensures BitsOf(bitmap, i, k) == BitsOf(bitmap, i, j) + BitsOf(bitmap, j, k)
  {
  }

  lemma BitsPrefix(bitmap: seq<bv8>, i: nat, j: nat, k: nat)
    requires i <= j <= k <= 8 * |bitmap|
    ensures BitsOf(bitmap, i, k)[..j - i] == BitsOf(bitmap, i, j)
  {
  }

  lemma PartOfFirst(bitmap: seq<bv8>, i: nat)
    requires |bitmap| > 0 && i < 8
    ensures BitsOf(bitmap, i, 8) == ByteBits(bitmap[0])[i..]
  {
  }

  // Standard frames: three header bytes, the first five bits unused.

  lemma StdFirst(b: bv8, id: bv32)
    requires b == ((id & 0x7ff) >> 9) as bv8
    ensures ByteBits(b) == [false, false, false, false, false, false] + Low11(id)[..2]
  {
    StdByte0(id, b);
    EightBits(b, [false, false, false, false, false, false, id & 0x400 != 0, id & 0x200 != 0]);
  }

  lemma StdSecond(b: bv8, id: bv32)
    requires b == ((id >> 1) & 0xff) as bv8
    ensures ByteBits(b) == Bits8To1(id)
  {
    StdByte1(id, b);
    EightBits(b, Bits8To1(id));
  }

  lemma Slices(id: bv32)
    ensures Low11(id)[2..10] == Bits8To1(id) && Low11(id)[10] == (id & 1 != 0)
    ensures Low18(id)[..1] == [id & 0x20000 != 0] && Low18(id)[1..9] == Bits16To9(id)
    ensures Low18(id)[9..17] == Bits8To1(id) && Low18(id)[17] == (id & 1 != 0)
    ensures High11(id)[..6] == Bits28To23(id) && High11(id)[6..] == Bits22To18(id)
  {
    CutThree([id & 0x400 != 0, id & 0x200 != 0], Bits8To1(id), [id & 1 != 0]);
    CutFour([id & 0x20000 != 0], Bits16To9(id), Bits8To1(id), [id & 1 != 0]);
    CutTwo(Bits28To23(id), Bits22To18(id));
  }

  lemma CutTwo(a: seq<bool>, b: seq<bool>)
    ensures (a + b)[..|a|] == a && (a + b)[|a|..] == b
  {
  }

  lemma CutThree(a: seq<bool>, b: seq<bool>, c: seq<bool>)
    requires |a| == 2 && |b| == 8 && |c| == 1
    ensures (a + b + c)[..2] == a && (a + b + c)[2..10] == b && (a + b + c)[10] == c[0]
  {
  }

  lemma CutFour(a: seq<bool>, b: seq<bool>, c: seq<bool>, d: seq<bool>)
    requires |a| == 1 && |b| == 8 && |c| == 8 && |d| == 1
    ensures (a + b + c + d)[..1] == a && (a + b + c + d)[1..9] == b
    ensures (a + b + c + d)[9..17] == c && (a + b + c + d)[17] == d[0]
  {
  }

  lemma StdThird(b: bv8, id: bv32, remote: bool, n: nat)
    requires n <= 8 && b == ControlByte(((id << 7) & 0xff) as bv8, remote, n)
    ensures ByteBits(b) == [Low11(id)[10], remote, false, false] + DlcBits(n)
  {
    LowBitOfId(id);
    ControlBits(id & 1 != 0, remote, n, b);
  }

  lemma StdConcat(x: seq<bool>, rest: seq<bool>)
    requires |x| == 11
    ensures ([false, false, false, false, false, false] + x[..2])[5..] + x[2..10] + ([x[10]] + rest)
         == [false] + x + rest
  {
    assert ([false, false, false, false, false, false] + x[..2])[5..] == [false] + x[..2];
    assert x == x[..2] + x[2..10] + [x[10]];
  }

  lemma StdBytes(bitmap: seq<bv8>)
    requires |bitmap| >= 3
    ensures BitsOf(bitmap, 5, 24) == ByteBits(bitmap[0])[5..] + ByteBits(bitmap[1]) + ByteBits(bitmap[2])
  {
    PartOfFirst(bitmap, 5);
    ByteAt(bitmap, 1);
    ByteAt(bitmap, 2);
    BitsJoin(bitmap, 5, 8, 16);
    BitsJoin(bitmap, 5, 16, 24);
  }

  lemma StdHeader(bitmap: seq<bv8>, id: bv32, remote: bool, n: nat)
    requires |bitmap| >= 3 && n <= 8
    requires bitmap[0] == ((id & 0x7ff) >> 9) as bv8
    requires bitmap[1] == ((id >> 1) & 0xff) as bv8
    requires bitmap[2] == ControlByte(((id << 7) & 0xff) as bv8, remote, n)
    ensures BitsOf(bitmap, 5, 24) == [false] + Low11(id) + ([remote, false, false] + DlcBits(n))
  {
    StdBytes(bitmap);
    Slices(id);
    StdFirst(bitmap[0], id);
    StdSecond(bitmap[1], id);
    StdThird(bitmap[2], id, remote, n);
    StdConcat(Low11(id), [remote, false, false] + DlcBits(n));
  }

  // Extended frames: five header bytes, the first bit unused.

  lemma ExtFirst(b: bv8, id: bv32)
    requires b == ((id & 0x1fff_ffff) >> 23) as bv8
    ensures ByteBits(b) == [false, false] + Bits28To23(id)
  {
    ExtByte0(id, b);
    EightBits(b, [false, false] + Bits28To23(id));
  }

  lemma ExtSecond(b: bv8, id: bv32)
    requires b == (((((id >> 18) & 0x3f) << 3) | (3 << 1) | ((id >> 17) & 1)) & 0xff) as bv8
    ensures ByteBits(b) == Bits22To18(id) + [true, true] + [id & 0x20000 != 0]
  {
    ExtByte1(id, b);
    EightBits(b, Bits22To18(id) + [true, true] + [id & 0x20000 != 0]);
  }

  lemma ExtThird(b: bv8, id: bv32)
    requires b == ((id >> 9) & 0xff) as bv8
    ensures ByteBits(b) == Bits16To9(id)
  {
    ExtByte2(id, b);
    EightBits(b, Bits16To9(id));
  }

  lemma ExtFifth(b: bv8, id: bv32, remote: bool, n: nat)
    requires n <= 8 && b == ControlByte(((id & 1) << 7) as bv8, remote, n)
    ensures ByteBits(b) == [Low18(id)[17], remote, false, false] + DlcBits(n)
  {
    LowBitOfId(id);
    ControlBits(id & 1 != 0, remote, n, b);
  }

  lemma ExtConcat(x: seq<bool>, y: seq<bool>, rest: seq<bool>)
    requires |x| == 11 && |y| == 18
    ensures ([false, false] + x[..6])[1..] + (x[6..] + [true, true] + y[..1]) + y[1..9] + y[9..17] + ([y[17]] + rest)
         == [false] + x + [true, true] + y + rest
  {
    assert ([false, false] + x[..6])[1..] + (x[6..] + [true, true] + y[..1]) == [false] + x + [true, true] + y[..1];
    assert y == y[..1] + y[1..9] + y[9..17] + [y[17]];
  }

  lemma ExtBytes(bitmap: seq<bv8>)
    requires |bitmap| >= 5
    ensures BitsOf(bitmap, 1, 40)
         == ByteBits(bitmap[0])[1..] + ByteBits(bitmap[1]) + ByteBits(bitmap[2]) + ByteBits(bitmap[3])
            + ByteBits(bitmap[4])
  {
    PartOfFirst(bitmap, 1);
    ByteAt(bitmap, 1);
    ByteAt(bitmap, 2);
    ByteAt(bitmap, 3);
    ByteAt(bitmap, 4);
    BitsJoin(bitmap, 1, 8, 16);
    BitsJoin(bitmap, 1, 16, 24);
    BitsJoin(bitmap, 1, 24, 32);
    BitsJoin(bitmap, 1, 32, 40);
  }

  lemma ExtHeader(bitmap: seq<bv8>, id: bv32, remote: bool, n: nat)
    requires |bitmap| >= 5 && n <= 8
    requires bitmap[0] == ((id & 0x1fff_ffff) >> 23) as bv8
    requires bitmap[1] == (((((id >> 18) & 0x3f) << 3) | (3 << 1) | ((id >> 17) & 1)) & 0xff) as bv8
    requires bitmap[2] == ((id >> 9) & 0xff) as bv8
    requires bitmap[3] == ((id >> 1) & 0xff) as bv8
    requires bitmap[4] == ControlByte(((id & 1) << 7) as bv8, remote, n)
    ensures BitsOf(bitmap, 1, 40)
         == [false] + High11(id) + [true, true] + Low18(id) + ([remote, false, false] + DlcBits(n))
  {
    ExtBytes(bitmap);
    Slices(id);
    ExtFirst(bitmap[0], id);
    ExtSecond(bitmap[1], id);
    ExtThird(bitmap[2], id);
    StdSecond(bitmap[3], id);
    ExtFifth(bitmap[4], id, remote, n);
    ExtConcat(High11(id), Low18(id), [remote, false, false] + DlcBits(n));
  }

  // ---- The exact length ----

  /** The data bytes, copied behind the header bytes. */
  method CopyData(bitmap: array<bv8>, k: nat, data: seq<bv8>)
    requires k + |data| <= bitmap.Length
    modifies bitmap
    ensures bitmap[..k] == old(bitmap[..k]) && bitmap[k..k + |data|] == data
  {
    for j := 0 to |data|
      invariant bitmap[..k] == old(bitmap[..k]) && bitmap[k..k + j] == data[..j]
    {
      bitmap[k + j] := data[j];
      assert bitmap[k..k + j + 1] == bitmap[k..k + j] + [data[j]];
    }
    assert data[..|data|] == data;
  }

  lemma BodyBits(bitmap: seq<bv8>, start: nat, k: nat, f: CanFrame)
    requires start <= 8 * k && k + |f.data| <= |bitmap|
    requires BitsOf(bitmap, start, 8 * k) == Header(f) && bitmap[k..k + |f.data|] == f.data
    ensures BitsOf(bitmap, start, 8 * k + 8 * |f.data|) == Body(f)
  {
    BytesBehind(bitmap, start, k, f.data);
  }

  /** Bits followed by whole bytes. */
  lemma BytesBehind(bitmap: seq<bv8>, start: nat, k: nat, data: seq<bv8>)
    requires start <= 8 * k && k + |data| <= |bitmap| && bitmap[k..k + |data|] == data
    ensures BitsOf(bitmap, start, 8 * k + 8 * |data|)
         == BitsOf(bitmap, start, 8 * k) + BitsOf(data, 0, 8 * |data|)
  {
    MiddleBits(bitmap, k, k + |data|);
    BitsJoin(bitmap, start, 8 * k, 8 * k + 8 * |data|);
  }

  method PrepareExtended(f: CanFrame) returns (bitmap: array<bv8>)
    requires IsExtended(f) && |f.data| <= 8
    ensures fresh(bitmap) && bitmap.Length == 16
    ensures BitsOf(bitmap[..], 1, 40 + 8 * |f.data|) == Body(f)
  {
    var id := f.canId;
    bitmap := new bv8[16](_ => 0);
    bitmap[0] := ((id & 0x1fff_ffff) >> 23) as bv8;
    bitmap[1] := (((((id >> 18) & 0x3f) << 3) | (3 << 1) | ((id >> 17) & 1)) & 0xff) as bv8;
    bitmap[2] := ((id >> 9) & 0xff) as bv8;
    bitmap[3] := ((id >> 1) & 0xff) as bv8;
    bitmap[4] := ControlByte(((id & 1) << 7) as bv8, IsRemote(f), |f.data|);
    ghost var h := bitmap[..5];
    CopyData(bitmap, 5, f.data);
    HeaderKept(h, bitmap[..]);
    ExtHeader(bitmap[..], id, IsRemote(f), |f.data|);
    assert bitmap[..][5..5 + |f.data|] == bitmap[5..5 + |f.data|];
    BodyBits(bitmap[..], 1, 5, f);
  }

  lemma HeaderKept(h: seq<bv8>, s: seq<bv8>)
    requires |h| <= |s| && s[..|h|] == h
    ensures forall j :: 0 <= j < |h| ==> s[j] == h[j]
  {
    assert forall j :: 0 <= j < |h| ==> s[j] == s[..|h|][j];
  }

  method PrepareStandard(f: CanFrame) returns (bitmap: array<bv8>)
    requires !IsExtended(f) && |f.data| <= 8
    ensures fresh(bitmap) && bitmap.Length == 16
    ensures BitsOf(bitmap[..], 5, 24 + 8 * |f.data|) == Body(f)
  {
    var id := f.canId;
    bitmap := new bv8[16](_ => 0);
    bitmap[0] := ((id & 0x7ff) >> 9) as bv8;
    bitmap[1] := ((id >> 1) & 0xff) as bv8;
    bitmap[2] := ControlByte(((id << 7) & 0xff) as bv8, IsRemote(f), |f.data|);
    ghost var h := bitmap[..3];
    CopyData(bitmap, 3, f.data);
    HeaderKept(h, bitmap[..]);
    StdHeader(bitmap[..], id, IsRemote(f), |f.data|);
    assert bitmap[..][3..3 + |f.data|] == bitmap[3..3 + |f.data|];
    BodyBits(bitmap[..], 5, 3, f);
  }

  /** The two bytes of the CRC in network order, moved up by one bit. */
  predicate IsCrcBytes(crc: bv16, hi: bv8, lo: bv8) {
    crc < 0x8000 && hi == ((crc << 1) >> 8) as bv8 && lo == ((crc << 1) & 0xff) as bv8
  }

  lemma CrcGroup0(crc: bv16, hi: bv8, lo: bv8, x: bv16)
    requires IsCrcBytes(crc, hi, lo) && x == crc
    ensures Top(x) == Bit(hi, 0) && Top(UpWord(x)) == Bit(hi, 1) && Top(UpWord(UpWord(x))) == Bit(hi, 2)
  {
  }

  lemma CrcGroup1(crc: bv16, hi: bv8, lo: bv8, x: bv16)
    requires IsCrcBytes(crc, hi, lo) && x == (crc << 3) & 0x7fff
    ensures Top(x) == Bit(hi, 3) && Top(UpWord(x)) == Bit(hi, 4) && Top(UpWord(UpWord(x))) == Bit(hi, 5)
  {
  }

  lemma CrcGroup2(crc: bv16, hi: bv8, lo: bv8, x: bv16)
    requires IsCrcBytes(crc, hi, lo) && x == (crc << 6) & 0x7fff
    ensures Top(x) == Bit(hi, 6) && Top(UpWord(x)) == Bit(hi, 7) && Top(UpWord(UpWord(x))) == Bit(lo, 0)
  {
  }

  lemma CrcGroup3(crc: bv16, hi: bv8, lo: bv8, x: bv16)
    requires IsCrcBytes(crc, hi, lo) && x == (crc << 9) & 0x7fff
    ensures Top(x) == Bit(lo, 1) && Top(UpWord(x)) == Bit(lo, 2) && Top(UpWord(UpWord(x))) == Bit(lo, 3)
  {
  }

  lemma CrcGroup4(crc: bv16, hi: bv8, lo: bv8, x: bv16)
    requires IsCrcBytes(crc, hi, lo) && x == (crc << 12) & 0x7fff
    ensures Top(x) == Bit(lo, 4) && Top(UpWord(x)) == Bit(lo, 5) && Top(UpWord(UpWord(x))) == Bit(lo, 6)
  {
  }

  lemma GroupBit(crc: bv16, k: nat, x: bv16, i: nat)
    requires k <= i < k + 3 && WordBit(crc, i) == WordBit(x, i - k)
    ensures i == k ==> WordBit(crc, i) == Top(x)
    ensures i == k + 1 ==> WordBit(crc, i) == Top(UpWord(x))
    ensures i == k + 2 ==> WordBit(crc, i) == Top(UpWord(UpWord(x)))
  {
    LowBits(x, i - k);
  }

  lemma ThreeMore(crc: bv16, x: bv16, y: bv16, k: nat, i: nat)
    requires i >= k + 3 && WordBit(crc, i) == WordBit(x, i - k) && y == (x << 3) & 0x7fff
    ensures WordBit(crc, i) == WordBit(y, i - (k + 3))
  {
    BitThreeOn(x, i - k - 3);
  }

  /** Bit `i` of two bytes. */
  function BitOfPair(hi: bv8, lo: bv8, i: nat): bool
    requires i < 16
  {
    if i < 8 then Bit(hi, i) else Bit(lo, i - 8)
  }

  lemma ShiftOn(x: bv16)
    ensures (((x << 3) & 0x7fff) << 3) & 0x7fff == (x << 6) & 0x7fff
    ensures (((x << 6) & 0x7fff) << 3) & 0x7fff == (x << 9) & 0x7fff
    ensures (((x << 9) & 0x7fff) << 3) & 0x7fff == (x << 12) & 0x7fff
  {
  }

  lemma CrcBitFrom12(crc: bv16, hi: bv8, lo: bv8, x: bv16, i: nat)
    requires IsCrcBytes(crc, hi, lo) && 12 <= i < 15
    requires x == (crc << 12) & 0x7fff && WordBit(crc, i) == WordBit(x, i - 12)
    ensures WordBit(crc, i) == BitOfPair(hi, lo, i)
  {
    CrcGroup4(crc, hi, lo, x);
    GroupBit(crc, 12, x, i);
  }

  lemma CrcBitFrom9(crc: bv16, hi: bv8, lo: bv8, x: bv16, i: nat)
    requires IsCrcBytes(crc, hi, lo) && 9 <= i < 15
    requires x == (crc << 9) & 0x7fff && WordBit(crc, i) == WordBit(x, i - 9)
    ensures WordBit(crc, i) == BitOfPair(hi, lo, i)
  {
    if i < 12 {
      CrcGroup3(crc, hi, lo, x);
      GroupBit(crc, 9, x, i);
    } else {
      var y := (x << 3) & 0x7fff;
      ShiftOn(crc);
      ThreeMore(crc, x, y, 9, i);
      CrcBitFrom12(crc, hi, lo, y, i);
    }
  }

  lemma CrcBitFrom6(crc: bv16, hi: bv8, lo: bv8, x: bv16, i: nat)
    requires IsCrcBytes(crc, hi, lo) && 6 <= i < 15
    requires x == (crc << 6) & 0x7fff && WordBit(crc, i) == WordBit(x, i - 6)
    ensures WordBit(crc, i) == BitOfPair(hi, lo, i)
  {
    if i < 9 {
      CrcGroup2(crc, hi, lo, x);
      GroupBit(crc, 6, x, i);
    } else {
      var y := (x << 3) & 0x7fff;
      ShiftOn(crc);
      ThreeMore(crc, x, y, 6, i);
      CrcBitFrom9(crc, hi, lo, y, i);
    }
  }

  lemma CrcBitFrom3(crc: bv16, hi: bv8, lo: bv8, x: bv16, i: nat)
    requires IsCrcBytes(crc, hi, lo) && 3 <= i < 15
    requires x == (crc << 3) & 0x7fff && WordBit(crc, i) == WordBit(x, i - 3)
    ensures WordBit(crc, i) == BitOfPair(hi, lo, i)
  {
    if i < 6 {
      CrcGroup1(crc, hi, lo, x);
      GroupBit(crc, 3, x, i);
    } else {
      var y := (x << 3) & 0x7fff;
      ShiftOn(crc);
      ThreeMore(crc, x, y, 3, i);
      CrcBitFrom6(crc, hi, lo, y, i);
    }
  }

  lemma CrcBit(crc: bv16, hi: bv8, lo: bv8, i: nat)
    requires IsCrcBytes(crc, hi, lo) && i < 15
    ensures WordBit(crc, i) == BitOfPair(hi, lo, i)
  {
    if i < 3 {
      CrcGroup0(crc, hi, lo, crc);
      GroupBit(crc, 0, crc, i);
    } else {
      ThreeMore(crc, crc, (crc << 3) & 0x7fff, 0, i);
      CrcBitFrom3(crc, hi, lo, (crc << 3) & 0x7fff, i);
    }
  }

  lemma CrcBytes(crc: bv16, hi: bv8, lo: bv8)
    requires IsCrcBytes(crc, hi, lo)
    ensures Load(crc) == ByteBits(hi) + ByteBits(lo)[..7]
  {
    forall i: nat | i < 15 ensures Load(crc)[i] == (ByteBits(hi) + ByteBits(lo)[..7])[i] {
      CrcBit(crc, hi, lo, i);
    }
  }

  lemma FrontKept(before: seq<bv8>, after: seq<bv8>, start: nat, end: nat)
    requires start <= end && end % 8 == 0 && end / 8 <= |before| && end / 8 <= |after|
    requires before[..end / 8] == after[..end / 8]
    ensures BitsOf(after, start, end) == BitsOf(before, start, end)
  {
    forall i: nat | start <= i < end ensures BitAt(after, i) == BitAt(before, i) {
      assert before[i / 8] == before[..end / 8][i / 8] == after[i / 8];
    }
  }

  lemma TwoBytes(s: seq<bv8>, j: nat)
    requires j + 2 <= |s|
    ensures BitsOf(s, 8 * j, 8 * j + 15) == ByteBits(s[j]) + ByteBits(s[j + 1])[..7]
  {
    ByteAt(s, j);
    ByteAt(s, j + 1);
    BitsJoin(s, 8 * j, 8 * (j + 1), 8 * j + 15);
    BitsPrefix(s, 8 * (j + 1), 8 * j + 15, 8 * (j + 1) + 8);
  }

  lemma CrcBehind(after: seq<bv8>, end: nat, crc: bv16)
    requires end % 8 == 0 && end / 8 + 2 <= |after|
    requires IsCrcBytes(crc, after[end / 8], after[end / 8 + 1])
    ensures BitsOf(after, end, end + 15) == Load(crc)
  {
    var j := end / 8;
    CrcBytes(crc, after[j], after[j + 1]);
    TwoBytes(after, j);
    assert end == 8 * j;
  }

  /** Appends the CRC sequence behind the body. */
  method AppendCrc(bitmap: array<bv8>, start: nat, end: nat, crc: bv16)
    requires start <= end && end % 8 == 0 && end / 8 + 2 <= bitmap.Length && crc < 0x8000
    modifies bitmap
    ensures BitsOf(bitmap[..], start, end + 15) == old(BitsOf(bitmap[..], start, end)) + Load(crc)
  {
    ghost var before := bitmap[..];
    bitmap[end / 8] := ((crc << 1) >> 8) as bv8;
    bitmap[end / 8 + 1] := ((crc << 1) & 0xff) as bv8;
    ghost var after := bitmap[..];
    FrontKept(before, after, start, end);
    CrcBehind(after, end, crc);
    BitsJoin(after, start, end, end + 15);
  }

  /** The bits of the frame before its CRC, at [start, end) of a bitmap. */
  method Prepare(f: CanFrame) returns (bitmap: array<bv8>, start: nat, end: nat)
    requires |f.data| <= 8
    ensures fresh(bitmap) && bitmap.Length == 16 && start < 8 && 24 <= end <= 104 && end % 8 == 0
    ensures BitsOf(bitmap[..], start, end) == Body(f)
  {
    if f.canId & CAN_EFF_FLAG != 0 {
      bitmap := PrepareExtended(f);
      start, end := 1, 40 + 8 * |f.data|;
    } else {
      bitmap := PrepareStandard(f);
      start, end := 5, 24 + 8 * |f.data|;
    }
  }

  /** The exact number of bits of a frame on the wire, unless it is a remote frame with a length code. */
  method CflExact(f: CanFrame) returns (n: nat)
    requires |f.data| <= 8
    ensures n == ExactLength(f) >= WireLength(f)
    ensures n == WireLength(f) <==> !IsRemote(f) || f.data == []
  {
    ExactOnWire(f);
    var bitmap, start, end := Prepare(f);
    var crc := CalcBitmapCrc(bitmap[..], start, end);
    AppendCrc(bitmap, start, end, crc.value);
    end := end + 15;
    var stuffed := CountStuffBits(bitmap[..], start, end);
    n := end - start + stuffed + 3 + 7 + 3;
  }

  /** The three modes of can_frame_length() for classical frames. */
  method ClassicalLength(f: CanFrame, mode: Mode) returns (n: nat)
    requires mode == Exact ==> |f.data| <= 8
    ensures mode == NoBitstuffing ==> n == PlainLength(f) <= ExactLength(f)
    ensures mode == Exact ==> n == ExactLength(f) && (n == WireLength(f) <==> !IsRemote(f) || f.data == [])
    ensures mode == Worstcase ==> WireLength(f) <= ExactLength(f) <= n == WorstLength(f)
    ensures mode == Unknown ==> n == 0
  {
    Sandwich(f);
    ExactOnWire(f);
    match mode {
      case NoBitstuffing => n := (if f.canId & CAN_EFF_FLAG != 0 then 67 else 47) + |f.data| * 8;
      case Worstcase => n := (if f.canId & CAN_EFF_FLAG != 0 then 80 else 55) + |f.data| * 10;
      case Exact => n := CflExact(f);
      case Unknown => n := 0;
    }
  }
}
