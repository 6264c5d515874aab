/**
 * Bit stuffing of CAN frames (Bosch CAN Specification 2.0, bit stuffing): the
 * transmitter inserts a complementary bit after five equal ones. The counter
 * of canframelen.c looks at windows of five bits instead.
 */
module CanStuffing {
  import opened CanBits

  // ---- One bit at a time ----

  /** The run length after bit `b`, when the last `run` bits were `last`. */
  function RunAfter(b: bool, last: bool, run: nat): nat {
    if b == last then run + 1 else 1
  }

  /** The bits on the wire for `bits[i..]`, stuff bits included. */
  function StuffFrom(bits: seq<bool>, i: nat, last: bool, run: nat): seq<bool>
    requires i <= |bits|
    decreases |bits| - i
  {
    if i == |bits| then []
    else if RunAfter(bits[i], last, run) == 5 then
      [bits[i], !bits[i]] + StuffFrom(bits, i + 1, !bits[i], 1)
    else
      [bits[i]] + StuffFrom(bits, i + 1, bits[i], RunAfter(bits[i], last, run))
  }

  function Stuffed(bits: seq<bool>): seq<bool> {
    StuffFrom(bits, 0, false, 0)
  }

  /** The number of bits inserted. */
  ghost function Count(bits: seq<bool>, i: nat, last: bool, run: nat): nat
    requires i <= |bits|
    decreases |bits| - i
  {
    if i == |bits| then 0
    else if RunAfter(bits[i], last, run) == 5 then 1 + Count(bits, i + 1, !bits[i], 1)
    else Count(bits, i + 1, bits[i], RunAfter(bits[i], last, run))
  }

  lemma {:induction false} StuffedLength(bits: seq<bool>, i: nat, last: bool, run: nat)
    requires i <= |bits|
    ensures |StuffFrom(bits, i, last, run)| == |bits| - i + Count(bits, i, last, run)
    decreases |bits| - i
  {
    if i < |bits| {
      if RunAfter(bits[i], last, run) == 5 {
        StuffedLength(bits, i + 1, !bits[i], 1);
      } else {
        StuffedLength(bits, i + 1, bits[i], RunAfter(bits[i], last, run));
      }
    }
  }

  /** The receiver drops the bit after five equal ones. */
  function Destuff(s: seq<bool>, last: bool, run: nat): seq<bool> {
    if s == [] then []
    else if run == 5 then Destuff(s[1..], s[0], 1)
    else [s[0]] + Destuff(s[1..], s[0], RunAfter(s[0], last, run))
  }

  /** Destuffing undoes stuffing. */
  lemma {:induction false} DestuffStuffed(bits: seq<bool>, i: nat, last: bool, run: nat)
    requires i <= |bits| && run < 5
    ensures Destuff(StuffFrom(bits, i, last, run), last, run) == bits[i..]
    decreases |bits| - i
  {
    if i < |bits| {
      var b, s := bits[i], StuffFrom(bits, i, last, run);
      if RunAfter(b, last, run) == 5 {
        var t := StuffFrom(bits, i + 1, !b, 1);
        assert s[1..] == [!b] + t && ([!b] + t)[1..] == t;
        DestuffStuffed(bits, i + 1, !b, 1);
      } else {
        assert s[1..] == StuffFrom(bits, i + 1, b, RunAfter(b, last, run));
        DestuffStuffed(bits, i + 1, b, RunAfter(b, last, run));
      }
      assert bits[i..] == [b] + bits[i + 1..];
    }
  }

  /** No run grows beyond five bits. */
  ghost predicate RunsOfFive(s: seq<bool>, last: bool, run: nat) {
    s == [] || (RunAfter(s[0], last, run) <= 5 && RunsOfFive(s[1..], s[0], RunAfter(s[0], last, run)))
  }

  lemma {:induction false} StuffedRuns(bits: seq<bool>, i: nat, last: bool, run: nat)
    requires i <= |bits| && run < 5
    ensures RunsOfFive(StuffFrom(bits, i, last, run), last, run)
    decreases |bits| - i
  {
    if i < |bits| {
      var b, s := bits[i], StuffFrom(bits, i, last, run);
      if RunAfter(b, last, run) == 5 {
        var t := StuffFrom(bits, i + 1, !b, 1);
        assert s[1..] == [!b] + t && ([!b] + t)[1..] == t;
        StuffedRuns(bits, i + 1, !b, 1);
      } else {
        assert s[1..] == StuffFrom(bits, i + 1, b, RunAfter(b, last, run));
        StuffedRuns(bits, i + 1, b, RunAfter(b, last, run));
      }
    }
  }

  lemma {:induction false} EqualPrefix(s: seq<bool>, v: bool, run: nat, m: nat)
    requires RunsOfFive(s, v, run) && m <= |s| && forall j :: 0 <= j < m ==> s[j] == v
    ensures m > 0 ==> run + m <= 5
    decreases m
  {
    if m > 0 {
      EqualPrefix(s[1..], v, run + 1, m - 1);
    }
  }

  /** Six equal bits in a row cannot happen. */
  lemma {:induction false} NoSixEqual(s: seq<bool>, last: bool, run: nat, k: nat)
    requires RunsOfFive(s, last, run) && k + 6 <= |s|
    ensures exists j :: k < j < k + 6 && s[j] != s[k]
    decreases k
  {
    var rest := s[1..];
    if k == 0 {
      if forall j :: 0 < j < 6 ==> s[j] == s[0] {
        EqualPrefix(rest, s[0], RunAfter(s[0], last, run), 5);
      }
    } else {
      NoSixEqual(rest, s[0], RunAfter(s[0], last, run), k - 1);
      var j :| k - 1 < j < k - 1 + 6 && rest[j] != rest[k - 1];
      assert s[j + 1] != s[k];
    }
  }

  /** At most one stuff bit for every four bits after the first. */
  lemma {:induction false} CountBound(bits: seq<bool>, i: nat, last: bool, run: nat)
    requires i <= |bits| && run < 5 && |bits| - i + run >= 1
    ensures 4 * Count(bits, i, last, run) <= |bits| - i + run - 1
    decreases |bits| - i
  {
    if i < |bits| {
      if RunAfter(bits[i], last, run) == 5 {
        CountBound(bits, i + 1, !bits[i], 1);
      } else {
        CountBound(bits, i + 1, bits[i], RunAfter(bits[i], last, run));
      }
    }
  }

  /** Further bits take away no stuff bit, and add at most one for every four of them. */
  lemma {:induction false} CountFront(front: seq<bool>, rest: seq<bool>, i: nat, last: bool, run: nat)
    requires i <= |front| && run < 5
    ensures Count(front, i, last, run) <= Count(front + rest, i, last, run)
    ensures 4 * (Count(front + rest, i, last, run) - Count(front, i, last, run)) <= |rest| + 3
    decreases |front| - i
  {
    if i == |front| {
      if rest != [] {
        CountBound(front + rest, i, last, run);
      }
    } else if RunAfter(front[i], last, run) == 5 {
      CountFront(front, rest, i + 1, !front[i], 1);
    } else {
      CountFront(front, rest, i + 1, front[i], RunAfter(front[i], last, run));
    }
  }

  // ---- Runs ----

  ghost predicate AllEqual(bits: seq<bool>, i: nat, m: nat, p: bool) {
    i + m <= |bits| && forall j :: i <= j < i + m ==> bits[j] == p
  }

  /** A run that stays below five inserts nothing. */
  lemma {:induction false} ShortRun(bits: seq<bool>, i: nat, m: nat, p: bool, run: nat)
    requires AllEqual(bits, i, m, p) && run + m < 5
    ensures Count(bits, i, p, run) == Count(bits, i + m, p, run + m)
    decreases m
  {
    if m > 0 {
      ShortRun(bits, i + 1, m - 1, p, run + 1);
    }
  }

  /** A run that reaches five inserts one bit, which starts the next run. */
  lemma FullRun(bits: seq<bool>, i: nat, m: nat, p: bool, run: nat)
    requires AllEqual(bits, i, m, p) && run + m == 5 && m > 0
    ensures Count(bits, i, p, run) == 1 + Count(bits, i + m, !p, 1)
  {
    ShortRun(bits, i, m - 1, p, run);
  }

  /** The same, when the bits may end before the run does. */
  lemma ClippedRun(bits: seq<bool>, i: nat, m: nat, p: bool, run: nat)
    requires i <= |bits| && run + m == 5 && m > 0
    requires AllEqual(bits, i, if i + m <= |bits| then m else |bits| - i, p)
    ensures Count(bits, i, p, run) == if i + m <= |bits| then 1 + Count(bits, i + m, !p, 1) else 0
  {
    if i + m <= |bits| {
      FullRun(bits, i, m, p, run);
    } else {
      ShortRun(bits, i, |bits| - i, p, run);
    }
  }

  /** A run broken at `i` + `m` starts afresh with the other value. */
  lemma BrokenRun(bits: seq<bool>, i: nat, m: nat, p: bool, run: nat)
    requires AllEqual(bits, i, m, p) && run + m < 5
    requires i + m < |bits| ==> bits[i + m] != p
    ensures Count(bits, i, p, run) == Count(bits, i + m, !p, 0)
  {
    ShortRun(bits, i, m, p, run);
  }

  // ---- The most that can be inserted ----

  /** Five equal bits, and then four of the other value again and again. */
  function Blocks(n: nat): seq<bool> {
    seq(n, i requires 0 <= i < n => i > 0 && (i - 1) / 4 % 2 == 1)
  }

  lemma {:induction false} BlocksFrom(n: nat, k: nat)
    requires 1 + 4 * k <= n
    ensures Count(Blocks(n), 1 + 4 * k, k % 2 == 1, 1) == (n - 1) / 4 - k
    decreases n - 4 * k
  {
    var bits, i, p := Blocks(n), 1 + 4 * k, k % 2 == 1;
    forall j | i <= j < i + 4 && j < n ensures bits[j] == p {
      assert (j - 1) / 4 == k;
    }
    if i + 4 <= n {
      FullRun(bits, i, 4, p, 1);
      BlocksFrom(n, k + 1);
    } else {
      ShortRun(bits, i, n - i, p, 1);
    }
  }

  /** As many stuff bits as CountBound allows do occur, for every length. */
  lemma MostStuffed(n: nat)
    requires n > 0
    ensures |Blocks(n)| == n && 4 * Count(Blocks(n), 0, false, 0) <= n - 1 < 4 * (Count(Blocks(n), 0, false, 0) + 1)
  {
    BlocksFrom(n, 0);
    assert Count(Blocks(n), 0, false, 0) == Count(Blocks(n), 1, false, 1);
  }

  // ---- Windows of five bits ----

  /** Bit `j` of a five-bit window. */
  predicate WindowBit(w: bv16, j: nat)
    requires j < 5
  {
    if j == 0 then w & 0x10 != 0
    else if j == 1 then w & 0x08 != 0
    else if j == 2 then w & 0x04 != 0
    else if j == 3 then w & 0x02 != 0
    else w & 0x01 != 0
  }

  /** x >> n, one place at a time. */
  function ShiftRight(x: bv16, n: nat): bv16
    decreases n
  {
    if n == 0 then x else ShiftRight(x >> 1, n - 1)
  }

  function Word(hi: bv8, lo: bv8): bv16 {
    ((hi as bv16) << 8) | (lo as bv16)
  }

  function Window(hi: bv8, lo: bv8, r: nat): bv16
    requires r < 8
  {
    ShiftRight(Word(hi, lo), 16 - 5 - r)
  }

  /** Bit `k` counted from the least significant one. */
  predicate LowBit(x: bv16, k: nat)
    decreases k
  {
    if k == 0 then x & 1 != 0 else LowBit(x >> 1, k - 1)
  }

  lemma {:induction false} LowBitOfShifted(x: bv16, n: nat, k: nat)
    ensures LowBit(ShiftRight(x, n), k) == LowBit(x, n + k)
    decreases n
  {
    if n > 0 {
      LowBitOfShifted(x >> 1, n - 1, k);
    }
  }

  lemma WindowIsLow(w: bv16, j: nat)
    requires j < 5
    ensures WindowBit(w, j) == LowBit(w, 4 - j)
  {
    var w2 := (w >> 1) >> 1;
    if j == 0 {
      assert LowBit(w, 4) == LowBit(w2, 2);
    } else if j == 1 {
      assert LowBit(w, 3) == LowBit(w2, 1);
    } else if j == 2 {
      assert LowBit(w, 2) == LowBit(w2, 0);
    }
  }

  lemma ByteLows(d: bv8, x: bv16)
    requires (x & 0xff) as bv8 == d
    ensures (x & 1 != 0) == Bit(d, 7) && ((x >> 1) & 1 != 0) == Bit(d, 6) && ((x >> 2) & 1 != 0) == Bit(d, 5)
    ensures ((x >> 3) & 1 != 0) == Bit(d, 4) && (((x >> 3) >> 1) & 1 != 0) == Bit(d, 3)
            && (((x >> 3) >> 2) & 1 != 0) == Bit(d, 2)
    ensures (((x >> 3) >> 3) & 1 != 0) == Bit(d, 1) && ((((x >> 3) >> 3) >> 1) & 1 != 0) == Bit(d, 0)
  {
  }

  lemma ThreeDown(x: bv16, i: nat)
    ensures LowBit(x, i + 3) == LowBit(x >> 3, i)
  {
    assert LowBit(x, i + 3) == LowBit(x >> 1, i + 2);
    assert LowBit(x >> 1, i + 2) == LowBit((x >> 1) >> 1, i + 1);
    assert ((x >> 1) >> 1) >> 1 == x >> 3;
  }

  lemma FirstLows(x: bv16, i: nat)
    ensures i == 0 ==> LowBit(x, i) == (x & 1 != 0)
    ensures i == 1 ==> LowBit(x, i) == ((x >> 1) & 1 != 0)
    ensures i == 2 ==> LowBit(x, i) == ((x >> 2) & 1 != 0)
  {
    assert (x >> 1) >> 1 == x >> 2;
  }

  lemma ByteIsLow(d: bv8, x: bv16, m: nat)
    requires m < 8 && (x & 0xff) as bv8 == d
    ensures LowBit(x, m) == Bit(d, 7 - m)
  {
    ByteLows(d, x);
    if m < 3 {
      FirstLows(x, m);
    } else {
      ThreeDown(x, m - 3);
      if m < 6 {
        FirstLows(x >> 3, m - 3);
      } else {
        ThreeDown(x >> 3, m - 6);
        FirstLows((x >> 3) >> 3, m - 6);
      }
    }
  }

  lemma EightDown(x: bv16)
    ensures ShiftRight(x, 8) == x >> 8
  {
    assert ShiftRight(x, 8) == ShiftRight(x >> 2, 6);
    assert ShiftRight(x >> 2, 6) == ShiftRight(x >> 4, 4);
    assert ShiftRight(x >> 4, 4) == ShiftRight(x >> 6, 2);
  }

  lemma WordHalves(hi: bv8, lo: bv8)
    ensures (Word(hi, lo) & 0xff) as bv8 == lo && ((Word(hi, lo) >> 8) & 0xff) as bv8 == hi
  {
  }

  lemma HighByte(hi: bv8, lo: bv8, k: nat)
    requires k < 8
    ensures LowBit(Word(hi, lo), 15 - k) == Bit(hi, k)
  {
    WordHalves(hi, lo);
    LowBitOfShifted(Word(hi, lo), 8, 7 - k);
    EightDown(Word(hi, lo));
    ByteIsLow(hi, Word(hi, lo) >> 8, 7 - k);
  }

  lemma LowByte(hi: bv8, lo: bv8, k: nat)
    requires k < 8
    ensures LowBit(Word(hi, lo), 7 - k) == Bit(lo, k)
  {
    WordHalves(hi, lo);
    ByteIsLow(lo, Word(hi, lo), 7 - k);
  }

  lemma WindowIs(hi: bv8, lo: bv8, r: nat, j: nat)
    requires r < 8 && j < 5
    ensures WindowBit(Window(hi, lo, r), j) == (if r + j < 8 then Bit(hi, r + j) else Bit(lo, r + j - 8))
  {
    WindowIsLow(Window(hi, lo, r), j);
    LowBitOfShifted(Word(hi, lo), 11 - r, 4 - j);
    if r + j < 8 {
      HighByte(hi, lo, r + j);
    } else {
      LowByte(hi, lo, r + j - 8);
    }
  }

  /** The window at bit `i` of a bitmap. */
  lemma WindowAt(bitmap: seq<bv8>, i: nat, j: nat)
    requires i / 8 + 1 < |bitmap| && j < 5
    ensures WindowBit(Window(bitmap[i / 8], bitmap[i / 8 + 1], i % 8), j) == BitAt(bitmap, i + j)
  {
    WindowIs(bitmap[i / 8], bitmap[i / 8 + 1], i % 8, j);
    if i % 8 + j < 8 {
      assert (i + j) / 8 == i / 8 && (i + j) % 8 == i % 8 + j;
    } else {
      assert (i + j) / 8 == i / 8 + 1 && (i + j) % 8 == i % 8 + j - 8;
    }
  }

  /** The number of leading zeros of a five-bit number, by table. */
  function Clz(change: bv16): nat {
    if change & 0x10 == 0 then
      Pick(change, 5, 4, 3, 3, 2, 2, 2, 2, 1, 1, 1, 1, 1, 1, 1, 1)
    else
      Pick(change, 0, 0, 0, 0, 0, 0, 0, 0, 0, 0, 0, 0, 0, 0, 0, 0)
  }

  function Change(w: bv16, mask: bv16, p: bool): bv16 {
    (w & mask) ^ (if p then mask else 0)
  }

  /** How many bits a mask looks at. */
  function Width(mask: bv16): nat {
    if mask == 0x1f then 5 else 4
  }

  lemma NoChange(w: bv16, mask: bv16, p: bool, j: nat)
    requires (mask == 0x1f || mask == 0x1e) && j < Width(mask)
    requires Change(w, mask, p) == 0
    ensures WindowBit(w, j) == p
  {
  }

  lemma FirstChange(w: bv16, mask: bv16, p: bool, j: nat)
    requires mask == 0x1f || mask == 0x1e
    requires Change(w, mask, p) != 0
    ensures var c := Clz(Change(w, mask, p));
            && c < Width(mask) && WindowBit(w, c) != p && (j < c ==> WindowBit(w, j) == p)
  {
  }

  /**
   * Looks at the window at bit `i`: `c` bits equal `p` (the wanted value) and
   * the next one differs, unless all bits under the mask equal `p`.
   */
  method Scan(bitmap: seq<bv8>, i: nat, mask: bv16, lookfor: bv16, ghost p: bool) returns (changed: bool, c: nat)
    requires i / 8 + 1 < |bitmap| && (mask == 0x1f || mask == 0x1e)
    requires lookfor == if p then mask else 0
    ensures changed ==> c < Width(mask) && BitAt(bitmap, i + c) != p
    ensures !changed ==> c == Width(mask)
    ensures forall j :: i <= j < i + c ==> BitAt(bitmap, j) == p
  {
    var w := Window(bitmap[i / 8], bitmap[i / 8 + 1], i % 8);
    var change := (w & mask) ^ lookfor;
    changed := change != 0;
    c := if changed then Clz(change) else if mask == 0x1f then 5 else 4;
    if changed {
      FirstChange(w, mask, p, 0);
      WindowAt(bitmap, i, c);
    }
    forall j | i <= j < i + c ensures BitAt(bitmap, j) == p {
      WindowAt(bitmap, i, j - i);
      if changed {
        FirstChange(w, mask, p, j - i);
      } else {
        NoChange(w, mask, p, j - i);
      }
    }
  }

  /** What is left to count at bit `i`, looking for `p` after `run` equal bits. */
  ghost function Left(bitmap: seq<bv8>, start: nat, end: nat, i: nat, p: bool, run: nat): nat
    requires start <= end <= 8 * |bitmap| && start <= i
  {
    if i <= end then Count(BitsOf(bitmap, start, end), i - start, p, run) else 0
  }

  lemma Clipped(bitmap: seq<bv8>, start: nat, end: nat, i: nat, m: nat, p: bool)
    requires start <= i <= end <= 8 * |bitmap|
    requires forall j :: i <= j < i + m && j < end ==> BitAt(bitmap, j) == p
    ensures AllEqual(BitsOf(bitmap, start, end), i - start, if i + m <= end then m else end - i, p)
  {
  }

  lemma LeftAfterChange(bitmap: seq<bv8>, start: nat, end: nat, i: nat, c: nat, p: bool, run: nat)
    requires start <= i <= end <= 8 * |bitmap| && run + c < 5
    requires forall j :: i <= j < i + c && j < end ==> BitAt(bitmap, j) == p
    requires i + c < end ==> BitAt(bitmap, i + c) != p
    ensures Left(bitmap, start, end, i, p, run) == Left(bitmap, start, end, i + c, !p, 0)
  {
    Clipped(bitmap, start, end, i, c, p);
    BrokenRun(BitsOf(bitmap, start, end), i - start, if i + c <= end then c else end - i, p, run);
  }

  lemma LeftAfterRun(bitmap: seq<bv8>, start: nat, end: nat, i: nat, m: nat, p: bool, run: nat)
    requires start <= i <= end <= 8 * |bitmap| && run + m == 5 && m > 0
    requires forall j :: i <= j < i + m && j < end ==> BitAt(bitmap, j) == p
    ensures Left(bitmap, start, end, i, p, run)
         == if i + m <= end then 1 + Left(bitmap, start, end, i + m, !p, 1) else 0
  {
    var bits := BitsOf(bitmap, start, end);
    assert AllEqual(bits, i - start, if i + m <= end then m else end - i, p) by {
      Clipped(bitmap, start, end, i, m, p);
    }
    ClippedRun(bits, i - start, m, p, run);
  }

  /** One window: how far to go on, under which mask, and whether a stuff bit was found. */
  method CountStep(bitmap: seq<bv8>, ghost start: nat, end: nat, i: nat, mask: bv16, lookfor: bv16, ghost p: bool)
    returns (i': nat, mask': bv16, one: nat)
    requires start <= i < end && end + 8 <= 8 * |bitmap| && (mask == 0x1f || mask == 0x1e)
    requires lookfor == if p then mask else 0
    ensures (i' > i || (i' == i && BitAt(bitmap, i) != p)) && (mask' == 0x1f || mask' == 0x1e)
    ensures one + Left(bitmap, start, end, i', !p, 5 - Width(mask')) == Left(bitmap, start, end, i, p, 5 - Width(mask))
  {
    var changed, c := Scan(bitmap, i, mask, lookfor, p);
    mask', one := mask, 0;
    if changed {
      LeftAfterChange(bitmap, start, end, i, c, p, 5 - Width(mask));
      i' := i + c;
      mask' := 0x1f;
    } else {
      LeftAfterRun(bitmap, start, end, i, c, p, 5 - Width(mask));
      i' := i + if mask == 0x1f then 5 else 4;
      if i' <= end {
        one := 1;
        mask' := 0x1e;
      }
    }
  }

  /** The counter of cfl_exact(): windows alternate between looking for ones and for zeros. */
  method CountStuffBits(bitmap: seq<bv8>, start: nat, end: nat) returns (stuffed: nat)
    requires start <= end && end + 8 <= 8 * |bitmap|
    ensures |Stuffed(BitsOf(bitmap, start, end))| == end - start + stuffed
  {
    var mask, lookfor: bv16 := 0x1f, 0;
    var i := start;
    stuffed := 0;
    ghost var total := Count(BitsOf(bitmap, start, end), 0, false, 0);
    ghost var p := true;
    FirstValueIrrelevant(BitsOf(bitmap, start, end));
    while i < end
      invariant start <= i && (mask == 0x1f || mask == 0x1e)
      invariant p == (lookfor == 0)
      invariant stuffed + Left(bitmap, start, end, i, p, 5 - Width(mask)) == total
      decreases end - i, if i < end && BitAt(bitmap, i) == p then 0 else 1
    {
      lookfor := if lookfor != 0 then 0 else mask;
      var one;
      i, mask, one := CountStep(bitmap, start, end, i, mask, lookfor, p);
      stuffed := stuffed + one;
      p := !p;
    }
    StuffedLength(BitsOf(bitmap, start, end), 0, false, 0);
  }

  lemma FirstValueIrrelevant(bits: seq<bool>)
    ensures Count(bits, 0, true, 0) == Count(bits, 0, false, 0)
  {
  }
}
