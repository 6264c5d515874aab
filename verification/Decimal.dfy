/**
 * Decimal text of 64-bit signed integers: the strict parser `string2ll` of
 * read.c, the printer `sdsll2str` of sds.c and `countDigits` of hiredis.c.
 */
module Decimal {
  import opened Bytes

  const LLONG_MIN: int := -0x8000_0000_0000_0000
  const LLONG_MAX: int := 0x7fff_ffff_ffff_ffff
  const ULLONG_MAX: int := 0xffff_ffff_ffff_ffff
  const MINUS: byte := 45
  const ZERO: byte := 48

  predicate IsDigit(b: byte) {
    48 <= b <= 57
  }

  /** The canonical decimal digits of `n`, most significant first. */
  function Digits(n: nat): (s: seq<byte>)
    ensures |s| > 0
  {
    if n < 10 then [(48 + n) as byte] else Digits(n / 10) + [(48 + n % 10) as byte]
  }

  /** The canonical decimal text of `v`. */
  function Text(v: int): (s: seq<byte>) {
    if v < 0 then [MINUS] + Digits(-v) else Digits(v)
  }

  /** The 64-bit integer whose canonical text is `s`, if there is one. */
  ghost function IntOf(s: seq<byte>): Option<int> {
    if exists v :: LLONG_MIN <= v <= LLONG_MAX && Text(v) == s then
      var v :| LLONG_MIN <= v <= LLONG_MAX && Text(v) == s;
      Some(v)
    else
      None
  }

  /** A nonempty digit string without a superfluous leading zero. */
  ghost predicate Canonical(s: seq<byte>) {
    |s| > 0 && (forall i :: 0 <= i < |s| ==> IsDigit(s[i])) && (|s| > 1 ==> s[0] != ZERO)
  }

  ghost function ValueOf(s: seq<byte>): int {
    if s == [] then 0 else ValueOf(s[..|s| - 1]) * 10 + (s[|s| - 1] as int - 48)
  }

  lemma {:induction false} DigitsAreCanonical(n: nat)
    ensures Canonical(Digits(n)) && ValueOf(Digits(n)) == n
    ensures Digits(n)[0] == ZERO ==> n == 0
  {
    if n < 10 {
      assert ValueOf(Digits(n)[..0]) == 0;
    } else {
      DigitsAreCanonical(n / 10);
      var d := Digits(n / 10);
      assert Digits(n)[..|d|] == d;
      assert Digits(n)[0] == d[0];
    }
  }

  lemma {:induction false} CanonicalIsDigits(s: seq<byte>)
    requires Canonical(s)
    ensures 0 <= ValueOf(s) && Digits(ValueOf(s)) == s
    ensures s[0] != ZERO ==> ValueOf(s) > 0
  {
    if |s| == 1 {
      assert ValueOf(s[..0]) == 0;
      assert s == [s[0]];
    } else {
      var t := s[..|s| - 1];
      assert t[0] == s[0];
      CanonicalIsDigits(t);
      assert s == t + [s[|s| - 1]];
    }
  }

  /** Distinct integers have distinct texts. */
  lemma TextInjective(a: int, b: int)
    requires Text(a) == Text(b)
    ensures a == b
  {
    DigitsAreCanonical(if a < 0 then -a else a);
    DigitsAreCanonical(if b < 0 then -b else b);
    assert a < 0 ==> Text(a)[0] == MINUS && Text(a)[1..] == Digits(-a);
    assert b < 0 ==> Text(b)[0] == MINUS && Text(b)[1..] == Digits(-b);
  }

  /** Reading back the text of a 64-bit integer recovers it. */
  lemma IntOfText(v: int)
    requires LLONG_MIN <= v <= LLONG_MAX
    ensures IntOf(Text(v)) == Some(v)
  {
    var w :| IntOf(Text(v)) == Some(w) && LLONG_MIN <= w <= LLONG_MAX && Text(w) == Text(v);
    TextInjective(v, w);
  }

  /** What a text must look like: an optional minus sign, then canonical digits. */
  lemma TextShape(s: seq<byte>, v: int)
    requires Text(v) == s
    ensures |s| > 0
    ensures v < 0 ==> s[0] == MINUS && Canonical(s[1..]) && s[1] != ZERO && ValueOf(s[1..]) == -v
    ensures v >= 0 ==> Canonical(s) && ValueOf(s) == v
  {
    DigitsAreCanonical(if v < 0 then -v else v);
    if v < 0 {
      assert s[1..] == Digits(-v);
    }
  }

  lemma {:induction false} PrefixBounds(s: seq<byte>, k: nat)
    requires k <= |s|
    requires forall i :: 0 <= i < |s| ==> IsDigit(s[i])
    ensures 0 <= ValueOf(s[..k]) <= ValueOf(s)
  {
    if k < |s| {
      PrefixBounds(s[..|s| - 1], k);
      assert s[..|s| - 1][..k] == s[..k];
    } else {
      assert s[..k] == s;
      if k > 0 {
        PrefixBounds(s[..k - 1], k - 1);
        assert s[..k - 1][..k - 1] == s[..k - 1];
      }
    }
  }

  /** The part of a text after its sign is canonical and holds the magnitude. */
  lemma TextAfterSign(s: seq<byte>, v: int, first: nat)
    requires Text(v) == s
    requires first < |s| && first == (if s[0] == MINUS then 1 else 0)
    ensures first == (if v < 0 then 1 else 0)
    ensures Canonical(s[first..]) && ValueOf(s[first..]) == (if v < 0 then -v else v)
    ensures s[first] == ZERO ==> |s| == 1
  {
    TextShape(s, v);
    if v >= 0 {
      assert IsDigit(s[0]);
      assert s[first..] == s;
    }
  }

  /** What every text of a 64-bit integer satisfies, `first` being past its sign. */
  lemma AcceptedShape(s: seq<byte>, first: nat, k: nat)
    requires IntOf(s).Some?
    requires first < |s| && first <= k <= |s| && first == (if s[0] == MINUS then 1 else 0)
    ensures k < |s| ==> IsDigit(s[k])
    ensures s[first] == ZERO ==> |s| == 1
    ensures ValueOf(s[first..k]) <= (if first == 1 then -LLONG_MIN else LLONG_MAX)
  {
    var v :| LLONG_MIN <= v <= LLONG_MAX && Text(v) == s;
    TextAfterSign(s, v, first);
    DigitsShape(s[first..], k - first, if v < 0 then -v else v);
    assert s[first..][..k - first] == s[first..k];
  }

  lemma DigitsShape(d: seq<byte>, k: nat, n: nat)
    requires Canonical(d) && ValueOf(d) == n && k <= |d|
    ensures k < |d| ==> IsDigit(d[k])
    ensures ValueOf(d[..k]) <= n
  {
    PrefixBounds(d, k);
  }

  /** A string that breaks one of those conditions is refused. */
  lemma NotAText(s: seq<byte>, first: nat, bad: nat)
    requires first < |s| && first <= bad <= |s| && first == (if s[0] == MINUS then 1 else 0)
    requires || (bad < |s| && !IsDigit(s[bad]))
             || (s[first] == ZERO && |s| > 1)
             || ValueOf(s[first..bad]) > (if first == 1 then -LLONG_MIN else LLONG_MAX)
    ensures IntOf(s) == None
  {
    if IntOf(s).Some? {
      AcceptedShape(s, first, bad);
    }
  }

  /** Canonical digits within range, after the sign, are the text of their value. */
  lemma IsAText(s: seq<byte>, first: nat)
    requires first < |s| && first == (if s[0] == MINUS then 1 else 0)
    requires Canonical(s[first..]) && s[first] != ZERO
    requires ValueOf(s[first..]) <= (if first == 1 then -LLONG_MIN else LLONG_MAX)
    ensures IntOf(s) == Some(if first == 1 then -ValueOf(s[first..]) else ValueOf(s[first..]))
  {
    CanonicalIsDigits(s[first..]);
    var v := if first == 1 then -ValueOf(s[first..]) else ValueOf(s[first..]);
    assert Text(v) == s;
    IntOfText(v);
  }

  lemma ValueOfNext(s: seq<byte>, first: nat, k: nat)
    requires first <= k < |s|
    ensures ValueOf(s[first..k + 1]) == ValueOf(s[first..k]) * 10 + (s[k] as int - 48)
  {
    assert s[first..k + 1][..k - first] == s[first..k];
  }

  /**
   * The digit loop of `string2ll`: reads on from the first digit, giving up
   * when the value leaves the unsigned 64-bit range.
   */
  method ReadDigits(s: seq<byte>, first: nat) returns (plen: nat, v: nat, overflow: bool)
    requires first < |s| && 49 <= s[first] <= 57
    ensures first < plen <= |s|
    ensures forall i :: first <= i < plen ==> IsDigit(s[i])
    ensures overflow ==> ValueOf(s[first..plen]) > ULLONG_MAX
    ensures !overflow ==> v == ValueOf(s[first..plen]) && (plen == |s| || !IsDigit(s[plen]))
  {
    v := s[first] as int - 48;
    plen := first + 1;
    ValueOfNext(s, first, first);
    while plen < |s| && 48 <= s[plen] <= 57
      invariant first < plen <= |s|
      invariant forall i :: first <= i < plen ==> IsDigit(s[i])
      invariant v == ValueOf(s[first..plen]) && v <= ULLONG_MAX
    {
      ValueOfNext(s, first, plen);
      if v > ULLONG_MAX / 10 {
        return plen + 1, v, true;
      }
      v := v * 10;
      if v > ULLONG_MAX - (s[plen] as int - 48) {
        return plen + 1, v, true;
      }
      v := v + (s[plen] as int - 48);
      plen := plen + 1;
    }
    overflow := false;
  }

  /**
   * The strict parser: succeeds exactly on the canonical texts of 64-bit
   * signed integers.
   */
  method String2ll(s: seq<byte>) returns (r: Option<int>)
    ensures r == IntOf(s)
  {
    var slen := |s|;
    if slen == 0 {
      return None;
    }
    if slen == 1 && s[0] == 48 {
      IntOfText(0);
      return Some(0);
    }
    var negative := s[0] == 45;
    var first := if negative then 1 else 0;
    if first == slen {
      if v :| Text(v) == s { TextShape(s, v); }
      return None;
    }
    if !(49 <= s[first] <= 57) {
      NotAText(s, first, first);
      return None;
    }
    var plen, v, overflow := ReadDigits(s, first);
    if overflow || plen < slen || v > (if negative then -(LLONG_MIN + 1) + 1 else LLONG_MAX) {
      NotAText(s, first, plen);
      return None;
    }
    assert s[first..plen] == s[first..];
    IsAText(s, first);
    return Some(if negative then -v else v);
  }

  ghost function Reversed(s: seq<byte>): (r: seq<byte>)
    ensures |r| == |s|
    ensures forall i :: 0 <= i < |s| ==> r[i] == s[|s| - 1 - i]
  {
    seq(|s|, i requires 0 <= i < |s| => s[|s| - 1 - i])
  }

  ghost function Pow10(k: nat): (p: int)
    ensures p > 0
  {
    if k == 0 then 1 else 10 * Pow10(k - 1)
  }

  lemma {:induction false} DigitsLength(n: nat, k: nat)
    requires k > 0 && n < Pow10(k)
    ensures |Digits(n)| <= k
  {
    if n >= 10 {
      DigitsLength(n / 10, k - 1);
    }
  }

  const SDS_LLSTR_SIZE: nat := 21

  lemma LlongDigits(n: nat)
    requires n <= -LLONG_MIN
    ensures |Digits(n)| <= 19
  {
    assert Pow10(5) == 10_0000;
    assert Pow10(10) == 100_0000_0000;
    assert Pow10(15) == 1000_0000_0000_0000;
    DigitsLength(n, 19);
  }

  /** The digits still to be printed above the ones already written. */
  ghost function HighDigits(v: nat): seq<byte> {
    if v == 0 then [] else Digits(v)
  }

  lemma HighDigitsNext(v: nat, printed: seq<byte>)
    requires v > 0
    ensures HighDigits(v) + Reversed(printed)
         == HighDigits(v / 10) + Reversed(printed + [(48 + v % 10) as byte])
  {
    var d := (48 + v % 10) as byte;
    assert HighDigits(v) == HighDigits(v / 10) + [d];
    assert Reversed(printed + [d]) == [d] + Reversed(printed);
  }

  /** The digit loop of `sdsll2str`: least significant digit first. */
  method PrintReversed(s: array<byte>, n: nat) returns (p: nat)
    requires |Digits(n)| < s.Length
    modifies s
    ensures p == |Digits(n)| && Reversed(s[..p]) == Digits(n)
    ensures s[p..] == old(s[p..])
  {
    var v := n;
    s[0] := (48 + v % 10) as byte;
    p := 1;
    v := v / 10;
    assert Reversed(s[..1]) == [(48 + n % 10) as byte];
    while v != 0
      invariant 0 < p <= |Digits(n)| && 0 <= v
      invariant Digits(n) == HighDigits(v) + Reversed(s[..p])
      invariant s[p..] == old(s[p..])
    {
      ghost var before, after := s[..p], s[p..];
      var d := (48 + v % 10) as byte;
      HighDigitsNext(v, before);
      s[p] := d;
      assert s[..p + 1] == before + [d];
      assert s[p + 1..] == after[1..];
      p := p + 1;
      v := v / 10;
    }
  }

  /** The reversal loop of `sdsll2str`. */
  method ReverseFirst(s: array<byte>, l: nat)
    requires l <= s.Length
    modifies s
    ensures s[..l] == Reversed(old(s[..l])) && s[l..] == old(s[l..])
  {
    var lo, hi := 0, l - 1;
    while lo < hi
      invariant 0 <= lo <= hi + 1 <= l && lo + hi == l - 1
      invariant forall i :: lo <= i <= hi ==> s[i] == old(s[i])
      invariant forall i :: 0 <= i < lo || hi < i < l ==> s[i] == old(s[l - 1 - i])
      invariant s[l..] == old(s[l..])
    {
      s[lo], s[hi] := s[hi], s[lo];
      lo, hi := lo + 1, hi - 1;
    }
  }

  /** Prints `value` at the start of `s`, NUL terminated, and returns the length. */
  method Ll2str(s: array<byte>, value: int) returns (l: nat)
    requires s.Length >= SDS_LLSTR_SIZE
    requires LLONG_MIN <= value <= LLONG_MAX
    modifies s
    ensures l < s.Length && s[..l] == Text(value) && s[l] == 0
    ensures s[l + 1..] == old(s[l + 1..])
  {
    var v := if value < 0 then -value else value;
    LlongDigits(v);
    l := PrintReversed(s, v);
    ghost var digits, rest := s[..l], s[l..];
    if value < 0 {
      s[l] := 45;
      l := l + 1;
      assert s[..l] == digits + [MINUS];
      assert Reversed(s[..l]) == [MINUS] + Reversed(digits);
      assert s[l..] == rest[1..];
    }
    assert Reversed(s[..l]) == Text(value);
    ghost var tail := s[l + 1..];
    s[l] := 0;
    ReverseFirst(s, l);
    assert s[l] == s[l..][0] && s[l + 1..] == s[l..][1..];
  }

  /** The number of decimal digits, found four at a time. */
  method CountDigits(v: nat) returns (result: nat)
    ensures result == |Digits(v)|
  {
    var w := v;
    result := 1;
    while true
      invariant |Digits(v)| == |Digits(w)| + result - 1
      decreases w
    {
      if w < 10 { return result; }
      if w < 100 { return result + 1; }
      assert |Digits(w)| == |Digits(w / 10 / 10)| + 2;
      if w < 1000 { return result + 2; }
      if w < 10000 { return result + 3; }
      assert w / 10 / 10 / 10 / 10 == w / 10000;
      assert |Digits(w / 10 / 10)| == |Digits(w / 10 / 10 / 10 / 10)| + 2;
      w := w / 10000;
      result := result + 4;
    }
  }
}
