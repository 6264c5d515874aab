/**
 * Quoted strings of sds.c: sdscatrepr() writes one, sdssplitargs() splits a
 * line of quoted and plain arguments.
 */
module SdsRepr {
  import opened Bytes

  const QUOTE: byte := 34
  const APOSTROPHE: byte := 39
  const BACKSLASH: byte := 92
  const LETTER_X: byte := 120

  /** isprint() of some locale; no locale prints NUL. */
  type Printable = f: byte -> bool | !f(0) witness b => false

  predicate IsSpace(b: byte) { b == 32 || 9 <= b <= 13 }

  predicate IsXDigit(b: byte) { 48 <= b <= 57 || 65 <= b <= 70 || 97 <= b <= 102 }

  /** hex_digit_to_int() */
  function HexDigitToInt(b: byte): (n: int)
    ensures 0 <= n < 16
  {
    if 48 <= b <= 57 then (b - 48) as int
    else if 65 <= b <= 70 then (b - 55) as int
    else if 97 <= b <= 102 then (b - 87) as int
    else 0
  }

  /** A digit of printf's %x. */
  function LowerHex(n: int): byte
    requires 0 <= n < 16
  {
    if n < 10 then 48 + n as byte else 87 + n as byte
  }

  // ---- Writing ----

  /** The letter after the backslash for the characters that have one. */
  function EscapeLetter(b: byte): byte {
    if b == 10 then 110 else if b == 13 then 114 else if b == 9 then 116
    else if b == 7 then 97 else if b == 8 then 98 else 0
  }

  function Escape(b: byte, printable: Printable): seq<byte> {
    if b == BACKSLASH || b == QUOTE then [BACKSLASH, b]
    else if EscapeLetter(b) != 0 then [BACKSLASH, EscapeLetter(b)]
    else if printable(b) then [b]
    else [BACKSLASH, LETTER_X, LowerHex(b as int / 16), LowerHex(b as int % 16)]
  }

  function Escaped(p: seq<byte>, printable: Printable): seq<byte> {
    if p == [] then [] else Escape(p[0], printable) + Escaped(p[1..], printable)
  }

  function Repr(p: seq<byte>, printable: Printable): seq<byte> {
    [QUOTE] + Escaped(p, printable) + [QUOTE]
  }

  lemma {:induction false} EscapedSnoc(p: seq<byte>, b: byte, printable: Printable)
    ensures Escaped(p + [b], printable) == Escaped(p, printable) + Escape(b, printable)
  {
    if p == [] {
      assert p + [b] == [b] && [b][1..] == [];
    } else {
      assert (p + [b])[1..] == p[1..] + [b];
      EscapedSnoc(p[1..], b, printable);
    }
  }

  /** sdscatrepr() */
  method CatRepr(s: seq<byte>, p: seq<byte>, printable: Printable) returns (r: seq<byte>)
    ensures r == s + Repr(p, printable)
  {
    r := CatEscaped(s + [QUOTE], p, printable);
    r := r + [QUOTE];
  }

  /** The loop of sdscatrepr(). */
  method CatEscaped(s: seq<byte>, p: seq<byte>, printable: Printable) returns (r: seq<byte>)
    ensures r == s + Escaped(p, printable)
  {
    r := s;
    for i := 0 to |p|
      invariant r == s + Escaped(p[..i], printable)
    {
      var escape := CatChar(p[i], printable);
      EscapedSnoc(p[..i], p[i], printable);
      assert p[..i + 1] == p[..i] + [p[i]];
      r := r + escape;
    }
    assert p[..|p|] == p;
  }

  /** The switch of sdscatrepr(). */
  method CatChar(b: byte, printable: Printable) returns (r: seq<byte>)
    ensures r == Escape(b, printable)
  {
    match b {
      case 92 => r := [BACKSLASH, b];
      case 34 => r := [BACKSLASH, b];
      case 10 => r := [BACKSLASH, 110];
      case 13 => r := [BACKSLASH, 114];
      case 9 => r := [BACKSLASH, 116];
      case 7 => r := [BACKSLASH, 97];
      case 8 => r := [BACKSLASH, 98];
      case _ =>
        if printable(b) {
          r := [b];
        } else {
          r := [BACKSLASH, LETTER_X, LowerHex(b as int / 16), LowerHex(b as int % 16)];
        }
    }
  }

  // ---- Splitting ----

  datatype Mode = Plain | Quoted | SingleQuoted

  /** A token and the rest of the line, or unbalanced quotes. */
  datatype Token = Unbalanced | Token(text: seq<byte>, rest: seq<byte>)

  /** Reading past the end gives the terminator. */
  function At(s: seq<byte>, i: nat): byte {
    if i < |s| then s[i] else 0
  }

  /** The character meant by a backslash and a letter. */
  function Unescape(b: byte): byte {
    if b == 110 then 10 else if b == 114 then 13 else if b == 116 then 9
    else if b == 98 then 8 else if b == 97 then 7 else b
  }

  predicate IsHexEscape(s: seq<byte>) {
    At(s, 0) == BACKSLASH && At(s, 1) == LETTER_X && IsXDigit(At(s, 2)) && IsXDigit(At(s, 3))
  }

  /** The octet of a \\xhh escape. */
  function HexOctet(s: seq<byte>): byte
    requires IsHexEscape(s)
  {
    (HexDigitToInt(s[2]) * 16 + HexDigitToInt(s[3])) as byte
  }

  /** A closing quote ends the token unless something other than a space follows it. */
  function Close(s: seq<byte>, current: seq<byte>): Token
    requires s != []
  {
    if At(s, 1) != 0 && !IsSpace(At(s, 1)) then Unbalanced else Token(current, s[1..])
  }

  /** A token of which `current` has been read already. */
  function Scan(s: seq<byte>, mode: Mode, current: seq<byte>): (t: Token)
    ensures t.Token? ==> |t.rest| <= |s|
    ensures t.Token? && (mode.Plain? ==> s != [] && s[0] !in {32, 10, 13, 9, 0}) ==> |t.rest| < |s|
    decreases |s|
  {
    if s == [] || s[0] == 0 then
      if mode.Plain? then Token(current, s) else Unbalanced
    else match mode
      case Quoted =>
        if IsHexEscape(s) then Scan(s[4..], mode, current + [HexOctet(s)])
        else if s[0] == BACKSLASH && At(s, 1) != 0 then Scan(s[2..], mode, current + [Unescape(s[1])])
        else if s[0] == QUOTE then Close(s, current)
        else Scan(s[1..], mode, current + [s[0]])
      case SingleQuoted =>
        if s[0] == BACKSLASH && At(s, 1) == APOSTROPHE then Scan(s[2..], mode, current + [APOSTROPHE])
        else if s[0] == APOSTROPHE then Close(s, current)
        else Scan(s[1..], mode, current + [s[0]])
      case Plain =>
        if s[0] == 32 || s[0] == 10 || s[0] == 13 || s[0] == 9 then Token(current, s[1..])
        else if s[0] == QUOTE then Scan(s[1..], Quoted, current)
        else if s[0] == APOSTROPHE then Scan(s[1..], SingleQuoted, current)
        else Scan(s[1..], Plain, current + [s[0]])
  }

  function SkipBlanks(s: seq<byte>): (r: seq<byte>)
    ensures |r| <= |s| && (r != [] ==> !IsSpace(r[0]))
  {
    if s != [] && IsSpace(s[0]) then SkipBlanks(s[1..]) else s
  }

  /** sdssplitargs(); the line ends at its first NUL. */
  function SplitArgs(line: seq<byte>): Option<seq<seq<byte>>>
    decreases |line|
  {
    var s := SkipBlanks(line);
    if s == [] || s[0] == 0 then Some([])
    else
      var token := Scan(s, Plain, []);
      if token.Unbalanced? then None
      else
        var more := SplitArgs(token.rest);
        if more.None? then None else Some([token.text] + more.value)
  }

  function ModeOf(inq: bool, insq: bool): Mode {
    if inq then Quoted else if insq then SingleQuoted else Plain
  }

  lemma Drops(line: seq<byte>, p: nat, k: nat)
    requires p + k <= |line|
    ensures line[p..][k..] == line[p + k..]
  {
  }

  /** One turn of the token loop inside double quotes. */
  method StepQuoted(line: seq<byte>, start: nat, before: seq<byte>)
    returns (err: bool, done: bool, p: nat, current: seq<byte>)
    requires start <= |line|
    ensures err ==> Scan(line[start..], Quoted, before) == Unbalanced
    ensures !err ==> start < p <= |line|
    ensures !err ==> Scan(line[start..], Quoted, before) ==
                     if done then Token(current, line[p..]) else Scan(line[p..], Quoted, current)
  {
    err, done, p, current := false, false, start, before;
    if At(line, p) == BACKSLASH && At(line, p + 1) == LETTER_X && IsXDigit(At(line, p + 2)) && IsXDigit(At(line, p + 3)) {
      Drops(line, start, 4);
      current := current + [(HexDigitToInt(line[p + 2]) * 16 + HexDigitToInt(line[p + 3])) as byte];
      p := p + 4;
    } else if At(line, p) == BACKSLASH && At(line, p + 1) != 0 {
      Drops(line, start, 2);
      current := current + [Unescape(line[p + 1])];
      p := p + 2;
    } else if At(line, p) == QUOTE {
      Drops(line, start, 1);
      if At(line, p + 1) != 0 && !IsSpace(At(line, p + 1)) { return true, done, p, current; }
      done, p := true, p + 1;
    } else if At(line, p) == 0 {
      err := true;
    } else {
      Drops(line, start, 1);
      current := current + [line[p]];
      p := p + 1;
    }
  }

  /** One turn inside single quotes. */
  method StepSingleQuoted(line: seq<byte>, start: nat, before: seq<byte>)
    returns (err: bool, done: bool, p: nat, current: seq<byte>)
    requires start <= |line|
    ensures err ==> Scan(line[start..], SingleQuoted, before) == Unbalanced
    ensures !err ==> start < p <= |line|
    ensures !err ==> Scan(line[start..], SingleQuoted, before) ==
                     if done then Token(current, line[p..]) else Scan(line[p..], SingleQuoted, current)
  {
    err, done, p, current := false, false, start, before;
    if At(line, p) == BACKSLASH && At(line, p + 1) == APOSTROPHE {
      Drops(line, start, 2);
      current := current + [APOSTROPHE];
      p := p + 2;
    } else if At(line, p) == APOSTROPHE {
      Drops(line, start, 1);
      if At(line, p + 1) != 0 && !IsSpace(At(line, p + 1)) { return true, done, p, current; }
      done, p := true, p + 1;
    } else if At(line, p) == 0 {
      err := true;
    } else {
      Drops(line, start, 1);
      current := current + [line[p]];
      p := p + 1;
    }
  }

  /** One turn outside quotes. */
  method StepPlain(line: seq<byte>, start: nat, before: seq<byte>)
    returns (done: bool, inq: bool, insq: bool, p: nat, current: seq<byte>)
    requires start <= |line|
    ensures start <= p <= |line| && (!done ==> start < p)
    ensures Scan(line[start..], Plain, before) ==
            if done then Token(current, line[p..]) else Scan(line[p..], ModeOf(inq, insq), current)
  {
    done, inq, insq, p, current := false, false, false, start, before;
    if At(line, p) == 0 { return true, inq, insq, p, current; }
    Drops(line, start, 1);
    var c := line[p];
    if c == 32 || c == 10 || c == 13 || c == 9 {
      done := true;
    } else if c == QUOTE {
      inq := true;
    } else if c == APOSTROPHE {
      insq := true;
    } else {
      current := current + [c];
    }
    p := p + 1;
  }

  /** The loop that gets a token. */
  method GetToken(line: seq<byte>, start: nat) returns (err: bool, current: seq<byte>, p: nat)
    requires start <= |line|
    ensures err ==> Scan(line[start..], Plain, []) == Unbalanced
    ensures !err ==> start <= p <= |line| && Scan(line[start..], Plain, []) == Token(current, line[p..])
  {
    ghost var all := Scan(line[start..], Plain, []);
    var inq, insq, done := false, false, false;
    err, current, p := false, [], start;
    while !done
      invariant start <= p <= |line|
      invariant all == if done then Token(current, line[p..]) else Scan(line[p..], ModeOf(inq, insq), current)
      decreases !done, |line| - p
    {
      if inq {
        err, done, p, current := StepQuoted(line, p, current);
      } else if insq {
        err, done, p, current := StepSingleQuoted(line, p, current);
      } else {
        done, inq, insq, p, current := StepPlain(line, p, current);
      }
      if err { return; }
    }
  }

  method Skip(line: seq<byte>, start: nat) returns (p: nat)
    requires start <= |line|
    ensures start <= p <= |line| && line[p..] == SkipBlanks(line[start..])
  {
    p := start;
    ghost var all := SkipBlanks(line[start..]);
    while At(line, p) != 0 && IsSpace(At(line, p))
      invariant start <= p <= |line| && all == SkipBlanks(line[p..])
      decreases |line| - p
    {
      Drops(line, p, 1);
      p := p + 1;
    }
  }

  function Prepend(vector: seq<seq<byte>>, r: Option<seq<seq<byte>>>): Option<seq<seq<byte>>> {
    if r.None? then None else Some(vector + r.value)
  }

  lemma PrependNothing(vector: seq<seq<byte>>, r: Option<seq<seq<byte>>>)
    ensures Prepend([], r) == r && Prepend(vector, Some([])) == Some(vector)
  {
    assert vector + [] == vector;
    if r.Some? {
      assert [] + r.value == r.value;
    }
  }

  lemma PrependOne(vector: seq<seq<byte>>, token: seq<byte>, r: Option<seq<seq<byte>>>)
    ensures Prepend(vector, Prepend([token], r)) == Prepend(vector + [token], r)
  {
    if r.Some? {
      assert vector + ([token] + r.value) == (vector + [token]) + r.value;
    }
  }

  /** sdssplitargs() as it works. */
  method SplitLine(line: seq<byte>) returns (r: Option<seq<seq<byte>>>)
    ensures r == SplitArgs(line)
  {
    var p, vector := 0, [];
    ghost var all := SplitArgs(line);
    assert line[0..] == line;
    PrependNothing([], all);
    while true
      invariant p <= |line| && all == Prepend(vector, SplitArgs(line[p..]))
      decreases |line| - p
    {
      ghost var from := p;
      p := Skip(line, p);
      PrependNothing(vector, None);
      if At(line, p) == 0 { return Some(vector); }
      var err, current, next := GetToken(line, p);
      if err { return None; }
      assert SplitArgs(line[from..]) == Prepend([current], SplitArgs(line[next..]));
      PrependOne(vector, current, SplitArgs(line[next..]));
      vector, p := vector + [current], next;
    }
  }

  // ---- Splitting what was written ----

  lemma LowerHexDigits(n: int)
    requires 0 <= n < 16
    ensures IsXDigit(LowerHex(n)) && HexDigitToInt(LowerHex(n)) == n
  {
  }

  /** One escaped character is read as that character. */
  lemma ScanEscape(b: byte, s: seq<byte>, current: seq<byte>, printable: Printable)
    ensures Scan(Escape(b, printable) + s, Quoted, current) == Scan(s, Quoted, current + [b])
  {
    var e := Escape(b, printable);
    var t := e + s;
    if |e| == 1 {
      assert t[1..] == s;
    } else if |e| == 2 {
      assert t[2..] == s && Unescape(e[1]) == b;
    } else {
      LowerHexDigits(b as int / 16);
      LowerHexDigits(b as int % 16);
      assert t[4..] == s && HexOctet(t) == b;
    }
  }

  lemma {:induction false} ScanEscaped(p: seq<byte>, s: seq<byte>, current: seq<byte>, printable: Printable)
    ensures Scan(Escaped(p, printable) + s, Quoted, current) == Scan(s, Quoted, current + p)
    decreases |p|
  {
    if p == [] {
      assert Escaped(p, printable) + s == s && current + p == current;
    } else {
      var more := Escaped(p[1..], printable) + s;
      assert Escaped(p, printable) + s == Escape(p[0], printable) + more;
      ScanEscape(p[0], more, current, printable);
      ScanEscaped(p[1..], s, current + [p[0]], printable);
      assert current + [p[0]] + p[1..] == current + p;
    }
  }

  lemma ScanOpen(s: seq<byte>)
    ensures Scan([QUOTE] + s, Plain, []) == Scan(s, Quoted, [])
  {
    assert ([QUOTE] + s)[1..] == s;
  }

  lemma ScanClose(s: seq<byte>, current: seq<byte>)
    requires s == [] || IsSpace(s[0])
    ensures Scan([QUOTE] + s, Quoted, current) == Token(current, s)
  {
    assert ([QUOTE] + s)[1..] == s;
  }

  lemma ReprOpens(p: seq<byte>, s: seq<byte>, printable: Printable)
    ensures Repr(p, printable) + s == [QUOTE] + (Escaped(p, printable) + ([QUOTE] + s))
  {
  }

  /** A quoted string is one token, if a space or nothing follows it. */
  lemma ScanRepr(p: seq<byte>, s: seq<byte>, printable: Printable)
    requires s == [] || IsSpace(s[0])
    ensures Scan(Repr(p, printable) + s, Plain, []) == Token(p, s)
  {
    ReprOpens(p, s, printable);
    ScanOpen(Escaped(p, printable) + ([QUOTE] + s));
    ScanEscaped(p, [QUOTE] + s, [], printable);
    assert [] + p == p;
    ScanClose(s, p);
  }

  /** The quoted strings, each after a gap. */
  function Line(ps: seq<seq<byte>>, gaps: seq<seq<byte>>, printable: Printable): seq<byte>
    requires |gaps| == |ps| + 1
  {
    if ps == [] then gaps[0] else gaps[0] + (Repr(ps[0], printable) + Line(ps[1..], gaps[1..], printable))
  }

  /** Gaps are made of spaces, and only the outer ones may be empty. */
  predicate Gaps(gaps: seq<seq<byte>>) {
    && (forall i, j :: 0 <= i < |gaps| && 0 <= j < |gaps[i]| ==> IsSpace(gaps[i][j]))
    && (forall i :: 0 < i < |gaps| - 1 ==> gaps[i] != [])
  }

  lemma {:induction false} BlanksAreSkipped(gap: seq<byte>, s: seq<byte>)
    requires (forall j :: 0 <= j < |gap| ==> IsSpace(gap[j])) && (s == [] || !IsSpace(s[0]))
    ensures SkipBlanks(gap + s) == s
  {
    if gap == [] {
      assert gap + s == s;
    } else {
      assert (gap + s)[1..] == gap[1..] + s;
      BlanksAreSkipped(gap[1..], s);
    }
  }

  lemma LineStartsBlank(ps: seq<seq<byte>>, gaps: seq<seq<byte>>, printable: Printable)
    requires |gaps| == |ps| + 1 && Gaps(gaps) && (ps == [] || gaps[0] != [])
    ensures var s := Line(ps, gaps, printable); s == [] || IsSpace(s[0])
  {
  }

  /**
   * Any octet strings, quoted and put on a line with any spaces around them,
   * are split into exactly those strings.
   */
  lemma {:induction false} SplitRestores(ps: seq<seq<byte>>, gaps: seq<seq<byte>>, printable: Printable)
    requires |gaps| == |ps| + 1 && Gaps(gaps)
    ensures SplitArgs(Line(ps, gaps, printable)) == Some(ps)
    decreases |ps|
  {
    if ps == [] {
      assert gaps[0] + [] == gaps[0];
      BlanksAreSkipped(gaps[0], []);
    } else {
      var rest := Line(ps[1..], gaps[1..], printable);
      BlanksAreSkipped(gaps[0], Repr(ps[0], printable) + rest);
      LineStartsBlank(ps[1..], gaps[1..], printable);
      ScanRepr(ps[0], rest, printable);
      SplitRestores(ps[1..], gaps[1..], printable);
      assert ps == [ps[0]] + ps[1..];
    }
  }

  /** In particular, a quoted string alone is one argument. */
  lemma SplitOne(p: seq<byte>, printable: Printable)
    ensures SplitArgs(Repr(p, printable)) == Some([p])
  {
    SplitRestores([p], [[], []], printable);
    assert Line([p], [[], []], printable) == Repr(p, printable);
  }
}
