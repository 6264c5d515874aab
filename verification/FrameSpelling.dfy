/**
 * Every way to spell a CAN frame in its compact text form, and the frame that
 * each spelling stands for. The reader accepts exactly these.
 */
module FrameSpelling {
  import opened Bytes
  import opened FrameText

  // ---- The case of letters ----

  function Up(c: char): char {
    if 'a' <= c <= 'z' then c - 'a' + 'A' else c
  }

  function Upper(s: seq<char>): (u: seq<char>)
    ensures |u| == |s| && forall i :: 0 <= i < |s| ==> u[i] == Up(s[i])
  {
    seq(|s|, i requires 0 <= i < |s| => Up(s[i]))
  }

  lemma UpperSlices(s: seq<char>, k: nat)
    requires k <= |s|
    ensures Upper(s)[..k] == Upper(s[..k]) && Upper(s)[k..] == Upper(s[k..])
  {
  }

  lemma UpChar(c: char)
    ensures Nibble(Up(c)) == Nibble(c)
    ensures (Up(c) == '#' <==> c == '#') && (Up(c) == '.' <==> c == '.') && (Up(c) == '_' <==> c == '_')
    ensures (Up(c) == 'R' <==> c == 'R' || c == 'r') && Up(c) != 'r' && (Up(c) == '\0' <==> c == '\0')
  {
  }

  lemma {:induction false} UpperValue(s: seq<char>)
    ensures HexValue(Upper(s)) == HexValue(s)
    decreases |s|
  {
    if s != [] {
      var n := |s| - 1;
      UpperSlices(s, n);
      UpperValue(s[..n]);
      UpChar(s[n]);
    }
  }

  lemma UpperAt(s: seq<char>, i: nat)
    ensures At(Upper(s), i) == Up(At(s, i))
  {
  }

  lemma UpperId(s: seq<char>)
    ensures ParseId(Upper(s)) == ParseId(s)
  {
    if |s| >= 4 {
      UpChar(s[3]);
      UpperSlices(s, 3);
      UpperValue(s[..3]);
      if |s| > 8 {
        UpChar(s[8]);
        UpperSlices(s, 8);
        UpperValue(s[..8]);
      }
    }
  }

  function Raise(r: Option<(seq<nat>, seq<char>)>): Option<(seq<nat>, seq<char>)> {
    if r.None? then None else Some((r.value.0, Upper(r.value.1)))
  }

  /** Without a separator at the front. */
  function Undotted(s: seq<char>): seq<char> {
    if At(s, 0) == '.' then s[1..] else s
  }

  /** An octet and those after it. */
  function FromOctet(t: seq<char>, max: nat): Option<(seq<nat>, seq<char>)> {
    if t == [] then Some(([], []))
    else if Nibble(t[0]) > 15 || Nibble(At(t, 1)) > 15 then None
    else
      var rest := ParseData(t[2..], max);
      if rest.None? then None else Some(([16 * Nibble(t[0]) + Nibble(t[1])] + rest.value.0, rest.value.1))
  }

  lemma DataStep(s: seq<char>, max: nat)
    ensures ParseData(s, max + 1) == FromOctet(Undotted(s), max)
  {
  }

  lemma UpperUndotted(s: seq<char>)
    ensures Undotted(Upper(s)) == Upper(Undotted(s))
  {
    UpperAt(s, 0);
    UpChar(At(s, 0));
    if s != [] {
      UpperSlices(s, 1);
    }
  }

  lemma {:induction false} UpperData(s: seq<char>, max: nat)
    ensures ParseData(Upper(s), max) == Raise(ParseData(s, max))
    decreases max, 0
  {
    if max > 0 {
      DataStep(s, max - 1);
      DataStep(Upper(s), max - 1);
      UpperUndotted(s);
      UpperOctet(Undotted(s), max - 1);
    }
  }

  lemma {:induction false} UpperOctet(t: seq<char>, max: nat)
    ensures FromOctet(Upper(t), max) == Raise(FromOctet(t, max))
    decreases max, 1
  {
    if t == [] {
      assert Upper(t) == [];
    } else {
      UpChar(t[0]);
      UpperAt(t, 1);
      UpChar(At(t, 1));
      if |t| >= 2 {
        UpperSlices(t, 2);
        UpperData(t[2..], max);
      }
    }
  }

  lemma UpperDlc(s: seq<char>)
    ensures ParseDlc(Upper(s)) == ParseDlc(s)
  {
    UpperAt(s, 0);
    UpperAt(s, 1);
    UpChar(At(s, 0));
    UpChar(At(s, 1));
  }

  lemma UpperRemote(id: nat, s: seq<char>)
    ensures ParseRemote(id, Upper(s)) == ParseRemote(id, s)
  {
    UpperAt(s, 0);
    UpChar(At(s, 0));
    if s != [] {
      UpperSlices(s, 1);
      UpperDlc(s[1..]);
    }
  }

  lemma UpperFd(id: nat, s: seq<char>)
    ensures ParseFd(id, Upper(s)) == ParseFd(id, s)
  {
    UpperAt(s, 0);
    UpChar(At(s, 0));
    if s != [] {
      UpperSlices(s, 1);
      UpperData(s[1..], FD_MAX_DLEN);
    }
  }

  lemma UpperClassical(id: nat, s: seq<char>)
    ensures ParseClassical(id, Upper(s)) == ParseClassical(id, s)
  {
    UpperData(s, MAX_DLEN);
    var d := ParseData(s, MAX_DLEN);
    if d.Some? {
      UpperDlc(d.value.1);
    }
  }

  /** Reading a frame does not depend on the case of letters. */
  lemma CaseBlind(s: seq<char>)
    ensures Parse(Upper(s)) == Parse(s)
  {
    UpperId(s);
    var id := ParseId(s);
    if id.Id? {
      var t := s[id.next..];
      UpperSlices(s, id.next);
      UpperAt(t, 0);
      UpChar(At(t, 0));
      UpperClassical(id.id, t);
      if t != [] {
        UpperSlices(t, 1);
        UpperRemote(id.id, t[1..]);
        UpperFd(id.id, t[1..]);
      }
    }
  }

  // ---- Spellings ----

  /** A hexadecimal digit in either case. */
  predicate IsHex(c: char) {
    '0' <= c <= '9' || 'A' <= c <= 'F' || 'a' <= c <= 'f'
  }

  /** By its ASCII code: 48 is 0, 65 and 97 are 10. */
  function Value(c: char): nat
    requires IsHex(c)
  {
    if c <= '9' then c as int - 48 else if c <= 'F' then c as int - 55 else c as int - 87
  }

  predicate AllHex(s: seq<char>) {
    forall i :: 0 <= i < |s| ==> IsHex(s[i])
  }

  function Number(s: seq<char>): nat
    requires AllHex(s)
  {
    if s == [] then 0 else 16 * Number(s[..|s| - 1]) + Value(s[|s| - 1])
  }

  /** A data octet, with a separator before it or without. */
  datatype Octet = Octet(dot: bool, high: char, low: char)

  predicate LegalOctets(os: seq<Octet>) {
    forall i :: 0 <= i < |os| ==> IsHex(os[i].high) && IsHex(os[i].low)
  }

  function WriteOctet(o: Octet): seq<char> {
    (if o.dot then ['.'] else []) + [o.high, o.low]
  }

  function WriteOctets(os: seq<Octet>): seq<char> {
    if os == [] then [] else WriteOctet(os[0]) + WriteOctets(os[1..])
  }

  function OctetValue(o: Octet): nat
    requires IsHex(o.high) && IsHex(o.low)
  {
    16 * Value(o.high) + Value(o.low)
  }

  function OctetValues(os: seq<Octet>): (vs: seq<nat>)
    requires LegalOctets(os)
    ensures |vs| == |os|
  {
    seq(|os|, i requires 0 <= i < |os| => OctetValue(os[i]))
  }

  /** What follows the identifier. Text that is not looked at any more is in `rest`. */
  datatype Body =
    | Remote(letter: char, rest: seq<char>)
    | RemoteLength(letter: char, len: char, rest: seq<char>)
    | RemoteDlc(letter: char, dlc: char, rest: seq<char>)
    | Fd(flags: char, octets: seq<Octet>, rest: seq<char>)
    | Data(octets: seq<Octet>, rest: seq<char>)
    | DataDlc(octets: seq<Octet>, dlc: char, rest: seq<char>)

  /** Three or eight digits, and the body. */
  datatype Spelling = Spelling(id: seq<char>, body: Body)

  function WriteBody(b: Body): seq<char> {
    match b
    case Remote(letter, rest) => [letter] + rest
    case RemoteLength(letter, len, rest) => [letter, len] + rest
    case RemoteDlc(letter, dlc, rest) => [letter, '8', '_', dlc] + rest
    case Fd(flags, octets, rest) => ['#', flags] + (WriteOctets(octets) + rest)
    case Data(octets, rest) => WriteOctets(octets) + rest
    case DataDlc(octets, dlc, rest) => WriteOctets(octets) + (['_', dlc] + rest)
  }

  function Write(s: Spelling): seq<char> {
    s.id + ['#'] + WriteBody(s.body)
  }

  /** All octets there is room for, or no more than a separator behind the last one. */
  predicate OctetsEnd(octets: seq<Octet>, max: nat, rest: seq<char>) {
    LegalOctets(octets) && (|octets| == max || (|octets| < max && (rest == [] || rest == ['.'])))
  }

  /** A raw DLC is 9 to 15. */
  predicate IsDlc(c: char) {
    c == '9' || 'A' <= c <= 'F' || 'a' <= c <= 'f'
  }

  predicate NoDlc(rest: seq<char>) {
    !(|rest| >= 2 && rest[0] == '_' && IsDlc(rest[1]))
  }

  predicate IsR(c: char) {
    c == 'R' || c == 'r'
  }

  predicate LegalBody(b: Body) {
    match b
    case Remote(letter, rest) => IsR(letter) && (rest == [] || !('0' <= rest[0] <= '8'))
    case RemoteLength(letter, len, rest) => IsR(letter) && '0' <= len <= '8' && (len == '8' ==> NoDlc(rest))
    case RemoteDlc(letter, dlc, _) => IsR(letter) && IsDlc(dlc)
    case Fd(flags, octets, rest) => IsHex(flags) && OctetsEnd(octets, 64, rest)
    case Data(octets, rest) => OctetsEnd(octets, 8, rest) && (|octets| == 8 ==> NoDlc(rest))
    case DataDlc(octets, dlc, _) => LegalOctets(octets) && |octets| == 8 && IsDlc(dlc)
  }

  predicate Legal(s: Spelling) {
    |s.id| in {3, 8} && AllHex(s.id) && LegalBody(s.body)
  }

  /** Eight digits are an extended identifier, unless the error flag is among them. */
  function IdValue(id: seq<char>): nat
    requires AllHex(id)
  {
    var v := Number(id);
    if |id| == 3 || v / 0x2000_0000 % 2 == 1 || v / 0x8000_0000 % 2 == 1 then v else v + 0x8000_0000
  }

  function WithRemote(id: nat): nat {
    if id / 0x4000_0000 % 2 == 1 then id else id + 0x4000_0000
  }

  function Filled(values: seq<nat>): seq<nat> {
    if |values| >= 64 then values else values + seq(64 - |values|, i => 0)
  }

  /** The size of the structure, and what is in it. */
  function Meaning(s: Spelling): Parsed
    requires Legal(s)
  {
    var id := IdValue(s.id);
    match s.body
    case Remote(_, _) => Parsed(16, Frame(WithRemote(id), 0, 0, 0, Filled([])))
    case RemoteLength(_, len, _) => Parsed(16, Frame(WithRemote(id), Value(len), 0, 0, Filled([])))
    case RemoteDlc(_, dlc, _) => Parsed(16, Frame(WithRemote(id), 8, 0, Value(dlc), Filled([])))
    case Fd(flags, octets, _) => Parsed(72, Frame(id, |octets|, Value(flags), 0, Filled(OctetValues(octets))))
    case Data(octets, _) => Parsed(16, Frame(id, |octets|, 0, 0, Filled(OctetValues(octets))))
    case DataDlc(octets, dlc, _) => Parsed(16, Frame(id, 8, 0, Value(dlc), Filled(OctetValues(octets))))
  }

  // ---- Every spelling is read as its frame ----

  lemma HexRead(c: char)
    ensures IsHex(c) <==> Nibble(c) <= 15
    ensures IsHex(c) ==> Nibble(c) == Value(c) && c !in {'#', '.', '_', 'R', 'r', '\0'}
    ensures IsDlc(c) <==> 8 < Nibble(c) <= 15
    ensures '0' <= c <= '8' <==> Nibble(c) <= 8
  {
  }

  lemma {:induction false} NumberRead(s: seq<char>)
    ensures HexValue(s) == if AllHex(s) then Some(Number(s)) else None
    decreases |s|
  {
    if s != [] {
      var n := |s| - 1;
      NumberRead(s[..n]);
      HexRead(s[n]);
      assert AllHex(s) <==> AllHex(s[..n]) && IsHex(s[n]);
    }
  }

  /** The identifier, and where the body begins. */
  lemma IdRead(id: seq<char>, body: seq<char>)
    requires |id| in {3, 8} && AllHex(id)
    ensures ParseId(id + ['#'] + body) == FrameText.Id(IdValue(id), |id| + 1)
  {
    var s := id + ['#'] + body;
    NumberRead(id);
    assert s[..|id|] == id;
    HexRead(id[2]);
    if |id| == 8 {
      HexRead(id[3]);
    }
  }

  lemma OctetUndotted(o: Octet, s: seq<char>)
    requires IsHex(o.high)
    ensures Undotted(WriteOctet(o) + s) == [o.high, o.low] + s
  {
    HexRead(o.high);
    var t := [o.high, o.low] + s;
    if o.dot {
      assert WriteOctet(o) + s == ['.'] + t && (['.'] + t)[1..] == t;
    } else {
      assert WriteOctet(o) + s == t;
    }
  }

  /** One octet more in front. */
  lemma OctetRead(o: Octet, s: seq<char>, max: nat, values: seq<nat>, left: seq<char>)
    requires IsHex(o.high) && IsHex(o.low) && max > 0 && ParseData(s, max - 1) == Some((values, left))
    ensures ParseData(WriteOctet(o) + s, max) == Some(([OctetValue(o)] + values, left))
  {
    var t := [o.high, o.low] + s;
    DataStep(WriteOctet(o) + s, max - 1);
    OctetUndotted(o, s);
    HexRead(o.high);
    HexRead(o.low);
    assert t[2..] == s;
  }

  /** What is left behind the octets. */
  function LeftOver(n: nat, max: nat, rest: seq<char>): seq<char> {
    if n == max then rest else []
  }

  lemma NoOctetsRead(max: nat, rest: seq<char>)
    requires max == 0 || rest == [] || rest == ['.']
    ensures ParseData(rest, max) == Some(([], LeftOver(0, max, rest)))
  {
    if max > 0 {
      DataStep(rest, max - 1);
      assert Undotted(rest) == [];
    }
  }

  lemma ValuesCons(os: seq<Octet>)
    requires os != [] && LegalOctets(os)
    ensures OctetValues(os) == [OctetValue(os[0])] + OctetValues(os[1..])
  {
  }

  lemma OctetsCons(os: seq<Octet>, rest: seq<char>)
    requires os != []
    ensures WriteOctets(os) + rest == WriteOctet(os[0]) + (WriteOctets(os[1..]) + rest)
  {
    Regroup(WriteOctet(os[0]), WriteOctets(os[1..]), rest);
  }

  lemma Regroup(a: seq<char>, b: seq<char>, c: seq<char>)
    ensures (a + b) + c == a + (b + c)
  {
  }

  lemma {:induction false} OctetsRead(os: seq<Octet>, max: nat, rest: seq<char>)
    requires OctetsEnd(os, max, rest)
    ensures ParseData(WriteOctets(os) + rest, max) == Some((OctetValues(os), LeftOver(|os|, max, rest)))
    decreases |os|
  {
    if os == [] {
      NoOctetsRead(max, rest);
      assert WriteOctets(os) + rest == rest;
    } else {
      OctetsRead(os[1..], max - 1, rest);
      OctetRead(os[0], WriteOctets(os[1..]) + rest, max, OctetValues(os[1..]), LeftOver(|os|, max, rest));
      OctetsCons(os, rest);
      ValuesCons(os);
    }
  }

  /** No octet is written with a type letter or the sign of a CAN FD frame in front. */
  lemma OctetsStart(os: seq<Octet>, rest: seq<char>)
    requires LegalOctets(os) && (os != [] || rest == [] || rest == ['.'])
    ensures At(WriteOctets(os) + rest, 0) !in {'R', 'r', '#'}
  {
    if os != [] {
      HexRead(os[0].high);
      assert (WriteOctets(os) + rest)[0] == WriteOctet(os[0])[0];
    } else {
      assert WriteOctets(os) + rest == rest;
    }
  }

  lemma SameFill(values: seq<nat>)
    requires |values| <= 64
    ensures values + Zeros(64 - |values|) == Filled(values)
  {
    assert Zeros(64 - |values|) == seq(64 - |values|, i => 0);
  }

  lemma DlcRead(dlc: char, rest: seq<char>)
    requires IsDlc(dlc)
    ensures ParseDlc(['_', dlc] + rest) == Value(dlc)
  {
    HexRead(dlc);
  }

  lemma NoDlcRead(rest: seq<char>)
    ensures NoDlc(rest) <==> ParseDlc(rest) == 0
  {
    HexRead(At(rest, 1));
  }

  lemma ClassicalIs(id: nat, s: seq<char>, values: seq<nat>, left: seq<char>, dlc: nat)
    requires ParseData(s, MAX_DLEN) == Some((values, left)) && |values| <= 8
    requires dlc == if |values| == 8 then ParseDlc(left) else 0
    ensures ParseClassical(id, s) == Parsed(16, Frame(id, |values|, 0, dlc, Filled(values)))
  {
    SameFill(values);
  }

  lemma FdIs(id: nat, flags: char, t: seq<char>, values: seq<nat>, left: seq<char>)
    requires IsHex(flags) && ParseData(t, FD_MAX_DLEN) == Some((values, left)) && |values| <= 64
    ensures ParseFd(id, [flags] + t) == Parsed(72, Frame(id, |values|, Value(flags), 0, Filled(values)))
  {
    assert ([flags] + t)[1..] == t;
    HexRead(flags);
    SameFill(values);
  }

  /** A remote frame without data. */
  lemma RemoteIs(id: nat, len: nat, dlc: nat)
    ensures Read(SetRtr(id), len, 0, dlc, []) == Frame(WithRemote(id), len, 0, dlc, Filled([]))
  {
    SameFill([]);
  }

  lemma RemoteLengthRead(id: nat, len: char, rest: seq<char>, dlc: nat)
    requires '0' <= len <= '8' && dlc == if len == '8' then ParseDlc(rest) else 0
    ensures ParseRemote(id, [len] + rest) == Parsed(16, Frame(WithRemote(id), Value(len), 0, dlc, Filled([])))
  {
    assert ([len] + rest)[1..] == rest;
    HexRead(len);
    RemoteIs(id, Value(len), dlc);
  }

  lemma NoLengthRead(id: nat, rest: seq<char>)
    requires rest == [] || !('0' <= rest[0] <= '8')
    ensures ParseRemote(id, rest) == Parsed(16, Frame(WithRemote(id), 0, 0, 0, Filled([])))
  {
    HexRead(At(rest, 0));
    RemoteIs(id, 0, 0);
  }

  /** The reader of what follows the identifier. */
  function ParseBody(id: nat, t: seq<char>): Parsed {
    if At(t, 0) == 'R' || At(t, 0) == 'r' then ParseRemote(id, t[1..])
    else if At(t, 0) == '#' then ParseFd(id, t[1..])
    else ParseClassical(id, t)
  }

  lemma RemoteBody(id: nat, letter: char, s: seq<char>)
    requires IsR(letter)
    ensures ParseBody(id, [letter] + s) == ParseRemote(id, s)
  {
    assert ([letter] + s)[1..] == s;
  }

  lemma FdBody(id: nat, s: seq<char>)
    ensures ParseBody(id, ['#'] + s) == ParseFd(id, s)
  {
    assert (['#'] + s)[1..] == s;
  }

  lemma BodyRead(s: Spelling)
    requires Legal(s)
    ensures ParseBody(IdValue(s.id), WriteBody(s.body)) == Meaning(s)
  {
    var id := IdValue(s.id);
    match s.body
    case Remote(letter, rest) =>
      RemoteBody(id, letter, rest);
      NoLengthRead(id, rest);
    case RemoteLength(letter, len, rest) =>
      assert WriteBody(s.body) == [letter] + ([len] + rest);
      RemoteBody(id, letter, [len] + rest);
      NoDlcRead(rest);
      RemoteLengthRead(id, len, rest, 0);
    case RemoteDlc(letter, dlc, rest) =>
      var t := ['_', dlc] + rest;
      assert WriteBody(s.body) == [letter] + (['8'] + t);
      RemoteBody(id, letter, ['8'] + t);
      DlcRead(dlc, rest);
      RemoteLengthRead(id, '8', t, Value(dlc));
    case Fd(flags, os, rest) =>
      var t := WriteOctets(os) + rest;
      assert WriteBody(s.body) == ['#'] + ([flags] + t);
      FdBody(id, [flags] + t);
      OctetsRead(os, FD_MAX_DLEN, rest);
      FdIs(id, flags, t, OctetValues(os), LeftOver(|os|, FD_MAX_DLEN, rest));
    case Data(os, rest) =>
      OctetsStart(os, rest);
      NoDlcRead(rest);
      OctetsRead(os, MAX_DLEN, rest);
      ClassicalIs(id, WriteOctets(os) + rest, OctetValues(os), LeftOver(|os|, MAX_DLEN, rest), 0);
    case DataDlc(os, dlc, rest) =>
      var t := ['_', dlc] + rest;
      OctetsStart(os, t);
      DlcRead(dlc, rest);
      OctetsRead(os, MAX_DLEN, t);
      ClassicalIs(id, WriteOctets(os) + t, OctetValues(os), LeftOver(|os|, MAX_DLEN, t), Value(dlc));
  }

  /** Every spelling is read as the frame that it stands for. */
  lemma SpellingRead(s: Spelling)
    requires Legal(s)
    ensures Parse(Write(s)) == Meaning(s)
  {
    IdRead(s.id, WriteBody(s.body));
    BodyRead(s);
    assert Write(s)[|s.id| + 1..] == WriteBody(s.body);
  }

  // ---- And nothing else is read ----

  /** The octets at the front. */
  lemma {:induction false} OctetsUnread(s: seq<char>, max: nat) returns (os: seq<Octet>, rest: seq<char>)
    requires ParseData(s, max).Some?
    ensures OctetsEnd(os, max, rest) && s == WriteOctets(os) + rest
    decreases max
  {
    if max == 0 {
      os, rest := [], s;
      assert WriteOctets([]) + s == s;
    } else {
      DataStep(s, max - 1);
      var t := Undotted(s);
      if t == [] {
        os, rest := [], s;
        assert WriteOctets([]) + s == s;
      } else {
        var more;
        more, rest := OctetsUnread(t[2..], max - 1);
        var o := OctetAt(s);
        os := [o] + more;
        assert os[1..] == more;
        Regroup(WriteOctet(o), WriteOctets(more), rest);
      }
    }
  }

  lemma OctetAt(s: seq<char>) returns (o: Octet)
    requires var t := Undotted(s); |t| >= 2 && Nibble(t[0]) <= 15 && Nibble(t[1]) <= 15
    ensures IsHex(o.high) && IsHex(o.low) && s == WriteOctet(o) + Undotted(s)[2..]
  {
    var t := Undotted(s);
    HexRead(t[0]);
    HexRead(t[1]);
    o := Octet(At(s, 0) == '.', t[0], t[1]);
    assert t == [t[0], t[1]] + t[2..];
    if o.dot {
      assert s == ['.'] + t;
    }
  }

  lemma DlcUnread(s: seq<char>) returns (dlc: char, rest: seq<char>)
    requires !NoDlc(s)
    ensures IsDlc(dlc) && s == ['_', dlc] + rest
  {
    dlc, rest := s[1], s[2..];
  }

  lemma BodyUnread(id: nat, t: seq<char>) returns (b: Body)
    requires ParseBody(id, t).Parsed?
    ensures LegalBody(b) && WriteBody(b) == t
  {
    if At(t, 0) == 'R' || At(t, 0) == 'r' {
      b := RemoteUnread(t);
    } else if At(t, 0) == '#' {
      var os, rest := OctetsUnread(t[1..][1..], FD_MAX_DLEN);
      HexRead(At(t[1..], 0));
      b := Fd(t[1], os, rest);
      assert t == ['#', t[1]] + t[1..][1..];
    } else {
      var os, rest := OctetsUnread(t, MAX_DLEN);
      if |os| == 8 && !NoDlc(rest) {
        var dlc, behind := DlcUnread(rest);
        b := DataDlc(os, dlc, behind);
      } else {
        b := Data(os, rest);
      }
    }
  }

  lemma RemoteUnread(t: seq<char>) returns (b: Body)
    requires t != [] && IsR(t[0])
    ensures LegalBody(b) && WriteBody(b) == t
  {
    var s := t[1..];
    assert t == [t[0]] + s;
    if s == [] || !('0' <= s[0] <= '8') {
      b := Remote(t[0], s);
    } else {
      b := LengthUnread(t[0], s);
    }
  }

  lemma LengthUnread(letter: char, s: seq<char>) returns (b: Body)
    requires s != [] && IsR(letter) && '0' <= s[0] <= '8'
    ensures LegalBody(b) && WriteBody(b) == [letter] + s
  {
    assert s == [s[0]] + s[1..];
    if s[0] == '8' && !NoDlc(s[1..]) {
      var dlc, behind := DlcUnread(s[1..]);
      b := RemoteDlc(letter, dlc, behind);
      Regroup([letter, '8'], ['_', dlc], behind);
    } else {
      b := RemoteLength(letter, s[0], s[1..]);
    }
  }

  /** Whatever is read as a frame is a spelling of it. */
  lemma SpellingUnread(t: seq<char>) returns (s: Spelling)
    requires Parse(t).Parsed?
    ensures Legal(s) && Write(s) == t && Parse(t) == Meaning(s)
  {
    var id := ParseId(t);
    var n := id.next - 1;
    NumberRead(t[..n]);
    var b := BodyUnread(id.id, t[id.next..]);
    s := Spelling(t[..n], b);
    assert t == t[..n] + ['#'] + t[n + 1..];
    SpellingRead(s);
  }

  // ---- The spelling that is printed ----

  /** Octets as they are printed: with a separator before each if wanted, but not always before the first. */
  function PrintedOctets(data: seq<nat>, first: bool, sep: bool): seq<Octet>
    requires forall i :: 0 <= i < |data| ==> data[i] < 256
  {
    seq(|data|, i requires 0 <= i < |data| =>
      Octet(if i == 0 then first else sep, HexChar(data[i] / 16), HexChar(data[i] % 16)))
  }

  lemma PrintedFirst(b: nat, first: bool, o: Octet)
    requires b < 256 && o == Octet(first, HexChar(b / 16), HexChar(b % 16))
    ensures WriteOctet(o) == (if first then "." else "") + ByteText(b)
  {
  }

  lemma {:induction false} PrintedData(data: seq<nat>, first: bool, sep: bool)
    requires forall i :: 0 <= i < |data| ==> data[i] < 256
    ensures WriteOctets(PrintedOctets(data, first, sep)) == (if first && data != [] then "." else "") + DataText(data, sep)
    decreases |data|
  {
    if data != [] {
      var os, more := PrintedOctets(data, first, sep), PrintedOctets(data[1..], sep, sep);
      assert os[1..] == more;
      PrintedData(data[1..], sep, sep);
      PrintedFirst(data[0], first, os[0]);
      var dot, between := if first then "." else "", if sep && |data| > 1 then "." else "";
      Regroup(dot, ByteText(data[0]), between + DataText(data[1..], sep));
      Regroup(ByteText(data[0]), between, DataText(data[1..], sep));
    }
  }

  /** Letters are printed large. */
  lemma PrintedLarge(n: nat)
    requires n < 16
    ensures IsHex(HexChar(n)) && Value(HexChar(n)) == n && Up(HexChar(n)) == HexChar(n)
  {
  }

  /**
   * The data of a printed frame: separators stand between the octets of a
   * classical frame, and before each octet of a CAN FD frame, or nowhere.
   */
  lemma PrintedBody(f: Frame, sep: bool, fd: bool)
    requires Valid(f) && (fd || !HasRtr(f.id))
    ensures var data := f.data[..Min(f.len, if fd then 64 else 8)];
      && BodyText(f, sep, fd)
      == (if fd then ['#', HexChar(f.flags % 16)] else []) + WriteOctets(PrintedOctets(data, sep && fd, sep))
         + (if fd then [] else DlcText(|data|, f.len8Dlc))
      && LegalOctets(PrintedOctets(data, sep && fd, sep))
  {
    var data := f.data[..Min(f.len, if fd then 64 else 8)];
    forall i | 0 <= i < |data| ensures IsHex(HexChar(data[i] / 16)) && IsHex(HexChar(data[i] % 16)) {
      PrintedLarge(data[i] / 16);
      PrintedLarge(data[i] % 16);
    }
    PrintedData(data, sep && fd, sep);
  }
}
