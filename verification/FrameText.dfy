/**
 * The compact text form of CAN frames (lib.c): its grammar as a printer and a
 * reader, and what reading a printed frame gives back.
 */
module FrameText {
  import opened Bytes

  const EFF_FLAG: nat := 0x8000_0000
  const RTR_FLAG: nat := 0x4000_0000
  const ERR_FLAG: nat := 0x2000_0000
  const SFF_IDS: nat := 0x800

  const CAN_MTU: nat := 16
  const CANFD_MTU: nat := 72

  const MAX_DLEN: nat := 8
  const MAX_RAW_DLC: nat := 15
  const FD_MAX_DLEN: nat := 64

  /**
   * struct canfd_frame, which is also read as a struct can_frame: len8Dlc is
   * the octet before the data, data the whole of its 64 octets.
   */
  datatype Frame = Frame(id: nat, len: nat, flags: nat, len8Dlc: nat, data: seq<nat>)

  predicate Valid(f: Frame) {
    && f.id < 0x1_0000_0000 && f.len < 256 && f.flags < 256 && f.len8Dlc < 256
    && |f.data| == FD_MAX_DLEN && forall i :: 0 <= i < FD_MAX_DLEN ==> f.data[i] < 256
  }

  predicate HasEff(id: nat) { id / EFF_FLAG % 2 == 1 }
  predicate HasRtr(id: nat) { id / RTR_FLAG % 2 == 1 }
  predicate HasErr(id: nat) { id / ERR_FLAG % 2 == 1 }

  function SetEff(id: nat): nat { if HasEff(id) then id else id + EFF_FLAG }
  function SetRtr(id: nat): nat { if HasRtr(id) then id else id + RTR_FLAG }

  function Min(a: nat, b: nat): nat { if a < b then a else b }

  function MaxLen(fd: bool): nat { if fd then FD_MAX_DLEN else MAX_DLEN }

  // ---- Hexadecimal digits ----

  function HexChar(n: nat): char
    requires n < 16
  {
    if n < 10 then '0' + n as char else 'A' + (n - 10) as char
  }

  /** asc2nibble(): 16 for anything that is not a hexadecimal digit. */
  function Nibble(c: char): (n: nat)
    ensures n <= 16
  {
    if '0' <= c <= '9' then (c - '0') as nat
    else if 'A' <= c <= 'F' then (c - 'A') as nat + 10
    else if 'a' <= c <= 'f' then (c - 'a') as nat + 10
    else 16
  }

  lemma NibbleOfHex(n: nat)
    requires n < 16
    ensures Nibble(HexChar(n)) == n && HexChar(n) != '#' && HexChar(n) != '.' && HexChar(n) != 'R' && HexChar(n) != 'r'
    ensures HexChar(n) != '_'
  {
  }

  /** The last n hexadecimal digits of v. */
  function HexText(v: nat, n: nat): (s: seq<char>)
    ensures |s| == n
    decreases n, v
  {
    if n == 0 then [] else HexText(v / 16, n - 1) + [HexChar(v % 16)]
  }

  /** The value of a string of hexadecimal digits. */
  function HexValue(s: seq<char>): Option<nat> {
    if s == [] then Some(0)
    else
      var high := HexValue(s[..|s| - 1]);
      var low := Nibble(s[|s| - 1]);
      if high.None? || low > 15 then None else Some(high.value * 16 + low)
  }

  function Pow16(n: nat): nat {
    if n == 0 then 1 else 16 * Pow16(n - 1)
  }

  lemma {:induction false} HexRoundTrip(v: nat, n: nat)
    requires v < Pow16(n)
    ensures HexValue(HexText(v, n)) == Some(v)
  {
    if n > 0 {
      HexRoundTrip(v / 16, n - 1);
      NibbleOfHex(v % 16);
      assert HexText(v, n)[..n - 1] == HexText(v / 16, n - 1);
    }
  }

  lemma {:induction false} HexTextDigit(v: nat, n: nat, k: nat)
    requires k < n
    ensures HexText(v, n)[k] != '#' && HexText(v, n)[k] != '.'
  {
    NibbleOfHex(v % 16);
    if k < n - 1 {
      HexTextDigit(v / 16, n - 1, k);
    }
  }

  // ---- Printing ----

  function ByteText(b: nat): seq<char>
    requires b < 256
  {
    [HexChar(b / 16), HexChar(b % 16)]
  }

  /** Data octets, with separators between them if wanted. */
  function DataText(data: seq<nat>, sep: bool): seq<char>
    requires forall i :: 0 <= i < |data| ==> data[i] < 256
  {
    if data == [] then []
    else ByteText(data[0]) + (if sep && |data| > 1 then "." else "") + DataText(data[1..], sep)
  }

  /** The raw DLC is shown when it exceeds the eight octets of payload. */
  function DlcText(len: nat, dlc: nat): seq<char> {
    if len == MAX_DLEN && MAX_DLEN < dlc <= MAX_RAW_DLC then ['_', HexChar(dlc)] else []
  }

  function IdText(id: nat): seq<char> {
    if HasErr(id) then HexText(id % RTR_FLAG, 8) + "#"
    else if HasEff(id) then HexText(id % ERR_FLAG, 8) + "#"
    else HexText(id % SFF_IDS, 3) + "#"
  }

  function RemoteText(f: Frame): seq<char> {
    if 0 < f.len <= MAX_DLEN then ['R', HexChar(f.len)] + DlcText(f.len, f.len8Dlc) else "R"
  }

  function FdText(flags: nat, len: nat, sep: bool): seq<char> {
    ['#', HexChar(flags % 16)] + (if sep && len > 0 then "." else "")
  }

  /** The part after the identifier. */
  function BodyText(f: Frame, sep: bool, fd: bool): seq<char>
    requires Valid(f)
  {
    var len := Min(f.len, MaxLen(fd));
    if fd then FdText(f.flags, len, sep) + DataText(f.data[..len], sep)
    else if HasRtr(f.id) then RemoteText(f)
    else DataText(f.data[..len], sep) + DlcText(len, f.len8Dlc)
  }

  /** sprint_canframe() for classical (fd false) and CAN FD frames. */
  function Print(f: Frame, sep: bool, fd: bool): seq<char>
    requires Valid(f)
  {
    IdText(f.id) + BodyText(f, sep, fd)
  }

  // ---- Reading ----

  /** Reading past the end gives the terminator. */
  function At(s: seq<char>, i: nat): char {
    if i < |s| then s[i] else '\0'
  }

  function Zeros(n: nat): (z: seq<nat>)
    ensures |z| == n && forall i :: 0 <= i < n ==> z[i] == 0
  {
    seq(n, i => 0)
  }

  /** A frame as the reader leaves it: octets after the data are zero. */
  function Read(id: nat, len: nat, flags: nat, dlc: nat, data: seq<nat>): Frame
    requires |data| <= FD_MAX_DLEN
  {
    Frame(id, len, flags, dlc, data + Zeros(FD_MAX_DLEN - |data|))
  }

  datatype Parsed = Bad | Parsed(mtu: nat, frame: Frame)

  /** The identifier and where the rest starts. */
  datatype Id = NoId | Id(id: nat, next: nat)

  function ParseId(s: seq<char>): (r: Id)
    ensures r.Id? ==> r.next <= |s|
  {
    if |s| < 4 then NoId
    else if s[3] == '#' then
      var v := HexValue(s[..3]);
      if v.None? then NoId else Id(v.value, 4)
    else if |s| > 8 && s[8] == '#' then
      var v := HexValue(s[..8]);
      if v.None? then NoId else Id(if HasErr(v.value) then v.value else SetEff(v.value), 9)
    else NoId
  }

  /** Up to `max` octets, each after an optional separator; None at a bad digit. */
  function ParseData(s: seq<char>, max: nat): (r: Option<(seq<nat>, seq<char>)>)
    ensures r.Some? ==> |r.value.0| <= max
    decreases max, s
  {
    if max == 0 then Some(([], s))
    else
      var t := if At(s, 0) == '.' then s[1..] else s;
      if t == [] then Some(([], []))
      else if Nibble(t[0]) > 15 || Nibble(At(t, 1)) > 15 then None
      else
        var rest := ParseData(t[2..], max - 1);
        if rest.None? then None
        else Some(([16 * Nibble(t[0]) + Nibble(t[1])] + rest.value.0, rest.value.1))
  }

  /** The raw DLC after eight octets. */
  function ParseDlc(s: seq<char>): nat {
    if At(s, 0) == '_' && MAX_DLEN < Nibble(At(s, 1)) <= MAX_RAW_DLC then Nibble(At(s, 1)) else 0
  }

  /** What follows the R of a remote frame. */
  function ParseRemote(id: nat, s: seq<char>): Parsed {
    var len := Nibble(At(s, 0));
    if s == [] || len > MAX_DLEN then Parsed(CAN_MTU, Read(SetRtr(id), 0, 0, 0, []))
    else Parsed(CAN_MTU, Read(SetRtr(id), len, 0, if len == MAX_DLEN then ParseDlc(s[1..]) else 0, []))
  }

  function ParseFd(id: nat, s: seq<char>): Parsed {
    if Nibble(At(s, 0)) > 15 then Bad
    else
      var d := ParseData(s[1..], FD_MAX_DLEN);
      if d.None? then Bad else Parsed(CANFD_MTU, Read(id, |d.value.0|, Nibble(s[0]), 0, d.value.0))
  }

  function ParseClassical(id: nat, s: seq<char>): Parsed {
    var d := ParseData(s, MAX_DLEN);
    if d.None? then Bad
    else
      var dlc := if |d.value.0| == MAX_DLEN then ParseDlc(d.value.1) else 0;
      Parsed(CAN_MTU, Read(id, |d.value.0|, 0, dlc, d.value.0))
  }

  /** parse_canframe() */
  function Parse(s: seq<char>): Parsed {
    var id := ParseId(s);
    if id.NoId? then Bad
    else
      var t := s[id.next..];
      if At(t, 0) == 'R' || At(t, 0) == 'r' then ParseRemote(id.id, t[1..])
      else if At(t, 0) == '#' then ParseFd(id.id, t[1..])
      else ParseClassical(id.id, t)
  }

  // ---- Reading what was printed ----

  /** The identifier that survives printing. */
  function NormalId(id: nat): nat {
    if HasErr(id) then id % RTR_FLAG
    else if HasEff(id) then id % ERR_FLAG + EFF_FLAG
    else id % SFF_IDS
  }

  function NormalDlc(len: nat, dlc: nat): nat {
    if len == MAX_DLEN && MAX_DLEN < dlc <= MAX_RAW_DLC then dlc else 0
  }

  /** The frame that survives printing. */
  function Normal(f: Frame, fd: bool): Frame
    requires Valid(f)
  {
    var len := Min(f.len, MaxLen(fd));
    if fd then Read(NormalId(f.id), len, f.flags % 16, 0, f.data[..len])
    else if HasRtr(f.id) then
      var len := if f.len <= MAX_DLEN then f.len else 0;
      Read(SetRtr(NormalId(f.id)), len, 0, NormalDlc(len, f.len8Dlc), [])
    else Read(NormalId(f.id), len, 0, NormalDlc(len, f.len8Dlc), f.data[..len])
  }

  lemma ShortIdReadBack(v: nat, rest: seq<char>)
    requires v < 0x1000
    ensures ParseId(HexText(v, 3) + "#" + rest) == Id(v, 4)
  {
    assert Pow16(3) == 0x1000;
    HexRoundTrip(v, 3);
    assert (HexText(v, 3) + "#" + rest)[..3] == HexText(v, 3);
  }

  lemma LongIdReadBack(v: nat, rest: seq<char>)
    requires v < 0x1_0000_0000
    ensures ParseId(HexText(v, 8) + "#" + rest) == Id(if HasErr(v) then v else SetEff(v), 9)
  {
    assert Pow16(8) == 0x1_0000_0000;
    HexRoundTrip(v, 8);
    HexTextDigit(v, 8, 3);
    var s := HexText(v, 8) + "#" + rest;
    assert s[..8] == HexText(v, 8) && s[3] == HexText(v, 8)[3];
  }

  lemma ErrSurvives(id: nat)
    requires HasErr(id)
    ensures HasErr(id % RTR_FLAG)
  {
    assert id % RTR_FLAG / ERR_FLAG == id / ERR_FLAG % 2;
  }

  lemma SmallHasNoFlags(v: nat)
    requires v < ERR_FLAG
    ensures !HasErr(v) && !HasEff(v) && !HasRtr(v)
  {
  }

  lemma IdReadBack(id: nat, rest: seq<char>)
    ensures ParseId(IdText(id) + rest) == Id(NormalId(id), |IdText(id)|)
  {
    SmallHasNoFlags(id % ERR_FLAG);
    if HasErr(id) {
      ErrSurvives(id);
      LongIdReadBack(id % RTR_FLAG, rest);
    } else if HasEff(id) {
      LongIdReadBack(id % ERR_FLAG, rest);
    } else {
      ShortIdReadBack(id % SFF_IDS, rest);
    }
  }

  /** The separator, if there is to be one. */
  function Dot(dot: bool): seq<char> { if dot then "." else "" }

  /** A separator before an octet makes no difference. */
  lemma DotIsSkipped(dot: bool, s: seq<char>, max: nat)
    requires dot ==> max > 0 && At(s, 0) != '.'
    ensures ParseData(Dot(dot) + s, max) == ParseData(s, max)
  {
    if dot {
      assert ("." + s)[1..] == s;
    } else {
      assert Dot(dot) + s == s;
    }
  }

  lemma OctetReadBack(b: nat, more: seq<char>, max: nat, rest: (seq<nat>, seq<char>))
    requires b < 256 && max > 0 && ParseData(more, max - 1) == Some(rest)
    ensures ParseData(ByteText(b) + more, max) == Some(([b] + rest.0, rest.1))
  {
    NibbleOfHex(b / 16);
    NibbleOfHex(b % 16);
    var s := ByteText(b) + more;
    assert s[0] == HexChar(b / 16) && s[1] == HexChar(b % 16) && s[2..] == more;
  }

  lemma FirstIsDigit(data: seq<nat>, sep: bool, rest: seq<char>)
    requires (forall i :: 0 <= i < |data| ==> data[i] < 256) && data != []
    ensures At(DataText(data, sep) + rest, 0) != '.'
  {
    NibbleOfHex(data[0] / 16);
    assert (DataText(data, sep) + rest)[0] == HexChar(data[0] / 16);
  }

  lemma NoDataReadBack(rest: seq<char>, max: nat)
    requires rest == [] || max == 0
    ensures ParseData(rest, max) == Some(([], rest))
  {
  }

  lemma DataTextCons(data: seq<nat>, sep: bool, rest: seq<char>)
    requires (forall i :: 0 <= i < |data| ==> data[i] < 256) && data != []
    ensures DataText(data, sep) + rest
         == ByteText(data[0]) + (Dot(sep && |data| > 1) + (DataText(data[1..], sep) + rest))
  {
  }

  /** Data reads back, up to the end of the text or, when all octets are there, up to a raw DLC. */
  lemma {:induction false} DataReadBack(data: seq<nat>, sep: bool, rest: seq<char>, max: nat)
    requires forall i :: 0 <= i < |data| ==> data[i] < 256
    requires |data| <= max && (rest == [] || |data| == max)
    ensures ParseData(DataText(data, sep) + rest, max) == Some((data, rest))
    decreases |data|
  {
    if data == [] {
      assert DataText(data, sep) + rest == rest;
      NoDataReadBack(rest, max);
    } else {
      DataReadBack(data[1..], sep, rest, max - 1);
      DataTailReadBack(data, sep, rest, max, DataText(data[1..], sep) + rest);
    }
  }

  lemma OctetAndDotReadBack(b: nat, dot: bool, more: seq<char>, max: nat, rest: (seq<nat>, seq<char>))
    requires b < 256 && max > 0 && ParseData(more, max - 1) == Some(rest)
    requires dot ==> max > 1 && At(more, 0) != '.'
    ensures ParseData(ByteText(b) + (Dot(dot) + more), max) == Some(([b] + rest.0, rest.1))
  {
    DotIsSkipped(dot, more, max - 1);
    OctetReadBack(b, Dot(dot) + more, max, rest);
  }

  lemma DataTailReadBack(data: seq<nat>, sep: bool, rest: seq<char>, max: nat, more: seq<char>)
    requires (forall i :: 0 <= i < |data| ==> data[i] < 256) && 0 < |data| <= max
    requires more == DataText(data[1..], sep) + rest
    requires ParseData(more, max - 1) == Some((data[1..], rest))
    ensures ParseData(DataText(data, sep) + rest, max) == Some((data, rest))
  {
    if |data| > 1 {
      FirstIsDigit(data[1..], sep, rest);
    }
    OctetAndDotReadBack(data[0], sep && |data| > 1, more, max, (data[1..], rest));
    DataTextCons(data, sep, rest);
    assert data == [data[0]] + data[1..];
  }

  lemma DlcReadBack(len: nat, dlc: nat)
    ensures ParseDlc(DlcText(len, dlc)) == NormalDlc(len, dlc)
  {
    if NormalDlc(len, dlc) != 0 {
      NibbleOfHex(dlc);
    }
  }

  lemma ClassicalReadBack(id: nat, data: seq<nat>, dlc: nat, sep: bool)
    requires |data| <= MAX_DLEN && forall i :: 0 <= i < |data| ==> data[i] < 256
    ensures ParseClassical(id, DataText(data, sep) + DlcText(|data|, dlc))
         == Parsed(CAN_MTU, Read(id, |data|, 0, NormalDlc(|data|, dlc), data))
  {
    DataReadBack(data, sep, DlcText(|data|, dlc), MAX_DLEN);
    DlcReadBack(|data|, dlc);
  }

  lemma FdDataReadBack(data: seq<nat>, sep: bool, max: nat)
    requires |data| <= max && forall i :: 0 <= i < |data| ==> data[i] < 256
    ensures ParseData(Dot(sep && data != []) + DataText(data, sep), max) == Some((data, []))
  {
    DataReadBack(data, sep, [], max);
    assert DataText(data, sep) + [] == DataText(data, sep);
    if data != [] {
      FirstIsDigit(data, sep, []);
    }
    DotIsSkipped(sep && data != [], DataText(data, sep), max);
  }

  lemma FdBody(id: nat, c: char, t: seq<char>, data: seq<nat>)
    requires Nibble(c) < 16 && ParseData(t, FD_MAX_DLEN) == Some((data, []))
    ensures |data| <= FD_MAX_DLEN && ParseFd(id, [c] + t) == Parsed(CANFD_MTU, Read(id, |data|, Nibble(c), 0, data))
  {
    assert ([c] + t)[1..] == t;
  }

  lemma FdReadBack(id: nat, data: seq<nat>, flags: nat, sep: bool)
    requires |data| <= FD_MAX_DLEN && forall i :: 0 <= i < |data| ==> data[i] < 256
    ensures ParseFd(id, FdText(flags, |data|, sep)[1..] + DataText(data, sep))
         == Parsed(CANFD_MTU, Read(id, |data|, flags % 16, 0, data))
  {
    var t := Dot(sep && data != []) + DataText(data, sep);
    NibbleOfHex(flags % 16);
    FdDataReadBack(data, sep, FD_MAX_DLEN);
    FdBody(id, HexChar(flags % 16), t, data);
    assert FdText(flags, |data|, sep)[1..] + DataText(data, sep) == [HexChar(flags % 16)] + t;
  }

  lemma RemoteReadBack(id: nat, f: Frame)
    ensures var len := if f.len <= MAX_DLEN then f.len else 0;
      && ParseRemote(id, RemoteText(f)[1..]) == Parsed(CAN_MTU, Read(SetRtr(id), len, 0, NormalDlc(len, f.len8Dlc), []))
  {
    if 0 < f.len <= MAX_DLEN {
      NibbleOfHex(f.len);
      DlcReadBack(f.len, f.len8Dlc);
      assert RemoteText(f)[1..][0] == HexChar(f.len);
      assert RemoteText(f)[1..][1..] == DlcText(f.len, f.len8Dlc);
    }
  }

  lemma BodyReadBack(id: nat, f: Frame, sep: bool, fd: bool)
    requires Valid(f) && id == NormalId(f.id)
    ensures var t := BodyText(f, sep, fd);
      && Parsed(if fd then CANFD_MTU else CAN_MTU, Normal(f, fd)) ==
         if At(t, 0) == 'R' || At(t, 0) == 'r' then ParseRemote(id, t[1..])
         else if At(t, 0) == '#' then ParseFd(id, t[1..])
         else ParseClassical(id, t)
  {
    var len := Min(f.len, MaxLen(fd));
    var data := f.data[..len];
    if fd {
      FdReadBack(id, data, f.flags, sep);
      assert BodyText(f, sep, fd)[1..] == FdText(f.flags, len, sep)[1..] + DataText(data, sep);
    } else if HasRtr(f.id) {
      RemoteReadBack(id, f);
    } else {
      ClassicalReadBack(id, data, f.len8Dlc, sep);
      FirstIsNoMark(data, sep, DlcText(len, f.len8Dlc));
    }
  }

  lemma FirstIsNoMark(data: seq<nat>, sep: bool, rest: seq<char>)
    requires forall i :: 0 <= i < |data| ==> data[i] < 256
    requires rest == [] || rest[0] == '_'
    ensures At(DataText(data, sep) + rest, 0) !in {'R', 'r', '#'}
  {
    if data != [] {
      NibbleOfHex(data[0] / 16);
      assert (DataText(data, sep) + rest)[0] == HexChar(data[0] / 16);
    } else {
      assert DataText(data, sep) + rest == rest;
    }
  }

  /**
   * Every frame, printed with or without separators, is read back with the
   * right size and as the part of it that the text form can show.
   */
  lemma PrintedReadBack(f: Frame, sep: bool, fd: bool)
    requires Valid(f)
    ensures Parse(Print(f, sep, fd)) == Parsed(if fd then CANFD_MTU else CAN_MTU, Normal(f, fd))
  {
    var body := BodyText(f, sep, fd);
    IdReadBack(f.id, body);
    assert Print(f, sep, fd)[|IdText(f.id)|..] == body;
    BodyReadBack(NormalId(f.id), f, sep, fd);
  }

  // ---- Frames that survive whole ----

  /** g has the identifier, length, flags, raw DLC and payload of f; remote frames have no payload. */
  predicate Restores(f: Frame, g: Frame)
    requires Valid(f) && |g.data| == FD_MAX_DLEN
  {
    && g.id == f.id && g.len == f.len && g.flags == f.flags && g.len8Dlc == f.len8Dlc
    && f.len <= FD_MAX_DLEN && (HasRtr(f.id) || g.data[..f.len] == f.data[..f.len])
  }

  /** No flag or identifier bit that the text form does not show. */
  predicate WellFormedId(id: nat) {
    if HasErr(id) then !HasEff(id) else HasEff(id) || id % ERR_FLAG < SFF_IDS
  }

  /** A proper standard, extended, error, remote or CAN FD frame. */
  predicate WellFormed(f: Frame, fd: bool) {
    && WellFormedId(f.id) && f.len <= MaxLen(fd)
    && (fd ==> !HasRtr(f.id) && f.flags < 16 && f.len8Dlc == 0)
    && (!fd ==> f.flags == 0 && (f.len8Dlc == 0 || (f.len == MAX_DLEN && MAX_DLEN < f.len8Dlc <= MAX_RAW_DLC)))
  }

  /** The identifier as its three flag bits and the rest. */
  lemma IdParts(id: nat)
    requires id < 0x1_0000_0000
    ensures id == id % ERR_FLAG + (if HasErr(id) then ERR_FLAG else 0) + (if HasRtr(id) then RTR_FLAG else 0)
                + (if HasEff(id) then EFF_FLAG else 0)
    ensures id % RTR_FLAG == id % ERR_FLAG + (if HasErr(id) then ERR_FLAG else 0)
  {
  }

  lemma NormalIdHasNoRtr(id: nat)
    ensures !HasRtr(NormalId(id))
  {
  }

  lemma NormalIdExact(id: nat)
    requires id < 0x1_0000_0000
    ensures (if HasRtr(id) then SetRtr(NormalId(id)) else NormalId(id)) == id <==> WellFormedId(id)
  {
    IdParts(id);
    NormalIdHasNoRtr(id);
  }

  lemma NormalExact(f: Frame, fd: bool)
    requires Valid(f)
    ensures Restores(f, Normal(f, fd)) <==> WellFormed(f, fd)
  {
    NormalIdExact(f.id);
    NormalIdHasNoRtr(f.id);
  }

  /** Printing and reading restores exactly the well-formed frames. */
  lemma RoundTripExact(f: Frame, sep: bool, fd: bool)
    requires Valid(f)
    ensures var r := Parse(Print(f, sep, fd));
      && r.Parsed? && r.mtu == (if fd then CANFD_MTU else CAN_MTU)
      && |r.frame.data| == FD_MAX_DLEN && (Restores(f, r.frame) <==> WellFormed(f, fd))
  {
    PrintedReadBack(f, sep, fd);
    NormalExact(f, fd);
  }
}
