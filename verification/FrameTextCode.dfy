/**
 * sprint_canframe() and parse_canframe() as they work: one fills a buffer
 * behind a moving offset, the other scans a string with a moving index.
 */
module FrameTextCode {
  import opened Bytes
  import opened FrameText

  /** CL_CFSZ, the size of the buffers that callers pass. */
  const CL_CFSZ: nat := 280

  // ---- Printing ----

  /** _put_id(): the digits from the last to the first. */
  method PutId(buf: array<char>, n: nat, id: nat)
    requires n <= buf.Length
    modifies buf
    ensures buf[..n] == HexText(id, n) && buf[n..] == old(buf[n..])
  {
    var end: int, v := n - 1, id;
    ghost var low: seq<char> := [];
    while end >= 0
      invariant -1 <= end < n && |low| == n - 1 - end
      invariant HexText(id, n) == HexText(v, end + 1) + low
      invariant buf[end + 1..n] == low && buf[n..] == old(buf[n..])
    {
      assert HexText(v, end + 1) + low == HexText(v / 16, end) + ([HexChar(v % 16)] + low);
      buf[end] := HexChar(v % 16);
      low := [HexChar(v % 16)] + low;
      assert buf[end..n] == low;
      end, v := end - 1, v / 16;
    }
    assert buf[..n] == low;
  }

  /** Appends to the text in buf. */
  method Put(buf: array<char>, offset: nat, c: char) returns (next: nat)
    requires offset < buf.Length
    modifies buf
    ensures next == offset + 1 && buf[..next] == old(buf[..offset]) + [c]
  {
    buf[offset] := c;
    next := offset + 1;
  }

  method PutHeader(buf: array<char>, id: nat) returns (offset: nat)
    requires buf.Length >= CL_CFSZ
    modifies buf
    ensures offset <= 9 && buf[..offset] == IdText(id)
  {
    if HasErr(id) {
      PutId(buf, 8, id % RTR_FLAG);
      offset := Put(buf, 8, '#');
    } else if HasEff(id) {
      PutId(buf, 8, id % ERR_FLAG);
      offset := Put(buf, 8, '#');
    } else {
      PutId(buf, 3, id % SFF_IDS);
      offset := Put(buf, 3, '#');
    }
  }

  method PutDlc(buf: array<char>, start: nat, len: nat, dlc: nat) returns (offset: nat)
    requires start + 2 < buf.Length
    modifies buf
    ensures offset <= start + 2 && buf[..offset] == old(buf[..start]) + DlcText(len, dlc)
  {
    offset := start;
    if len == MAX_DLEN && MAX_DLEN < dlc <= MAX_RAW_DLC {
      offset := Put(buf, offset, '_');
      offset := Put(buf, offset, HexChar(dlc));
    }
  }

  method PutRemote(buf: array<char>, start: nat, f: Frame) returns (offset: nat)
    requires start + 5 < buf.Length
    modifies buf
    ensures offset <= start + 4 && buf[..offset] == old(buf[..start]) + RemoteText(f)
  {
    offset := Put(buf, start, 'R');
    if 0 < f.len <= MAX_DLEN {
      offset := Put(buf, offset, HexChar(f.len));
      offset := PutDlc(buf, offset, f.len, f.len8Dlc);
    }
  }

  method PutFd(buf: array<char>, start: nat, flags: nat, len: nat, sep: bool) returns (offset: nat)
    requires start + 4 < buf.Length
    modifies buf
    ensures offset <= start + 3 && buf[..offset] == old(buf[..start]) + FdText(flags, len, sep)
  {
    offset := Put(buf, start, '#');
    offset := Put(buf, offset, HexChar(flags % 16));
    if sep && len > 0 {
      offset := Put(buf, offset, '.');
    }
  }

  /** put_hex_byte() and the separator after all octets but the last. */
  method PutOctet(buf: array<char>, start: nat, b: nat, dot: bool) returns (offset: nat)
    requires start + 3 < buf.Length && b < 256
    modifies buf
    ensures offset <= start + 3 && buf[..offset] == old(buf[..start]) + (ByteText(b) + Dot(dot))
  {
    offset := Put(buf, start, HexChar(b / 16));
    offset := Put(buf, offset, HexChar(b % 16));
    if dot {
      offset := Put(buf, offset, '.');
    }
  }

  lemma DataTextStep(data: seq<nat>, i: nat, sep: bool, before: seq<char>, all: seq<char>)
    requires (forall k :: 0 <= k < |data| ==> data[k] < 256) && i < |data|
    requires all == before + DataText(data[i..], sep)
    ensures all == before + (ByteText(data[i]) + Dot(sep && i + 1 < |data|)) + DataText(data[i + 1..], sep)
  {
    assert data[i..][1..] == data[i + 1..];
  }

  method PutData(buf: array<char>, start: nat, data: seq<nat>, sep: bool) returns (offset: nat)
    requires (forall i :: 0 <= i < |data| ==> data[i] < 256) && start + 3 * |data| < buf.Length
    modifies buf
    ensures offset <= start + 3 * |data| && buf[..offset] == old(buf[..start]) + DataText(data, sep)
  {
    offset := start;
    ghost var all := buf[..start] + DataText(data, sep);
    assert data[0..] == data;
    for i := 0 to |data|
      invariant start <= offset <= start + 3 * i
      invariant all == buf[..offset] + DataText(data[i..], sep)
    {
      DataTextStep(data, i, sep, buf[..offset], all);
      offset := PutOctet(buf, offset, data[i], sep && i + 1 < |data|);
    }
    assert all == buf[..offset];
  }

  method PutFdBody(buf: array<char>, start: nat, flags: nat, data: seq<nat>, sep: bool) returns (offset: nat)
    requires (forall i :: 0 <= i < |data| ==> data[i] < 256) && start + 4 + 3 * |data| < buf.Length
    modifies buf
    ensures offset < buf.Length && buf[..offset] == old(buf[..start]) + (FdText(flags, |data|, sep) + DataText(data, sep))
  {
    offset := PutFd(buf, start, flags, |data|, sep);
    offset := PutData(buf, offset, data, sep);
  }

  method PutClassicalBody(buf: array<char>, start: nat, data: seq<nat>, dlc: nat, sep: bool) returns (offset: nat)
    requires (forall i :: 0 <= i < |data| ==> data[i] < 256) && start + 3 + 3 * |data| < buf.Length
    modifies buf
    ensures offset < buf.Length && buf[..offset] == old(buf[..start]) + (DataText(data, sep) + DlcText(|data|, dlc))
  {
    offset := PutData(buf, start, data, sep);
    offset := PutDlc(buf, offset, |data|, dlc);
  }

  method PutBody(buf: array<char>, start: nat, f: Frame, sep: bool, fd: bool) returns (offset: nat)
    requires Valid(f) && start <= 9 && buf.Length >= CL_CFSZ
    modifies buf
    ensures offset < buf.Length && buf[..offset] == old(buf[..start]) + BodyText(f, sep, fd)
  {
    var len := if f.len > MaxLen(fd) then MaxLen(fd) else f.len;
    if fd {
      offset := PutFdBody(buf, start, f.flags, f.data[..len], sep);
    } else if HasRtr(f.id) {
      offset := PutRemote(buf, start, f);
    } else {
      offset := PutClassicalBody(buf, start, f.data[..len], f.len8Dlc, sep);
    }
  }

  /** sprint_canframe(): the text, terminated, and never past the caller's buffer. */
  method SprintCanframe(buf: array<char>, f: Frame, sep: bool, fd: bool) returns (offset: nat)
    requires Valid(f) && buf.Length >= CL_CFSZ
    modifies buf
    ensures offset < buf.Length && buf[..offset] == Print(f, sep, fd) && buf[offset] == '\0'
  {
    offset := PutHeader(buf, f.id);
    offset := PutBody(buf, offset, f, sep, fd);
    buf[offset] := '\0';
  }

  // ---- Reading ----

  /** The digits of an identifier, the first one first. */
  method ReadId(cs: seq<char>, n: nat) returns (r: Option<nat>)
    requires n <= |cs|
    ensures r == HexValue(cs[..n])
  {
    var id := 0;
    for i := 0 to n
      invariant HexValue(cs[..i]) == Some(id)
    {
      assert cs[..i + 1][..i] == cs[..i];
      var tmp := Nibble(cs[i]);
      if tmp > 15 {
        BadDigit(cs, i, n);
        return None;
      }
      id := id * 16 + tmp;
    }
    return Some(id);
  }

  /** A bad digit spoils the whole number. */
  lemma {:induction false} BadDigit(cs: seq<char>, i: nat, n: nat)
    requires i < n <= |cs| && Nibble(cs[i]) > 15
    ensures HexValue(cs[..n]) == None
  {
    assert cs[..n][..n - 1] == cs[..n - 1];
    if i < n - 1 {
      BadDigit(cs, i, n - 1);
    }
  }

  method ReadHeader(cs: seq<char>) returns (r: Id)
    ensures r == ParseId(cs)
  {
    if |cs| < 4 { return NoId; }
    if cs[3] == '#' {
      var v := ReadId(cs, 3);
      if v.None? { return NoId; }
      return Id(v.value, 4);
    }
    if At(cs, 8) != '#' { return NoId; }
    var v := ReadId(cs, 8);
    if v.None? { return NoId; }
    return Id(if HasErr(v.value) then v.value else SetEff(v.value), 9);
  }

  /** The data loop: its octets and the index after them. */
  method ReadData(cs: seq<char>, start: nat, max: nat) returns (ok: bool, data: seq<nat>, idx: nat)
    requires start <= |cs|
    ensures ok ==> idx <= |cs| && ParseData(cs[start..], max) == Some((data, cs[idx..]))
    ensures !ok ==> ParseData(cs[start..], max) == None
  {
    ok, data, idx := true, [], start;
    ghost var whole := ParseData(cs[start..], max);
    ghost var rest := whole;
    ExtendByNothing([], whole, []);
    var i := 0;
    while i < max
      invariant i == |data| <= max && idx <= |cs|
      invariant whole == Extend(data, rest) && rest == ParseData(cs[idx..], max - i)
    {
      var octet, next := ReadOctet(cs, idx, max - i, rest);
      if octet == 256 {
        ExtendByNothing(data, None, []);
        return true, data, next;
      }
      if octet > 256 { return false, data, idx; }
      rest := ParseData(cs[next..], max - i - 1);
      ExtendTwice(data, octet, rest);
      data, idx, i := data + [octet], next, i + 1;
    }
    ExtendByNothing(data, None, cs[idx..]);
  }

  /** One turn of the data loop: an octet, 256 at the end of the text, or 257 at a bad digit. */
  method ReadOctet(cs: seq<char>, idx: nat, left: nat, ghost here: Option<(seq<nat>, seq<char>)>)
    returns (octet: nat, next: nat)
    requires idx <= |cs| && left > 0 && here == ParseData(cs[idx..], left)
    ensures octet < 256 ==> next <= |cs| && here == Extend([octet], ParseData(cs[next..], left - 1))
    ensures octet == 256 ==> next <= |cs| && here == Some(([], [])) && cs[next..] == []
    ensures octet > 256 ==> here == None
  {
    ReadStep(cs, idx, left);
    next := if At(cs, idx) == '.' then idx + 1 else idx;
    if next >= |cs| { return 256, next; }
    if Nibble(cs[next]) > 15 { return 257, next; }
    if Nibble(At(cs, next + 1)) > 15 { return 257, next; }
    return 16 * Nibble(cs[next]) + Nibble(cs[next + 1]), next + 2;
  }

  /** One turn of the data loop. */
  lemma ReadStep(cs: seq<char>, idx: nat, left: nat)
    requires idx <= |cs| && left > 0
    ensures var j := if At(cs, idx) == '.' then idx + 1 else idx;
      && ParseData(cs[idx..], left) ==
         if j >= |cs| then Some(([], []))
         else if Nibble(cs[j]) > 15 || Nibble(At(cs, j + 1)) > 15 then None
         else Extend([16 * Nibble(cs[j]) + Nibble(cs[j + 1])], ParseData(cs[j + 2..], left - 1))
  {
    var j := if At(cs, idx) == '.' then idx + 1 else idx;
    var t := if At(cs[idx..], 0) == '.' then cs[idx..][1..] else cs[idx..];
    assert t == cs[j..];
    if j + 1 < |cs| {
      assert t[2..] == cs[j + 2..];
    }
  }

  /** A result with octets put in front. */
  function Extend(data: seq<nat>, r: Option<(seq<nat>, seq<char>)>): Option<(seq<nat>, seq<char>)> {
    if r.None? then None else Some((data + r.value.0, r.value.1))
  }

  lemma ExtendByNothing(data: seq<nat>, r: Option<(seq<nat>, seq<char>)>, s: seq<char>)
    ensures Extend([], r) == r && Extend(data, Some(([], s))) == Some((data, s))
  {
    assert data + [] == data;
    if r.Some? {
      assert [] + r.value.0 == r.value.0;
    }
  }

  lemma ExtendTwice(data: seq<nat>, b: nat, r: Option<(seq<nat>, seq<char>)>)
    ensures Extend(data, Extend([b], r)) == Extend(data + [b], r)
  {
    if r.Some? {
      assert data + ([b] + r.value.0) == (data + [b]) + r.value.0;
    }
  }

  /** parse_canframe() */
  method ParseCanframe(cs: seq<char>) returns (r: Parsed)
    ensures r == Parse(cs)
  {
    var id := ReadHeader(cs);
    if id.NoId? { return Bad; }
    var c := At(cs, id.next);
    if c == 'R' || c == 'r' {
      r := ReadRemote(cs, id.id, id.next + 1);
    } else if c == '#' {
      r := ReadFd(cs, id.id, id.next + 1);
    } else {
      r := ReadClassical(cs, id.id, id.next);
    }
  }

  method ReadRemote(cs: seq<char>, id: nat, start: nat) returns (r: Parsed)
    requires start <= |cs|
    ensures r == ParseRemote(id, cs[start..])
  {
    var len, dlc := 0, 0;
    if At(cs, start) != '\0' && Nibble(At(cs, start)) <= MAX_DLEN {
      len := Nibble(At(cs, start));
      if len == MAX_DLEN && At(cs, start + 1) == '_' {
        var tmp := Nibble(At(cs, start + 2));
        if MAX_DLEN < tmp <= MAX_RAW_DLC {
          dlc := tmp;
        }
      }
    }
    return Parsed(CAN_MTU, Read(SetRtr(id), len, 0, dlc, []));
  }

  method ReadFd(cs: seq<char>, id: nat, start: nat) returns (r: Parsed)
    requires start <= |cs|
    ensures r == ParseFd(id, cs[start..])
  {
    if Nibble(At(cs, start)) > 15 { return Bad; }
    assert cs[start..][1..] == cs[start + 1..];
    var ok, data, idx := ReadData(cs, start + 1, FD_MAX_DLEN);
    if !ok { return Bad; }
    return Parsed(CANFD_MTU, Read(id, |data|, Nibble(cs[start]), 0, data));
  }

  method ReadClassical(cs: seq<char>, id: nat, start: nat) returns (r: Parsed)
    requires start <= |cs|
    ensures r == ParseClassical(id, cs[start..])
  {
    var ok, data, idx := ReadData(cs, start, MAX_DLEN);
    if !ok { return Bad; }
    var dlc := 0;
    if |data| == MAX_DLEN && At(cs, idx) == '_' {
      var tmp := Nibble(At(cs, idx + 1));
      if MAX_DLEN < tmp <= MAX_RAW_DLC {
        dlc := tmp;
      }
    }
    return Parsed(CAN_MTU, Read(id, |data|, 0, dlc, data));
  }
}
