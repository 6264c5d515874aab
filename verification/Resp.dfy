/**
 * The Redis serialization protocol as a plain recursive-descent parser over a
 * whole byte string. It is the reference against which the incremental reader
 * of read.c is proved; it accepts and rejects what that reader does.
 */
module Resp {
  import opened Bytes
  import opened Decimal

  /** Reply types, one per leading byte (read.h:51-64). */
  datatype Kind =
    | Error | Status | Integer | Double | Nil | Bool | Bignum
    | String | Verb
    | Array | Map | Set | Push
  {
    predicate IsLine() {
      Error? || Status? || Integer? || Double? || Nil? || Bool? || Bignum?
    }

    predicate IsBulk() {
      String? || Verb?
    }

    predicate IsAggregate() {
      Array? || Map? || Set? || Push?
    }
  }

  datatype Reply =
    | NilReply
    | IntegerReply(value: int)
    | BoolReply(flag: bool)
    | TextReply(kind: Kind, text: seq<byte>)
    | VerbReply(vtype: seq<byte>, text: seq<byte>)
    | AggregateReply(kind: Kind, elements: seq<Reply>)

  datatype Fault =
    | BadTypeByte(b: byte)
    | BadInteger | DoubleTooLarge | BadDouble | BadNil | BadBool | BadBignum | BadSimpleString
    | BadBulkLength | BulkLengthOutOfRange | BadVerbatim
    | BadMultiBulkLength | MultiBulkLengthOutOfRange

  /** A parse of a prefix: a value and the bytes after it, not enough bytes, or a fault. */
  datatype Parse<+T> = Done(value: T, rest: seq<byte>) | More | Fail(fault: Fault)

  datatype Checked = Good(reply: Reply) | Bad(fault: Fault)

  /**
   * What the reader is configured with: the element limit of read.h:103 and
   * whether strtod() reads a text completely and yields a finite number.
   */
  datatype Config = Config(maxElements: int, isFinite: seq<byte> -> bool)

  function KindOf(b: byte): Option<Kind> {
    if b == 45 then Some(Error)
    else if b == 43 then Some(Status)
    else if b == 58 then Some(Integer)
    else if b == 44 then Some(Double)
    else if b == 95 then Some(Nil)
    else if b == 36 then Some(String)
    else if b == 42 then Some(Array)
    else if b == 37 then Some(Map)
    else if b == 126 then Some(Set)
    else if b == 35 then Some(Bool)
    else if b == 61 then Some(Verb)
    else if b == 62 then Some(Push)
    else if b == 40 then Some(Bignum)
    else None
  }

  predicate NewlineAt(s: seq<byte>, i: int) {
    0 <= i && i + 1 < |s| && s[i] == CR && s[i + 1] == LF
  }

  /** The position of the first CRLF. */
  ghost function Newline(s: seq<byte>): (r: Option<nat>)
    ensures r.Some? ==> NewlineAt(s, r.value) && forall i :: 0 <= i < r.value ==> !NewlineAt(s, i)
    ensures r.None? ==> forall i :: !NewlineAt(s, i)
  {
    if exists i :: NewlineAt(s, i) && forall j :: 0 <= j < i ==> !NewlineAt(s, j) then
      var i :| NewlineAt(s, i) && forall j :: 0 <= j < i ==> !NewlineAt(s, j);
      Some(i)
    else
      NoFirstNoNewline(s);
      None
  }

  lemma NoFirstNoNewline(s: seq<byte>)
    requires !exists i :: NewlineAt(s, i) && forall j :: 0 <= j < i ==> !NewlineAt(s, j)
    ensures forall i :: !NewlineAt(s, i)
  {
    var n := 0;
    while n < |s|
      invariant 0 <= n <= |s| && forall i :: 0 <= i < n ==> !NewlineAt(s, i)
    {
      n := n + 1;
    }
  }

  predicate Lower(b: byte, c: byte) {
    b == c || (65 <= b <= 90 && b + 32 == c)
  }

  /** "inf" or "-inf" in any letter case. */
  predicate IsInfinity(s: seq<byte>) {
    || (|s| == 3 && Lower(s[0], 105) && Lower(s[1], 110) && Lower(s[2], 102))
    || (|s| == 4 && s[0] == MINUS && Lower(s[1], 105) && Lower(s[2], 110) && Lower(s[3], 102))
  }

  predicate BignumText(s: seq<byte>) {
    forall i :: 0 <= i < |s| ==> IsDigit(s[i]) || (i == 0 && s[0] == MINUS)
  }

  predicate SimpleText(s: seq<byte>) {
    forall i :: 0 <= i < |s| ==> s[i] != CR && s[i] != LF
  }

  /** t, T, f, F and, because strchr() also finds its terminator, NUL. */
  predicate BoolByte(b: byte) {
    b == 116 || b == 84 || b == 102 || b == 70 || b == 0
  }

  /** The value of the items that consist of one line (read.c:268-392). */
  ghost function LineItem(cfg: Config, kind: Kind, line: seq<byte>): Checked
    requires kind.IsLine()
  {
    match kind
    case Integer =>
      (match IntOf(line) case Some(v) => Good(IntegerReply(v)) case None => Bad(BadInteger))
    case Double =>
      if |line| >= 326 then Bad(DoubleTooLarge)
      else if IsInfinity(line) || (line != [] && line[0] != 0 && cfg.isFinite(line))
      then Good(TextReply(Double, line))
      else Bad(BadDouble)
    case Nil => if line == [] then Good(NilReply) else Bad(BadNil)
    case Bool =>
      if |line| == 1 && BoolByte(line[0]) then Good(BoolReply(line[0] == 116 || line[0] == 84))
      else Bad(BadBool)
    case Bignum => if BignumText(line) then Good(TextReply(kind, line)) else Bad(BadBignum)
    case _ => if SimpleText(line) then Good(TextReply(kind, line)) else Bad(BadSimpleString)
  }

  /** The value of a bulk payload; a verbatim string carries a three-byte format and a colon. */
  function BulkItem(kind: Kind, payload: seq<byte>): Checked
    requires kind.IsBulk()
  {
    if kind.Verb? then
      if |payload| < 4 || payload[3] != 58 then Bad(BadVerbatim)
      else Good(VerbReply(payload[..3], payload[4..]))
    else
      Good(TextReply(kind, payload))
  }

  function Finish(c: Checked, rest: seq<byte>): Parse<Reply> {
    match c
    case Good(v) => Done(v, rest)
    case Bad(e) => Fail(e)
  }

  ghost function ParseLine(cfg: Config, kind: Kind, s: seq<byte>): (p: Parse<Reply>)
    requires kind.IsLine()
    ensures p.Done? ==> |p.rest| < |s|
  {
    match Newline(s)
    case None => More
    case Some(i) => Finish(LineItem(cfg, kind, s[..i]), s[i + 2..])
  }

  ghost function ParseBulk(kind: Kind, s: seq<byte>): (p: Parse<Reply>)
    requires kind.IsBulk()
    ensures p.Done? ==> |p.rest| < |s|
  {
    match Newline(s)
    case None => More
    case Some(i) =>
      match IntOf(s[..i])
      case None => Fail(BadBulkLength)
      case Some(len) =>
        if len < -1 then Fail(BulkLengthOutOfRange)
        else if len == -1 then Done(NilReply, s[i + 2..])
        else if |s| < i + 2 + len + 2 then More
        else Finish(BulkItem(kind, s[i + 2..i + 2 + len]), s[i + 2 + len + 2..])
  }

  /** The header line of an aggregate: -1 for nil, otherwise the number of elements to follow. */
  ghost function ParseHeader(cfg: Config, kind: Kind, s: seq<byte>): (p: Parse<int>)
    requires kind.IsAggregate()
    ensures p.Done? ==> |p.rest| < |s| && p.value >= -1
  {
    match Newline(s)
    case None => More
    case Some(i) =>
      match IntOf(s[..i])
      case None => Fail(BadMultiBulkLength)
      case Some(n) =>
        if n < -1 || (cfg.maxElements > 0 && n > cfg.maxElements) then Fail(MultiBulkLengthOutOfRange)
        else Done(if kind.Map? && n > 0 then 2 * n else n, s[i + 2..])
  }

  /** An item whose type byte has been read. */
  ghost function ParseTyped(cfg: Config, kind: Kind, s: seq<byte>): (p: Parse<Reply>)
    ensures p.Done? ==> |p.rest| < |s|
    decreases |s|, 1
  {
    if kind.IsLine() then ParseLine(cfg, kind, s)
    else if kind.IsBulk() then ParseBulk(kind, s)
    else
      match ParseHeader(cfg, kind, s)
      case More => More
      case Fail(e) => Fail(e)
      case Done(n, rest) =>
        if n == -1 then Done(NilReply, rest)
        else Wrap(kind, [], ParseElements(cfg, n, rest))
  }

  /** One complete reply at the front of `s`. */
  ghost function ParseItem(cfg: Config, s: seq<byte>): (p: Parse<Reply>)
    ensures p.Done? ==> |p.rest| < |s|
    decreases |s|, 2
  {
    if s == [] then More
    else
      match KindOf(s[0])
      case None => Fail(BadTypeByte(s[0]))
      case Some(kind) => ParseTyped(cfg, kind, s[1..])
  }

  /** `n` replies one after the other. */
  ghost function ParseElements(cfg: Config, n: nat, s: seq<byte>): (p: Parse<seq<Reply>>)
    ensures p.Done? ==> |p.rest| <= |s| && |p.value| == n
    decreases |s|, 3
  {
    if n == 0 then Done([], s)
    else
      match ParseItem(cfg, s)
      case More => More
      case Fail(e) => Fail(e)
      case Done(v, rest) => Cons(v, ParseElements(cfg, n - 1, rest))
  }

  function Cons(v: Reply, p: Parse<seq<Reply>>): Parse<seq<Reply>> {
    match p
    case More => More
    case Fail(e) => Fail(e)
    case Done(vs, rest) => Done([v] + vs, rest)
  }

  function Wrap(kind: Kind, done: seq<Reply>, p: Parse<seq<Reply>>): Parse<Reply> {
    match p
    case More => More
    case Fail(e) => Fail(e)
    case Done(vs, rest) => Done(AggregateReply(kind, done + vs), rest)
  }

  /** All replies of a stream, and the fault that ends it if there is one. */
  ghost function ParseStream(cfg: Config, s: seq<byte>): (seq<Reply>, Option<Fault>)
    decreases |s|
  {
    match ParseItem(cfg, s)
    case More => ([], None)
    case Fail(e) => ([], Some(e))
    case Done(v, rest) =>
      var (vs, e) := ParseStream(cfg, rest);
      ([v] + vs, e)
  }

  // ---- More input never changes a decision already taken ----

  function Extend<T>(p: Parse<T>, t: seq<byte>): Parse<T> {
    match p
    case More => More
    case Fail(e) => Fail(e)
    case Done(v, rest) => Done(v, rest + t)
  }

  lemma NewlineStable(s: seq<byte>, t: seq<byte>)
    requires Newline(s).Some?
    ensures Newline(s + t) == Newline(s)
  {
    var i := Newline(s).value;
    assert NewlineAt(s + t, i);
    var j := Newline(s + t).value;
    assert j < i ==> NewlineAt(s, j);
  }

  lemma LineStable(cfg: Config, kind: Kind, s: seq<byte>, t: seq<byte>)
    requires kind.IsLine() && !ParseLine(cfg, kind, s).More?
    ensures ParseLine(cfg, kind, s + t) == Extend(ParseLine(cfg, kind, s), t)
  {
    NewlineStable(s, t);
    var i := Newline(s).value;
    assert (s + t)[..i] == s[..i] && (s + t)[i + 2..] == s[i + 2..] + t;
  }

  lemma PartsStable(s: seq<byte>, t: seq<byte>, i: nat, k: nat)
    requires i <= k <= |s|
    ensures (s + t)[i..k] == s[i..k] && (s + t)[..k] == s[..k] && (s + t)[k..] == s[k..] + t
  {
  }

  lemma BulkStable(kind: Kind, s: seq<byte>, t: seq<byte>)
    requires kind.IsBulk() && !ParseBulk(kind, s).More?
    ensures ParseBulk(kind, s + t) == Extend(ParseBulk(kind, s), t)
  {
    NewlineStable(s, t);
    var i := Newline(s).value;
    PartsStable(s, t, 0, i);
    PartsStable(s, t, 0, i + 2);
    var n := IntOf(s[..i]);
    if n.Some? && n.value >= 0 {
      var k := i + 2 + n.value;
      PartsStable(s, t, i + 2, k);
      PartsStable(s, t, i + 2, k + 2);
    }
  }

  lemma HeaderStable(cfg: Config, kind: Kind, s: seq<byte>, t: seq<byte>)
    requires kind.IsAggregate() && !ParseHeader(cfg, kind, s).More?
    ensures ParseHeader(cfg, kind, s + t) == Extend(ParseHeader(cfg, kind, s), t)
  {
    NewlineStable(s, t);
    var i := Newline(s).value;
    assert (s + t)[..i] == s[..i] && (s + t)[i + 2..] == s[i + 2..] + t;
  }

  lemma {:induction false} TypedStable(cfg: Config, kind: Kind, s: seq<byte>, t: seq<byte>)
    requires !ParseTyped(cfg, kind, s).More?
    ensures ParseTyped(cfg, kind, s + t) == Extend(ParseTyped(cfg, kind, s), t)
    decreases |s|, 1
  {
    if kind.IsLine() {
      LineStable(cfg, kind, s, t);
    } else if kind.IsBulk() {
      BulkStable(kind, s, t);
    } else {
      HeaderStable(cfg, kind, s, t);
      var h := ParseHeader(cfg, kind, s);
      if h.Done? && h.value >= 0 {
        ElementsStable(cfg, h.value, h.rest, t);
      }
    }
  }

  /** A complete reply or a fault is final: later bytes only lengthen what is left over. */
  lemma {:induction false} ItemStable(cfg: Config, s: seq<byte>, t: seq<byte>)
    requires !ParseItem(cfg, s).More?
    ensures ParseItem(cfg, s + t) == Extend(ParseItem(cfg, s), t)
    decreases |s|, 2
  {
    assert (s + t)[0] == s[0] && (s + t)[1..] == s[1..] + t;
    if KindOf(s[0]).Some? {
      TypedStable(cfg, KindOf(s[0]).value, s[1..], t);
    }
  }

  lemma {:induction false} ElementsStable(cfg: Config, n: nat, s: seq<byte>, t: seq<byte>)
    requires !ParseElements(cfg, n, s).More?
    ensures ParseElements(cfg, n, s + t) == Extend(ParseElements(cfg, n, s), t)
    decreases |s|, 3
  {
    if n > 0 {
      ItemStable(cfg, s, t);
      var p := ParseItem(cfg, s);
      if p.Done? {
        ElementsStable(cfg, n - 1, p.rest, t);
      }
    }
  }

  // ---- Parsing suspended inside nested aggregates ----

  /** An aggregate in progress: `total` elements declared, `done` of them read. */
  datatype Frame = Frame(kind: Kind, total: nat, done: seq<Reply>)

  ghost predicate Open(frames: seq<Frame>) {
    forall i :: 0 <= i < |frames| ==> |frames[i].done| < frames[i].total
  }

  /** The outcome of the outermost item once the innermost one has outcome `p`. */
  ghost function Resume(cfg: Config, frames: seq<Frame>, p: Parse<Reply>): Parse<Reply>
    requires Open(frames)
    decreases |frames|
  {
    if frames == [] || !p.Done? then p
    else
      var outer, f := frames[..|frames| - 1], frames[|frames| - 1];
      Resume(cfg, outer, Wrap(f.kind, f.done + [p.value],
                              ParseElements(cfg, f.total - |f.done| - 1, p.rest)))
  }

  /** The outcome of the outermost item when `s` continues at the innermost one. */
  ghost function Meaning(cfg: Config, frames: seq<Frame>, typ: Option<Kind>, s: seq<byte>): Parse<Reply>
    requires Open(frames)
  {
    Resume(cfg, frames, if typ.Some? then ParseTyped(cfg, typ.value, s) else ParseItem(cfg, s))
  }

  function Filled(frames: seq<Frame>, v: Reply): seq<Frame>
    requires |frames| > 0
  {
    var k := |frames| - 1;
    frames[k := frames[k].(done := frames[k].done + [v])]
  }

  /** Filling a slot that is not the last one moves on to the next sibling. */
  lemma NextSibling(cfg: Config, frames: seq<Frame>, v: Reply, s: seq<byte>)
    requires |frames| > 0 && Open(frames) && Open(Filled(frames, v))
    ensures Resume(cfg, frames, Done(v, s)) == Meaning(cfg, Filled(frames, v), None, s)
  {
    var k := |frames| - 1;
    var outer, f, g := frames[..k], frames[k], Filled(frames, v)[k];
    assert Filled(frames, v)[..k] == outer;
    var m := f.total - |f.done| - 1;
    var p := ParseItem(cfg, s);
    if p.Done? {
      var q := ParseElements(cfg, m - 1, p.rest);
      if q.Done? {
        assert f.done + [v] + ([p.value] + q.value) == g.done + [p.value] + q.value;
      }
      assert Wrap(f.kind, f.done + [v], ParseElements(cfg, m, s)) == Wrap(g.kind, g.done + [p.value], q);
    }
  }

  function Completed(f: Frame, v: Reply): Reply {
    AggregateReply(f.kind, f.done + [v])
  }

  /** Filling the last slot completes the aggregate. */
  lemma LastSibling(cfg: Config, frames: seq<Frame>, v: Reply, s: seq<byte>)
    requires |frames| > 0 && Open(frames)
    requires |frames[|frames| - 1].done| + 1 == frames[|frames| - 1].total
    ensures Resume(cfg, frames, Done(v, s))
         == Resume(cfg, frames[..|frames| - 1], Done(Completed(frames[|frames| - 1], v), s))
  {
    var f := frames[|frames| - 1];
    assert f.done + [v] + [] == f.done + [v];
  }

  /** Opening a nonempty aggregate suspends the outer ones. */
  lemma Descend(cfg: Config, frames: seq<Frame>, kind: Kind, n: nat, s: seq<byte>)
    requires Open(frames) && n > 0
    ensures Open(frames + [Frame(kind, n, [])])
    ensures Resume(cfg, frames, Wrap(kind, [], ParseElements(cfg, n, s)))
         == Meaning(cfg, frames + [Frame(kind, n, [])], None, s)
  {
    var inner := frames + [Frame(kind, n, [])];
    assert inner[..|inner| - 1] == frames;
    var p := ParseItem(cfg, s);
    if p.Done? {
      var q := ParseElements(cfg, n - 1, p.rest);
      if q.Done? {
        assert [] + ([p.value] + q.value) == [] + [p.value] + q.value;
      }
    }
  }

  // ---- What is known after the bytes `seen` of an item ----

  /** Parsing on at the innermost item agrees with parsing the whole item, whatever follows. */
  ghost predicate Tracks(cfg: Config, frames: seq<Frame>, typ: Option<Kind>, seen: seq<byte>) {
    && Open(frames)
    && forall s {:trigger Meaning(cfg, frames, typ, s)} ::
         Meaning(cfg, frames, typ, s) == ParseItem(cfg, seen + s)
  }

  /** The innermost item has just been read as `v`. */
  ghost predicate Returns(cfg: Config, frames: seq<Frame>, v: Reply, seen: seq<byte>) {
    && Open(frames)
    && forall s {:trigger Resume(cfg, frames, Done(v, s))} ::
         Resume(cfg, frames, Done(v, s)) == ParseItem(cfg, seen + s)
  }

  lemma TracksStart(cfg: Config)
    ensures Tracks(cfg, [], None, [])
  {
    forall s ensures Meaning(cfg, [], None, s) == ParseItem(cfg, [] + s) {
      assert [] + s == s;
    }
  }

  lemma TracksTyped(cfg: Config, frames: seq<Frame>, seen: seq<byte>, b: byte)
    requires Tracks(cfg, frames, None, seen) && KindOf(b).Some?
    ensures Tracks(cfg, frames, KindOf(b), seen + [b])
  {
    forall s ensures Meaning(cfg, frames, KindOf(b), s) == ParseItem(cfg, seen + [b] + s) {
      assert Meaning(cfg, frames, None, [b] + s) == ParseItem(cfg, seen + ([b] + s));
      assert seen + [b] + s == seen + ([b] + s);
      assert ([b] + s)[1..] == s;
    }
  }

  /** The tracked outcome when the next bytes are `c`. */
  lemma TracksAt(cfg: Config, frames: seq<Frame>, kind: Kind, seen: seq<byte>, c: seq<byte>, s: seq<byte>)
    requires Tracks(cfg, frames, Some(kind), seen)
    ensures Resume(cfg, frames, ParseTyped(cfg, kind, c + s)) == ParseItem(cfg, seen + c + s)
  {
    assert seen + c + s == seen + (c + s);
    assert Meaning(cfg, frames, Some(kind), c + s) == ParseItem(cfg, seen + (c + s));
  }

  lemma TracksRead(cfg: Config, frames: seq<Frame>, kind: Kind, seen: seq<byte>, c: seq<byte>, v: Reply)
    requires Tracks(cfg, frames, Some(kind), seen)
    requires ParseTyped(cfg, kind, c) == Done(v, [])
    ensures Returns(cfg, frames, v, seen + c)
  {
    forall s ensures Resume(cfg, frames, Done(v, s)) == ParseItem(cfg, seen + c + s) {
      TracksAt(cfg, frames, kind, seen, c, s);
      assert ParseTyped(cfg, kind, c + s) == Done(v, s) by {
        TypedStable(cfg, kind, c, s);
        assert [] + s == s;
      }
    }
  }

  lemma HeaderThenElements(cfg: Config, kind: Kind, c: seq<byte>, n: nat, s: seq<byte>)
    requires kind.IsAggregate() && ParseHeader(cfg, kind, c) == Done(n, [])
    ensures ParseTyped(cfg, kind, c + s) == Wrap(kind, [], ParseElements(cfg, n, s))
  {
    HeaderStable(cfg, kind, c, s);
    assert [] + s == s;
  }

  lemma HeaderAlone(cfg: Config, kind: Kind, c: seq<byte>, n: int)
    requires kind.IsAggregate() && ParseHeader(cfg, kind, c) == Done(n, []) && n <= 0
    ensures ParseTyped(cfg, kind, c) == Done(if n == 0 then AggregateReply(kind, []) else NilReply, [])
  {
    if n == 0 {
      var none: seq<Reply> := [];
      assert none + none == none;
    }
  }

  lemma TracksOpened(cfg: Config, frames: seq<Frame>, kind: Kind, seen: seq<byte>, c: seq<byte>, n: nat)
    requires Tracks(cfg, frames, Some(kind), seen)
    requires kind.IsAggregate() && n > 0 && ParseHeader(cfg, kind, c) == Done(n, [])
    ensures Tracks(cfg, frames + [Frame(kind, n, [])], None, seen + c)
  {
    var inner := frames + [Frame(kind, n, [])];
    assert Open(inner);
    forall s ensures Meaning(cfg, inner, None, s) == ParseItem(cfg, seen + c + s) {
      TracksAt(cfg, frames, kind, seen, c, s);
      HeaderThenElements(cfg, kind, c, n, s);
      Descend(cfg, frames, kind, n, s);
    }
  }

  lemma ReturnsOutward(cfg: Config, frames: seq<Frame>, v: Reply, seen: seq<byte>)
    requires Returns(cfg, frames, v, seen) && |frames| > 0
    requires |frames[|frames| - 1].done| + 1 == frames[|frames| - 1].total
    ensures Returns(cfg, frames[..|frames| - 1], Completed(frames[|frames| - 1], v), seen)
  {
    var outer, w := frames[..|frames| - 1], Completed(frames[|frames| - 1], v);
    forall s ensures Resume(cfg, outer, Done(w, s)) == ParseItem(cfg, seen + s) {
      LastSibling(cfg, frames, v, s);
      assert Resume(cfg, frames, Done(v, s)) == ParseItem(cfg, seen + s);
    }
  }

  lemma ReturnsNext(cfg: Config, frames: seq<Frame>, v: Reply, seen: seq<byte>)
    requires Returns(cfg, frames, v, seen) && |frames| > 0
    requires |frames[|frames| - 1].done| + 1 < frames[|frames| - 1].total
    ensures Tracks(cfg, Filled(frames, v), None, seen)
  {
    forall s ensures Meaning(cfg, Filled(frames, v), None, s) == ParseItem(cfg, seen + s) {
      NextSibling(cfg, frames, v, s);
      assert Resume(cfg, frames, Done(v, s)) == ParseItem(cfg, seen + s);
    }
  }

  // ---- The bytes an item consumes decide it ----

  lemma NewlineInPrefix(s: seq<byte>, m: nat)
    requires Newline(s).Some? && Newline(s).value + 2 <= m <= |s|
    ensures Newline(s[..m]) == Newline(s)
  {
    var i := Newline(s).value;
    assert NewlineAt(s[..m], i);
    var j := Newline(s[..m]).value;
    assert NewlineAt(s, j);
    assert j < i ==> NewlineAt(s, j);
  }

  lemma LineConsumed(cfg: Config, kind: Kind, s: seq<byte>, v: Reply)
    requires kind.IsLine() && Newline(s).Some?
    requires LineItem(cfg, kind, s[..Newline(s).value]) == Good(v)
    ensures ParseTyped(cfg, kind, s[..Newline(s).value + 2]) == Done(v, [])
  {
    var i := Newline(s).value;
    NewlineInPrefix(s, i + 2);
    assert s[..i + 2][..i] == s[..i];
  }

  lemma HeaderConsumed(cfg: Config, kind: Kind, s: seq<byte>, n: int)
    requires kind.IsAggregate() && Newline(s).Some?
    requires ParseHeader(cfg, kind, s) == Done(n, s[Newline(s).value + 2..])
    ensures ParseHeader(cfg, kind, s[..Newline(s).value + 2]) == Done(n, [])
  {
    var i := Newline(s).value;
    NewlineInPrefix(s, i + 2);
    assert s[..i + 2][..i] == s[..i];
  }

  lemma BulkConsumed(kind: Kind, s: seq<byte>, m: nat, v: Reply)
    requires kind.IsBulk() && m <= |s|
    requires ParseBulk(kind, s) == Done(v, s[m..])
    ensures ParseBulk(kind, s[..m]) == Done(v, [])
  {
    var i := Newline(s).value;
    var len := IntOf(s[..i]).value;
    assert |s[m..]| == |s| - m;
    NewlineInPrefix(s, m);
    assert s[..m][..i] == s[..i];
    if len >= 0 {
      assert s[..m][i + 2..i + 2 + len] == s[i + 2..i + 2 + len];
    }
  }
}
