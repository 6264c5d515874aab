/**
 * What the octets of a reply mean, written down without the parser: the wire
 * forms of every kind of reply, the octets of each and the reply it stands
 * for. The parser reads exactly these.
 */
module RespWire {
  import opened Bytes
  import opened Decimal
  import opened Resp
  import opened RespStream

  const EOL: seq<byte> := [Octet('\r'), Octet('\n')]

  /**
   * A reply as it is sent. There are three ways to say nil, five ways to say a
   * truth value, and the two octets after a payload are not looked at.
   */
  datatype Wire =
    | ErrorLine(text: seq<byte>)
    | StatusLine(text: seq<byte>)
    | Number(value: int)
    | DoubleLine(text: seq<byte>)
    | BigNumber(text: seq<byte>)
    | Truth(letter: byte)
    | NilLine
    | NilBulk(verbatim: bool)
    | NilAggregate(kind: Kind)
    | BulkString(text: seq<byte>, end: (byte, byte))
    | Verbatim(format: seq<byte>, text: seq<byte>, end: (byte, byte))
    | Aggregate(kind: Kind, items: seq<Wire>)

  // ---- The octets ----

  /** Decimal digits, spelled out. */
  function Dec(n: nat): seq<byte> {
    if n < 10 then [Octet("0123456789"[n])] else Dec(n / 10) + [Octet("0123456789"[n % 10])]
  }

  function Signed(v: int): seq<byte> {
    if v < 0 then [Octet('-')] + Dec(-v) else Dec(v)
  }

  function Join(parts: seq<seq<byte>>): seq<byte> {
    if parts == [] then [] else parts[0] + Join(parts[1..])
  }

  function Line(c: char, text: seq<byte>): seq<byte>
    requires c as int < 256
  {
    [Octet(c)] + text + EOL
  }

  function AggregateOctet(kind: Kind): char {
    match kind
    case Map => '%'
    case Set => '~'
    case Push => '>'
    case _ => '*'
  }

  function Write(w: Wire): seq<byte> {
    match w
    case ErrorLine(text) => Line('-', text)
    case StatusLine(text) => Line('+', text)
    case Number(v) => Line(':', Signed(v))
    case DoubleLine(text) => Line(',', text)
    case BigNumber(text) => Line('(', text)
    case Truth(letter) => Line('#', [letter])
    case NilLine => Line('_', [])
    case NilBulk(verbatim) => Line(if verbatim then '=' else '$', Signed(-1))
    case NilAggregate(kind) => Line(AggregateOctet(kind), Signed(-1))
    case BulkString(text, end) => Line('$', Dec(|text|)) + text + [end.0, end.1]
    case Verbatim(format, text, end) =>
      Line('=', Dec(|format| + 1 + |text|)) + (format + [Octet(':')] + text) + [end.0, end.1]
    case Aggregate(kind, items) =>
      Line(AggregateOctet(kind), Dec(if kind.Map? then |items| / 2 else |items|))
      + Join(seq(|items|, i requires 0 <= i < |items| => Write(items[i])))
  }

  function WriteAll(ws: seq<Wire>): seq<byte> {
    Join(seq(|ws|, i requires 0 <= i < |ws| => Write(ws[i])))
  }

  // ---- What they stand for ----

  function Meaning(w: Wire): Reply {
    match w
    case ErrorLine(text) => TextReply(Error, text)
    case StatusLine(text) => TextReply(Status, text)
    case Number(v) => IntegerReply(v)
    case DoubleLine(text) => TextReply(Double, text)
    case BigNumber(text) => TextReply(Bignum, text)
    case Truth(letter) => BoolReply(letter in {Octet('t'), Octet('T')})
    case NilLine => NilReply
    case NilBulk(_) => NilReply
    case NilAggregate(_) => NilReply
    case BulkString(text, _) => TextReply(String, text)
    case Verbatim(format, text, _) => VerbReply(format, text)
    case Aggregate(kind, items) => AggregateReply(kind, seq(|items|, i requires 0 <= i < |items| => Meaning(items[i])))
  }

  function Meanings(ws: seq<Wire>): seq<Reply> {
    seq(|ws|, i requires 0 <= i < |ws| => Meaning(ws[i]))
  }

  // ---- Which of them are well formed ----

  predicate OneLine(text: seq<byte>) {
    Octet('\r') !in text && Octet('\n') !in text
  }

  /** The line end does not come early. */
  predicate NoLineEnd(text: seq<byte>) {
    forall i :: 0 <= i < |text| - 1 ==> !(text[i] == Octet('\r') && text[i + 1] == Octet('\n'))
  }

  function Small(b: byte): byte {
    if Octet('A') <= b <= Octet('Z') then b - Octet('A') + Octet('a') else b
  }

  function SmallLetters(text: seq<byte>): seq<byte> {
    seq(|text|, i requires 0 <= i < |text| => Small(text[i]))
  }

  predicate Infinite(text: seq<byte>) {
    SmallLetters(text) in {[Octet('i'), Octet('n'), Octet('f')], [Octet('-'), Octet('i'), Octet('n'), Octet('f')]}
  }

  predicate AllDigits(text: seq<byte>) {
    forall i :: 0 <= i < |text| ==> Octet('0') <= text[i] <= Octet('9')
  }

  predicate CountFits(cfg: Config, n: nat) {
    n <= 0x7fff_ffff_ffff_ffff && (cfg.maxElements > 0 ==> n <= cfg.maxElements)
  }

  predicate Legal(cfg: Config, w: Wire) {
    match w
    case ErrorLine(text) => OneLine(text)
    case StatusLine(text) => OneLine(text)
    case Number(v) => -0x8000_0000_0000_0000 <= v <= 0x7fff_ffff_ffff_ffff
    case DoubleLine(text) =>
      |text| < 326 && NoLineEnd(text) && (Infinite(text) || (text != [] && text[0] != 0 && cfg.isFinite(text)))
    case BigNumber(text) => AllDigits(if text != [] && text[0] == Octet('-') then text[1..] else text)
    case Truth(letter) => letter in {Octet('t'), Octet('T'), Octet('f'), Octet('F'), 0}
    case NilLine => true
    case NilBulk(_) => true
    case NilAggregate(kind) => kind in {Array, Map, Set, Push}
    case BulkString(text, _) => |text| <= 0x7fff_ffff_ffff_ffff
    case Verbatim(format, text, _) => |format| == 3 && 4 + |text| <= 0x7fff_ffff_ffff_ffff
    case Aggregate(kind, items) =>
      && kind in {Array, Map, Set, Push} && (kind.Map? ==> |items| % 2 == 0)
      && CountFits(cfg, if kind.Map? then |items| / 2 else |items|)
      && forall i :: 0 <= i < |items| ==> Legal(cfg, items[i])
  }

  // ---- Every wire form is read as what it stands for ----

  lemma {:induction false} DecIsDigits(n: nat)
    ensures Dec(n) == Digits(n)
  {
    if n >= 10 {
      DecIsDigits(n / 10);
    }
  }

  lemma SignedIsText(v: int)
    ensures Signed(v) == Text(v)
  {
    DecIsDigits(if v < 0 then -v else v);
  }

  lemma SignedLine(v: int)
    ensures NoLineEnd(Signed(v))
  {
    SignedIsText(v);
    TextShape(Signed(v), v);
  }

  /** A line ends where it is meant to end. */
  lemma LineRead(text: seq<byte>, t: seq<byte>)
    requires NoLineEnd(text)
    ensures var s := text + EOL + t;
      && Newline(s) == Some(|text|) && s[..|text|] == text && s[|text| + 2..] == t
  {
    var s := text + EOL + t;
    assert NewlineAt(s, |text|);
    forall i | 0 <= i < |text| ensures !NewlineAt(s, i) {
      assert s[i] == text[i];
    }
  }

  lemma NumberRead(v: int, t: seq<byte>)
    requires LLONG_MIN <= v <= LLONG_MAX
    ensures var s := Signed(v) + EOL + t;
      && Newline(s) == Some(|Signed(v)|) && IntOf(s[..|Signed(v)|]) == Some(v) && s[|Signed(v)| + 2..] == t
  {
    SignedLine(v);
    LineRead(Signed(v), t);
    SignedIsText(v);
    IntOfText(v);
  }

  /** The first octet is the type, and the rest is read as of that type. */
  lemma TypeRead(cfg: Config, c: char, kind: Kind, s: seq<byte>)
    requires c as int < 256 && KindOf(Octet(c)) == Some(kind)
    ensures ParseItem(cfg, [Octet(c)] + s) == ParseTyped(cfg, kind, s)
  {
    assert ([Octet(c)] + s)[1..] == s;
  }

  lemma InfinityRead(text: seq<byte>)
    ensures Infinite(text) <==> IsInfinity(text)
  {
    var low := SmallLetters(text);
    var plus, minus := [Octet('i'), Octet('n'), Octet('f')], [Octet('-'), Octet('i'), Octet('n'), Octet('f')];
    assert |text| == 3 && IsInfinity(text) ==> low == plus;
    assert |text| == 4 && IsInfinity(text) ==> low == minus;
    assert low == plus ==> Small(text[0]) == plus[0] && Small(text[1]) == plus[1] && Small(text[2]) == plus[2];
    assert low == minus ==>
      Small(text[0]) == minus[0] && Small(text[1]) == minus[1] && Small(text[2]) == minus[2] && Small(text[3]) == minus[3];
  }

  lemma LineFormRead(cfg: Config, c: char, kind: Kind, text: seq<byte>, t: seq<byte>)
    requires c as int < 256 && kind.IsLine() && KindOf(Octet(c)) == Some(kind) && NoLineEnd(text)
    ensures ParseItem(cfg, Line(c, text) + t) == Finish(LineItem(cfg, kind, text), t)
  {
    var s := text + EOL + t;
    LineRead(text, t);
    TypeRead(cfg, c, kind, s);
    assert Line(c, text) + t == [Octet(c)] + s;
  }

  predicate IsLineForm(w: Wire) {
    w.ErrorLine? || w.StatusLine? || w.Number? || w.DoubleLine? || w.BigNumber? || w.Truth? || w.NilLine?
  }

  lemma NumberForm(cfg: Config, v: int)
    requires LLONG_MIN <= v <= LLONG_MAX
    ensures NoLineEnd(Signed(v)) && LineItem(cfg, Integer, Signed(v)) == Good(IntegerReply(v))
  {
    SignedLine(v);
    SignedIsText(v);
    IntOfText(v);
  }

  lemma DoubleForm(cfg: Config, text: seq<byte>)
    requires Legal(cfg, DoubleLine(text))
    ensures LineItem(cfg, Double, text) == Good(TextReply(Double, text))
  {
    InfinityRead(text);
  }

  /** The octet, the type and the text of a one-line form. */
  lemma LineFormOf(cfg: Config, w: Wire) returns (c: char, kind: Kind, text: seq<byte>)
    requires IsLineForm(w) && Legal(cfg, w)
    ensures c as int < 256 && kind.IsLine() && KindOf(Octet(c)) == Some(kind)
    ensures Write(w) == Line(c, text) && NoLineEnd(text) && LineItem(cfg, kind, text) == Good(Meaning(w))
  {
    match w
    case ErrorLine(x) => c, kind, text := '-', Error, x;
    case StatusLine(x) => c, kind, text := '+', Status, x;
    case Number(v) =>
      NumberForm(cfg, v);
      c, kind, text := ':', Integer, Signed(v);
    case DoubleLine(x) =>
      DoubleForm(cfg, x);
      c, kind, text := ',', Double, x;
    case BigNumber(x) =>
      BigNumberRead(x);
      c, kind, text := '(', Bignum, x;
    case Truth(letter) => c, kind, text := '#', Bool, [letter];
    case NilLine => c, kind, text := '_', Nil, [];
  }

  lemma OneLineRead(cfg: Config, w: Wire, t: seq<byte>)
    requires IsLineForm(w) && Legal(cfg, w)
    ensures ParseItem(cfg, Write(w) + t) == Done(Meaning(w), t)
  {
    var c, kind, text := LineFormOf(cfg, w);
    LineFormRead(cfg, c, kind, text, t);
  }

  lemma BigNumberRead(text: seq<byte>)
    ensures BignumText(text) <==> AllDigits(if text != [] && text[0] == Octet('-') then text[1..] else text)
    ensures BignumText(text) ==> NoLineEnd(text)
  {
    if text != [] && text[0] == Octet('-') {
      assert AllDigits(text[1..]) ==> forall i :: 1 <= i < |text| ==> text[i] == text[1..][i - 1];
    }
  }

  /** A length or count, and then what it announces. */
  lemma HeaderFormRead(cfg: Config, c: char, kind: Kind, v: int, t: seq<byte>)
    requires c as int < 256 && KindOf(Octet(c)) == Some(kind) && LLONG_MIN <= v <= LLONG_MAX
    ensures var s := Signed(v) + EOL + t;
      && ParseItem(cfg, Line(c, Signed(v)) + t) == ParseTyped(cfg, kind, s)
      && Newline(s) == Some(|Signed(v)|) && IntOf(s[..|Signed(v)|]) == Some(v) && s[|Signed(v)| + 2..] == t
  {
    var s := Signed(v) + EOL + t;
    NumberRead(v, t);
    TypeRead(cfg, c, kind, s);
    assert Line(c, Signed(v)) + t == [Octet(c)] + s;
  }

  lemma NilFormRead(cfg: Config, c: char, kind: Kind, t: seq<byte>)
    requires c as int < 256 && KindOf(Octet(c)) == Some(kind) && !kind.IsLine()
    ensures ParseItem(cfg, Line(c, Signed(-1)) + t) == Done(NilReply, t)
  {
    HeaderFormRead(cfg, c, kind, -1, t);
  }

  /** A payload behind its length, and the two octets after it. */
  lemma PayloadBehind(kind: Kind, s: seq<byte>, i: nat, payload: seq<byte>, end: (byte, byte), t: seq<byte>)
    requires kind.IsBulk() && Newline(s) == Some(i) && IntOf(s[..i]) == Some(|payload|)
    requires s[i + 2..] == payload + [end.0, end.1] + t
    ensures ParseBulk(kind, s) == Finish(BulkItem(kind, payload), t)
  {
    var rest := s[i + 2..];
    assert rest[..|payload|] == payload && rest[|payload| + 2..] == t;
    assert s[i + 2..i + 2 + |payload|] == rest[..|payload|];
    assert s[i + 2 + |payload| + 2..] == rest[|payload| + 2..];
  }

  lemma Regroup(a: seq<byte>, b: seq<byte>, c: seq<byte>, d: seq<byte>)
    ensures a + b + c + d == a + (b + c + d)
  {
  }

  lemma PayloadRead(cfg: Config, c: char, kind: Kind, payload: seq<byte>, end: (byte, byte), t: seq<byte>)
    requires c as int < 256 && KindOf(Octet(c)) == Some(kind) && kind.IsBulk() && |payload| <= LLONG_MAX
    ensures ParseItem(cfg, Line(c, Dec(|payload|)) + payload + [end.0, end.1] + t) == Finish(BulkItem(kind, payload), t)
  {
    var rest := payload + [end.0, end.1] + t;
    var n := Signed(|payload|);
    HeaderFormRead(cfg, c, kind, |payload|, rest);
    PayloadBehind(kind, n + EOL + rest, |n|, payload, end, t);
    Regroup(Line(c, n), payload, [end.0, end.1], t);
  }

  lemma VerbatimRead(cfg: Config, format: seq<byte>, text: seq<byte>, end: (byte, byte), t: seq<byte>)
    requires |format| == 3 && 4 + |text| <= LLONG_MAX
    ensures ParseItem(cfg, Write(Verbatim(format, text, end)) + t) == Done(VerbReply(format, text), t)
  {
    var payload := format + [Octet(':')] + text;
    PayloadRead(cfg, '=', Verb, payload, end, t);
    assert payload[..3] == format && payload[4..] == text;
  }

  // Aggregates.

  function Forms(items: seq<Wire>): (s: seq<seq<byte>>)
    ensures |s| == |items|
  {
    seq(|items|, i requires 0 <= i < |items| => Write(items[i]))
  }

  lemma FormsCons(items: seq<Wire>)
    requires items != []
    ensures Forms(items)[0] == Write(items[0]) && Forms(items)[1..] == Forms(items[1..])
    ensures WriteAll(items) == Write(items[0]) + WriteAll(items[1..])
    ensures Meanings(items) == [Meaning(items[0])] + Meanings(items[1..])
  {
    assert Forms(items)[1..] == Forms(items[1..]);
  }

  lemma WriteCons(w: Wire, more: seq<Wire>, t: seq<byte>)
    ensures WriteAll([w] + more) + t == Write(w) + (WriteAll(more) + t)
    ensures Meanings([w] + more) == [Meaning(w)] + Meanings(more)
  {
    assert ([w] + more)[1..] == more;
    FormsCons([w] + more);
    assert (Write(w) + WriteAll(more)) + t == Write(w) + (WriteAll(more) + t);
  }

  /** One item more in front. */
  lemma OneMoreRead(cfg: Config, n: nat, items: seq<Wire>, w: Wire, more: seq<Wire>, t: seq<byte>)
    requires items == [w] + more
    requires n > 0 && ParseItem(cfg, Write(w) + (WriteAll(more) + t)) == Done(Meaning(w), WriteAll(more) + t)
    requires ParseElements(cfg, n - 1, WriteAll(more) + t) == Done(Meanings(more), t)
    ensures ParseElements(cfg, n, WriteAll(items) + t) == Done(Meanings(items), t)
  {
    WriteCons(w, more, t);
  }

  /** The count in the header of an aggregate: of pairs for a map. */
  function Announced(kind: Kind, items: seq<Wire>): nat {
    if kind.Map? then |items| / 2 else |items|
  }

  lemma AggregateForm(kind: Kind, items: seq<Wire>, t: seq<byte>)
    ensures Write(Aggregate(kind, items)) + t
         == Line(AggregateOctet(kind), Signed(Announced(kind, items))) + (WriteAll(items) + t)
    ensures Meaning(Aggregate(kind, items)) == AggregateReply(kind, Meanings(items))
  {
    assert Forms(items) == seq(|items|, i requires 0 <= i < |items| => Write(items[i]));
    assert Meanings(items) == seq(|items|, i requires 0 <= i < |items| => Meaning(items[i]));
  }

  lemma CountRead(cfg: Config, kind: Kind, items: seq<Wire>, s: seq<byte>, i: nat, t: seq<byte>)
    requires Legal(cfg, Aggregate(kind, items))
    requires Newline(s) == Some(i) && IntOf(s[..i]) == Some(Announced(kind, items)) && s[i + 2..] == t
    ensures kind.IsAggregate() && ParseHeader(cfg, kind, s) == Done(|items|, t)
  {
  }

  lemma TypedRead(cfg: Config, kind: Kind, items: seq<Wire>, s: seq<byte>, rest: seq<byte>, t: seq<byte>)
    requires kind.IsAggregate() && ParseHeader(cfg, kind, s) == Done(|items|, rest)
    requires ParseElements(cfg, |items|, rest) == Done(Meanings(items), t)
    ensures ParseTyped(cfg, kind, s) == Done(AggregateReply(kind, Meanings(items)), t)
  {
    assert [] + Meanings(items) == Meanings(items);
  }

  lemma AggregateRead(cfg: Config, kind: Kind, items: seq<Wire>, t: seq<byte>)
    requires Legal(cfg, Aggregate(kind, items))
    requires ParseElements(cfg, |items|, WriteAll(items) + t) == Done(Meanings(items), t)
    ensures ParseItem(cfg, Write(Aggregate(kind, items)) + t) == Done(Meaning(Aggregate(kind, items)), t)
  {
    var rest := WriteAll(items) + t;
    var s := Signed(Announced(kind, items)) + EOL + rest;
    HeaderFormRead(cfg, AggregateOctet(kind), kind, Announced(kind, items), rest);
    CountRead(cfg, kind, items, s, |Signed(Announced(kind, items))|, rest);
    TypedRead(cfg, kind, items, s, rest, t);
    AggregateForm(kind, items, t);
  }

  /** Every wire form is read as the reply that it stands for, and what follows is left. */
  lemma {:induction false} WireRead(cfg: Config, w: Wire, t: seq<byte>)
    requires Legal(cfg, w)
    ensures ParseItem(cfg, Write(w) + t) == Done(Meaning(w), t)
    decreases w, if w.Aggregate? then |w.items| + 1 else 0
  {
    match w
    case NilBulk(verbatim) => NilFormRead(cfg, if verbatim then '=' else '$', if verbatim then Verb else String, t);
    case NilAggregate(kind) => NilFormRead(cfg, AggregateOctet(kind), kind, t);
    case BulkString(text, end) => PayloadRead(cfg, '$', String, text, end, t);
    case Verbatim(format, text, end) => VerbatimRead(cfg, format, text, end, t);
    case Aggregate(kind, items) =>
      ItemsRead(cfg, w, 0, t);
      assert items[0..] == items;
      AggregateRead(cfg, kind, items, t);
    case _ => OneLineRead(cfg, w, t);
  }

  lemma NoItemsRead(cfg: Config, t: seq<byte>)
    ensures ParseElements(cfg, 0, WriteAll([]) + t) == Done(Meanings([]), t)
  {
    assert WriteAll([]) + t == t;
    assert Meanings([]) == [];
  }

  /** So are the items of an aggregate from the i-th on, one after the other. */
  lemma {:induction false} ItemsRead(cfg: Config, w: Wire, i: nat, t: seq<byte>)
    requires Legal(cfg, w) && w.Aggregate? && i <= |w.items|
    ensures ParseElements(cfg, |w.items| - i, WriteAll(w.items[i..]) + t) == Done(Meanings(w.items[i..]), t)
    decreases w, |w.items| - i
  {
    if i == |w.items| {
      assert w.items[i..] == [];
      NoItemsRead(cfg, t);
    } else {
      var item, more := w.items[i], w.items[i + 1..];
      var rest := WriteAll(more) + t;
      assert Legal(cfg, item);
      assert w.items[i..] == [item] + more;
      ItemsRead(cfg, w, i + 1, t);
      WireRead(cfg, item, rest);
      OneMoreRead(cfg, |w.items| - i, w.items[i..], item, more, t);
    }
  }

  // ---- Nothing else is read ----

  lemma SignedOfInt(text: seq<byte>)
    requires IntOf(text).Some?
    ensures LLONG_MIN <= IntOf(text).value <= LLONG_MAX && Signed(IntOf(text).value) == text
  {
    var v :| LLONG_MIN <= v <= LLONG_MAX && Text(v) == text && IntOf(text) == Some(v);
    SignedIsText(v);
  }

  lemma CharOf(b: byte) returns (c: char)
    ensures c as int < 256 && Octet(c) == b
  {
    c := b as int as char;
  }

  /** A line that is read comes from a form. */
  lemma LineUnread(cfg: Config, c: char, kind: Kind, text: seq<byte>) returns (w: Wire)
    requires c as int < 256 && kind.IsLine() && KindOf(Octet(c)) == Some(kind)
    requires NoLineEnd(text) && LineItem(cfg, kind, text).Good?
    ensures IsLineForm(w) && Legal(cfg, w) && Write(w) == Line(c, text) && Good(Meaning(w)) == LineItem(cfg, kind, text)
  {
    match kind
    case Error => w := ErrorLine(text);
    case Status => w := StatusLine(text);
    case Integer =>
      SignedOfInt(text);
      w := Number(IntOf(text).value);
    case Double =>
      InfinityRead(text);
      w := DoubleLine(text);
    case Bignum =>
      BigNumberRead(text);
      w := BigNumber(text);
    case Bool =>
      assert text == [text[0]];
      w := Truth(text[0]);
    case Nil => w := NilLine;
  }

  /** The line at the front. */
  lemma LineSplit(s: seq<byte>)
    requires Newline(s).Some?
    ensures var i := Newline(s).value; s == s[..i] + EOL + s[i + 2..] && NoLineEnd(s[..i])
  {
    var i := Newline(s).value;
    assert s[i..i + 2] == EOL;
    forall j | 0 <= j && j + 1 < i ensures !(s[..i][j] == Octet('\r') && s[..i][j + 1] == Octet('\n')) {
      assert !NewlineAt(s, j);
    }
  }

  /** A type octet, a number on its line, and the rest. */
  lemma HeadSplit(c: char, s: seq<byte>) returns (i: nat, v: int, rest: seq<byte>)
    requires c as int < 256 && Newline(s).Some? && IntOf(s[..Newline(s).value]).Some?
    ensures Newline(s) == Some(i) && i + 2 <= |s| && IntOf(s[..i]) == Some(v) && rest == s[i + 2..]
    ensures LLONG_MIN <= v <= LLONG_MAX && [Octet(c)] + s == Line(c, Signed(v)) + rest
  {
    i := Newline(s).value;
    LineSplit(s);
    SignedOfInt(s[..i]);
    v, rest := IntOf(s[..i]).value, s[i + 2..];
    LineJoin(c, s[..i], rest);
  }

  lemma SlicesBehind(s: seq<byte>, k: nat, n: nat)
    requires k + n + 2 <= |s|
    ensures s[k..k + n] == s[k..][..n] && s[k + n + 2..] == s[k..][n + 2..]
  {
  }

  lemma BulkDone(kind: Kind, s: seq<byte>, i: nat, len: nat)
    requires kind.IsBulk() && ParseBulk(kind, s).Done? && Newline(s) == Some(i) && IntOf(s[..i]) == Some(len)
    ensures i + 2 + len + 2 <= |s|
    ensures ParseBulk(kind, s) == Finish(BulkItem(kind, s[i + 2..i + 2 + len]), s[i + 2 + len + 2..])
  {
  }

  lemma BulkUnread(cfg: Config, c: char, kind: Kind, s: seq<byte>) returns (w: Wire)
    requires c as int < 256 && kind.IsBulk() && KindOf(Octet(c)) == Some(kind) && ParseBulk(kind, s).Done?
    ensures Legal(cfg, w) && Meaning(w) == ParseBulk(kind, s).value && [Octet(c)] + s == Write(w) + ParseBulk(kind, s).rest
  {
    var i, len, rest := HeadSplit(c, s);
    if len == -1 {
      w := NilBulk(kind.Verb?);
    } else {
      SlicesBehind(s, i + 2, len);
      BulkDone(kind, s, i, len);
      w := PayloadUnread(cfg, c, kind, len, rest);
    }
  }

  lemma PayloadUnread(cfg: Config, c: char, kind: Kind, n: nat, rest: seq<byte>) returns (w: Wire)
    requires c as int < 256 && kind.IsBulk() && KindOf(Octet(c)) == Some(kind)
    requires n <= LLONG_MAX && n + 2 <= |rest| && BulkItem(kind, rest[..n]).Good?
    ensures Legal(cfg, w) && Good(Meaning(w)) == BulkItem(kind, rest[..n])
    ensures Line(c, Signed(n)) + rest == Write(w) + rest[n + 2..]
  {
    var payload, end := rest[..n], (rest[n], rest[n + 1]);
    w := PayloadForm(kind, payload, end);
    assert rest == payload + [end.0, end.1] + rest[n + 2..];
    assert Write(w) == Line(c, Dec(n)) + payload + [end.0, end.1];
  }

  lemma PayloadForm(kind: Kind, payload: seq<byte>, end: (byte, byte)) returns (w: Wire)
    requires kind.IsBulk() && BulkItem(kind, payload).Good?
    ensures Good(Meaning(w)) == BulkItem(kind, payload)
    ensures w == if kind.Verb? then Verbatim(payload[..3], payload[4..], end) else BulkString(payload, end)
    ensures kind.Verb? ==> payload == payload[..3] + [Octet(':')] + payload[4..]
  {
    w := if kind.Verb? then Verbatim(payload[..3], payload[4..], end) else BulkString(payload, end);
  }

  lemma LineJoin(c: char, text: seq<byte>, rest: seq<byte>)
    requires c as int < 256
    ensures [Octet(c)] + (text + EOL + rest) == Line(c, text) + rest
  {
    assert [Octet(c)] + (text + EOL + rest) == ([Octet(c)] + text + EOL) + rest;
  }

  lemma LineItemUnread(cfg: Config, c: char, kind: Kind, s: seq<byte>) returns (w: Wire)
    requires c as int < 256 && kind.IsLine() && KindOf(Octet(c)) == Some(kind) && ParseLine(cfg, kind, s).Done?
    ensures Legal(cfg, w) && Meaning(w) == ParseLine(cfg, kind, s).value
    ensures [Octet(c)] + s == Write(w) + ParseLine(cfg, kind, s).rest
  {
    var i := Newline(s).value;
    LineSplit(s);
    w := LineUnread(cfg, c, kind, s[..i]);
    LineJoin(c, s[..i], s[i + 2..]);
  }

  /** Whatever is read as a reply begins with a form of that reply, and ends with the rest. */
  lemma {:induction false} ItemUnread(cfg: Config, s: seq<byte>) returns (w: Wire)
    requires ParseItem(cfg, s).Done?
    ensures Legal(cfg, w) && Meaning(w) == ParseItem(cfg, s).value && s == Write(w) + ParseItem(cfg, s).rest
    decreases |s|, 1
  {
    var c := CharOf(s[0]);
    var kind, s' := KindOf(s[0]).value, s[1..];
    assert s == [Octet(c)] + s';
    if kind.IsLine() {
      w := LineItemUnread(cfg, c, kind, s');
    } else if kind.IsBulk() {
      w := BulkUnread(cfg, c, kind, s');
    } else {
      w := AggregateUnread(cfg, c, kind, s');
    }
  }

  /** What a header announces. */
  lemma HeaderUnread(cfg: Config, c: char, kind: Kind, s: seq<byte>) returns (v: int)
    requires c as int < 256 && kind.IsAggregate() && ParseHeader(cfg, kind, s).Done?
    ensures var h := ParseHeader(cfg, kind, s);
      && [Octet(c)] + s == Line(c, Signed(v)) + h.rest
      && (if h.value == -1 then v == -1 else v >= 0 && CountFits(cfg, v) && h.value == if kind.Map? then 2 * v else v)
  {
    var i, rest;
    i, v, rest := HeadSplit(c, s);
  }

  /** An aggregate is its header and its items. */
  lemma AggregateOf(cfg: Config, c: char, kind: Kind, s: seq<byte>, v: int, items: seq<Wire>, end: seq<byte>)
    requires c as int < 256 && c == AggregateOctet(kind) && kind.IsAggregate() && ParseHeader(cfg, kind, s).Done?
    requires v == Announced(kind, items) && |items| == ParseHeader(cfg, kind, s).value
    requires [Octet(c)] + s == Line(c, Signed(v)) + ParseHeader(cfg, kind, s).rest
    requires ParseElements(cfg, |items|, ParseHeader(cfg, kind, s).rest) == Done(Meanings(items), end)
    requires ParseHeader(cfg, kind, s).rest == WriteAll(items) + end
    ensures ParseTyped(cfg, kind, s) == Done(Meaning(Aggregate(kind, items)), end)
    ensures [Octet(c)] + s == Write(Aggregate(kind, items)) + end
  {
    assert [] + Meanings(items) == Meanings(items);
    AggregateForm(kind, items, end);
  }

  lemma {:induction false} AggregateUnread(cfg: Config, c: char, kind: Kind, s: seq<byte>) returns (w: Wire)
    requires c as int < 256 && kind.IsAggregate() && c == AggregateOctet(kind) && ParseTyped(cfg, kind, s).Done?
    ensures Legal(cfg, w) && Meaning(w) == ParseTyped(cfg, kind, s).value
    ensures [Octet(c)] + s == Write(w) + ParseTyped(cfg, kind, s).rest
    decreases |s|, 2
  {
    var h := ParseHeader(cfg, kind, s);
    var v := HeaderUnread(cfg, c, kind, s);
    if h.value == -1 {
      w := NilAggregate(kind);
    } else {
      var items := ItemsUnread(cfg, h.value, h.rest);
      w := Aggregate(kind, items);
      AggregateOf(cfg, c, kind, s, v, items, ParseElements(cfg, h.value, h.rest).rest);
    }
  }

  lemma {:induction false} ItemsUnread(cfg: Config, n: nat, s: seq<byte>) returns (ws: seq<Wire>)
    requires ParseElements(cfg, n, s).Done?
    ensures |ws| == n && (forall i :: 0 <= i < n ==> Legal(cfg, ws[i]))
    ensures Meanings(ws) == ParseElements(cfg, n, s).value && s == WriteAll(ws) + ParseElements(cfg, n, s).rest
    decreases |s|, 3
  {
    if n == 0 {
      ws := [];
      assert Meanings(ws) == [] && WriteAll(ws) + s == s;
    } else {
      var w := ItemUnread(cfg, s);
      var more := ItemsUnread(cfg, n - 1, ParseItem(cfg, s).rest);
      ws := [w] + more;
      WriteCons(w, more, ParseElements(cfg, n, s).rest);
    }
  }

  // ---- Streams ----

  /** Replies sent one after the other are read as those replies in order, with nothing left over. */
  lemma {:induction false} StreamRead(cfg: Config, ws: seq<Wire>)
    requires forall i :: 0 <= i < |ws| ==> Legal(cfg, ws[i])
    ensures Replies(cfg, WriteAll(ws)) == Meanings(ws)
    ensures FinalFault(cfg, WriteAll(ws)) == None && Leftover(cfg, WriteAll(ws)) == []
    decreases |ws|
  {
    if ws != [] {
      FormsCons(ws);
      WireRead(cfg, ws[0], WriteAll(ws[1..]));
      StreamRead(cfg, ws[1..]);
      StreamCons(cfg, WriteAll(ws), Meaning(ws[0]), WriteAll(ws[1..]));
    } else {
      assert Meanings(ws) == [];
    }
  }

  /** The replies read from any stream are those of the forms at its front. */
  lemma {:induction false} StreamUnread(cfg: Config, s: seq<byte>) returns (ws: seq<Wire>)
    ensures forall i :: 0 <= i < |ws| ==> Legal(cfg, ws[i])
    ensures Replies(cfg, s) == Meanings(ws) && s == WriteAll(ws) + Leftover(cfg, s)
    decreases |s|
  {
    var p := ParseItem(cfg, s);
    if p.Done? {
      var w := ItemUnread(cfg, s);
      var more := StreamUnread(cfg, p.rest);
      ws := [w] + more;
      WriteCons(w, more, Leftover(cfg, p.rest));
      StreamCons(cfg, s, p.value, p.rest);
    } else {
      ws := [];
      assert Meanings(ws) == [] && WriteAll(ws) + s == s;
    }
  }

  /** However the octets of the replies are cut into pieces, the reader yields those replies. */
  method ReadForms(cfg: Config, ghost ws: seq<Wire>, chunks: seq<seq<byte>>, avail: seq<nat>)
    returns (replies: seq<Reply>, err: Option<Fault>)
    requires |avail| == |chunks| && Concat(chunks) == WriteAll(ws) && forall i :: 0 <= i < |ws| ==> Legal(cfg, ws[i])
    ensures replies == Meanings(ws) && err == None
  {
    StreamRead(cfg, ws);
    replies, err := ReadAll(cfg, chunks, avail);
  }

  // ---- What is refused, and with which fault ----

  /** The fault of a line that is no form of its type. */
  function LineFault(c: char, text: seq<byte>): Fault {
    match c
    case ':' => BadInteger
    case ',' => if |text| < 326 then BadDouble else DoubleTooLarge
    case '_' => BadNil
    case '#' => BadBool
    case '(' => BadBignum
    case _ => BadSimpleString
  }

  lemma LineTypes(c: char) returns (kind: Kind)
    requires c in "-+:,_#("
    ensures c as int < 256 && KindOf(Octet(c)) == Some(kind) && kind.IsLine()
  {
    kind := KindOf(Octet(c)).value;
  }

  lemma LineRefused(cfg: Config, c: char, text: seq<byte>, t: seq<byte>)
    requires c in "-+:,_#(" && NoLineEnd(text)
    requires forall w :: IsLineForm(w) && Legal(cfg, w) ==> Write(w) != Line(c, text)
    ensures ParseItem(cfg, Line(c, text) + t) == Fail(LineFault(c, text))
  {
    var kind := LineTypes(c);
    LineFormRead(cfg, c, kind, text, t);
    if LineItem(cfg, kind, text).Good? {
      var w := LineUnread(cfg, c, kind, text);
    }
  }

  /** Neither a length nor a count. */
  lemma NumberRefused(cfg: Config, c: char, text: seq<byte>, t: seq<byte>)
    requires c in "$=*%~>" && NoLineEnd(text)
    requires forall v :: -0x8000_0000_0000_0000 <= v <= 0x7fff_ffff_ffff_ffff ==> text != Signed(v)
    ensures ParseItem(cfg, Line(c, text) + t) == Fail(if c in "$=" then BadBulkLength else BadMultiBulkLength)
  {
    var s := text + EOL + t;
    var kind := LengthTypes(c);
    LineRead(text, t);
    if IntOf(text).Some? {
      SignedOfInt(text);
    }
    assert Line(c, text) + t == [Octet(c)] + s;
    TypeRead(cfg, c, kind, s);
  }

  /** A negative length or count other than -1, or more elements than the reader admits. */
  lemma RangeRefused(cfg: Config, c: char, v: int, t: seq<byte>)
    requires c in "$=*%~>" && -0x8000_0000_0000_0000 <= v <= 0x7fff_ffff_ffff_ffff
    requires v < -1 || (c in "*%~>" && v >= 0 && !CountFits(cfg, v))
    ensures ParseItem(cfg, Line(c, Signed(v)) + t)
         == Fail(if c in "$=" then BulkLengthOutOfRange else MultiBulkLengthOutOfRange)
  {
    var kind := LengthTypes(c);
    OutOfRange(cfg, c, kind, v, t);
  }

  lemma LengthTypes(c: char) returns (kind: Kind)
    requires c in "$=*%~>"
    ensures c as int < 256 && KindOf(Octet(c)) == Some(kind)
    ensures if c in "$=" then kind.IsBulk() else kind.IsAggregate()
  {
    kind := KindOf(Octet(c)).value;
  }

  lemma OutOfRange(cfg: Config, c: char, kind: Kind, v: int, t: seq<byte>)
    requires c as int < 256 && KindOf(Octet(c)) == Some(kind) && LLONG_MIN <= v <= LLONG_MAX && !kind.IsLine()
    requires v < -1 || (kind.IsAggregate() && v >= 0 && !CountFits(cfg, v))
    ensures ParseItem(cfg, Line(c, Signed(v)) + t)
         == Fail(if kind.IsBulk() then BulkLengthOutOfRange else MultiBulkLengthOutOfRange)
  {
    HeaderFormRead(cfg, c, kind, v, t);
  }

  /** A verbatim string without its three octets of format and the colon. */
  lemma FormatRefused(cfg: Config, payload: seq<byte>, end: (byte, byte), t: seq<byte>)
    requires |payload| <= 0x7fff_ffff_ffff_ffff && (|payload| < 4 || payload[3] != Octet(':'))
    ensures ParseItem(cfg, Line('=', Dec(|payload|)) + payload + [end.0, end.1] + t) == Fail(BadVerbatim)
  {
    PayloadRead(cfg, '=', Verb, payload, end, t);
  }

  /** Any other type octet. */
  lemma TypeRefused(cfg: Config, c: char, t: seq<byte>)
    requires c as int < 256 && c !in "-+:,_#($=*%~>"
    ensures ParseItem(cfg, [Octet(c)] + t) == Fail(BadTypeByte(Octet(c)))
  {
    assert KindOf(Octet(c)) == None;
  }
}
