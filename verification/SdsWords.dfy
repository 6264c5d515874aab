/**
 * What the arguments of a line mean, written down without the scanner: words
 * of plain characters that may end in a quoted part, with gaps of spaces
 * between them. A line is split into exactly what its words stand for.
 */
module SdsWords {
  import opened Bytes
  import opened SdsRepr

  // ---- Pieces of quoted text ----

  type Nibble = n: nat | n < 16

  /** A piece of text in double quotes: an octet, a backslash and a letter, or an octet in hexadecimal. */
  datatype Piece = Raw(b: byte) | Letter(b: byte) | Hex(high: Nibble, low: Nibble, upperHigh: bool, upperLow: bool)

  /** A piece of text in single quotes: an octet, or a backslash and an apostrophe. */
  datatype SinglePiece = SingleRaw(b: byte) | SingleApostrophe

  function HexDigit(n: Nibble, upper: bool): byte {
    if upper then Octet("0123456789ABCDEF"[n]) else Octet("0123456789abcdef"[n])
  }

  predicate IsHexDigit(b: byte) {
    || Octet('0') <= b <= Octet('9') || Octet('a') <= b <= Octet('f') || Octet('A') <= b <= Octet('F')
  }

  function WritePiece(p: Piece): seq<byte> {
    match p
    case Raw(b) => [b]
    case Letter(b) => [Octet('\\'), b]
    case Hex(high, low, uh, ul) => [Octet('\\'), Octet('x'), HexDigit(high, uh), HexDigit(low, ul)]
  }

  /** The octet after a backslash: line feed, carriage return, tabulator, backspace, bell, or itself. */
  function StandsFor(b: byte): byte {
    if b == Octet('n') then 10 else if b == Octet('r') then 13 else if b == Octet('t') then 9
    else if b == Octet('b') then 8 else if b == Octet('a') then 7 else b
  }

  function PieceValue(p: Piece): byte {
    match p
    case Raw(b) => b
    case Letter(b) => StandsFor(b)
    case Hex(high, low, _, _) => (16 * high + low) as byte
  }

  /** What follows decides whether a backslash and an x are a letter or the start of an octet in hexadecimal. */
  predicate LegalPiece(p: Piece, follows: seq<byte>) {
    match p
    case Raw(b) => b != 0 && b != Octet('\\') && b != Octet('"')
    case Letter(b) =>
      b != 0 && !(b == Octet('x') && |follows| >= 2 && IsHexDigit(follows[0]) && IsHexDigit(follows[1]))
    case Hex(_, _, _, _) => true
  }

  function WritePieces(ps: seq<Piece>): seq<byte> {
    if ps == [] then [] else WritePiece(ps[0]) + WritePieces(ps[1..])
  }

  function PieceValues(ps: seq<Piece>): seq<byte> {
    if ps == [] then [] else [PieceValue(ps[0])] + PieceValues(ps[1..])
  }

  /** The pieces are what they are meant to be in front of this text. */
  predicate LegalPieces(ps: seq<Piece>, text: seq<byte>) {
    ps == [] || (LegalPiece(ps[0], WritePieces(ps[1..]) + text) && LegalPieces(ps[1..], text))
  }

  function WriteSingle(p: SinglePiece): seq<byte> {
    match p
    case SingleRaw(b) => [b]
    case SingleApostrophe => [Octet('\\'), Octet('\'')]
  }

  function SingleValue(p: SinglePiece): byte {
    match p
    case SingleRaw(b) => b
    case SingleApostrophe => Octet('\'')
  }

  /** A backslash in front of an apostrophe is not by itself. */
  predicate LegalSingle(p: SinglePiece, follows: seq<byte>) {
    p.SingleRaw? ==>
      && p.b != 0 && p.b != Octet('\'')
      && !(p.b == Octet('\\') && follows != [] && follows[0] == Octet('\''))
  }

  function WriteSingles(ps: seq<SinglePiece>): seq<byte> {
    if ps == [] then [] else WriteSingle(ps[0]) + WriteSingles(ps[1..])
  }

  function SingleValues(ps: seq<SinglePiece>): seq<byte> {
    if ps == [] then [] else [SingleValue(ps[0])] + SingleValues(ps[1..])
  }

  predicate LegalSingles(ps: seq<SinglePiece>, text: seq<byte>) {
    ps == [] || (LegalSingle(ps[0], WriteSingles(ps[1..]) + text) && LegalSingles(ps[1..], text))
  }

  // ---- Words and lines ----

  datatype Tail = NoTail | Double(pieces: seq<Piece>) | Single(singles: seq<SinglePiece>)

  /** Plain characters, and what may follow them in quotes. */
  datatype Word = Word(prefix: seq<byte>, tail: Tail)

  /** A word and the gap after it. */
  datatype Item = Item(word: Word, gap: seq<byte>)

  predicate IsBlank(b: byte) {
    b == Octet(' ') || b == Octet('\n') || b == Octet('\r') || b == Octet('\t')
  }

  /** Vertical tabulator and form feed are spaces, but no blanks: they do not end a plain word. */
  predicate IsWhite(b: byte) {
    IsBlank(b) || b == 11 || b == 12
  }

  function WriteTail(t: Tail): seq<byte> {
    match t
    case NoTail => []
    case Double(ps) => [Octet('"')] + (WritePieces(ps) + [Octet('"')])
    case Single(ps) => [Octet('\'')] + (WriteSingles(ps) + [Octet('\'')])
  }

  function WriteWord(w: Word): seq<byte> {
    w.prefix + WriteTail(w.tail)
  }

  function TailValue(t: Tail): seq<byte> {
    match t
    case NoTail => []
    case Double(ps) => PieceValues(ps)
    case Single(ps) => SingleValues(ps)
  }

  function WordValue(w: Word): seq<byte> {
    w.prefix + TailValue(w.tail)
  }

  predicate LegalPrefix(prefix: seq<byte>) {
    && (forall i :: 0 <= i < |prefix| ==>
          prefix[i] != 0 && !IsBlank(prefix[i]) && prefix[i] != Octet('"') && prefix[i] != Octet('\''))
    && (prefix != [] ==> !IsWhite(prefix[0]))
  }

  predicate LegalTail(t: Tail) {
    match t
    case NoTail => true
    case Double(ps) => LegalPieces(ps, [Octet('"')])
    case Single(ps) => LegalSingles(ps, [Octet('\'')])
  }

  predicate LegalWord(w: Word) {
    LegalPrefix(w.prefix) && LegalTail(w.tail) && (w.prefix != [] || !w.tail.NoTail?)
  }

  predicate AllWhite(gap: seq<byte>) {
    forall i :: 0 <= i < |gap| ==> IsWhite(gap[i])
  }

  /** The end of a C string. */
  predicate IsEnd(s: seq<byte>) {
    s == [] || s[0] == 0
  }

  /** A gap may be missing only at the end; after a plain word it begins with a blank. */
  predicate LegalItem(i: Item, follows: seq<byte>) {
    && LegalWord(i.word) && AllWhite(i.gap) && (i.gap == [] ==> IsEnd(follows))
    && (i.gap != [] && i.word.tail.NoTail? ==> IsBlank(i.gap[0]))
  }

  function WriteItems(items: seq<Item>, end: seq<byte>): seq<byte> {
    if items == [] then end else WriteWord(items[0].word) + (items[0].gap + WriteItems(items[1..], end))
  }

  predicate LegalItems(items: seq<Item>, end: seq<byte>) {
    items == [] || (LegalItem(items[0], WriteItems(items[1..], end)) && LegalItems(items[1..], end))
  }

  function Values(items: seq<Item>): seq<seq<byte>> {
    if items == [] then [] else [WordValue(items[0].word)] + Values(items[1..])
  }

  // ---- Each piece is read as what it stands for ----

  lemma HexDigitRead(n: Nibble, upper: bool)
    ensures IsXDigit(HexDigit(n, upper)) && HexDigitToInt(HexDigit(n, upper)) == n
  {
    if upper {
      assert "0123456789ABCDEF"[n] as int == if n < 10 then 48 + n else 55 + n;
    } else {
      assert "0123456789abcdef"[n] as int == if n < 10 then 48 + n else 87 + n;
    }
  }

  lemma PieceRead(p: Piece, s: seq<byte>, current: seq<byte>)
    requires LegalPiece(p, s)
    ensures Scan(WritePiece(p) + s, Quoted, current) == Scan(s, Quoted, current + [PieceValue(p)])
  {
    var t := WritePiece(p) + s;
    match p
    case Raw(b) => assert t[1..] == s;
    case Letter(b) => assert t[2..] == s;
    case Hex(high, low, uh, ul) =>
      HexDigitRead(high, uh);
      HexDigitRead(low, ul);
      assert t[4..] == s;
  }

  lemma {:induction false} PiecesRead(ps: seq<Piece>, s: seq<byte>, current: seq<byte>)
    requires LegalPieces(ps, s)
    ensures Scan(WritePieces(ps) + s, Quoted, current) == Scan(s, Quoted, current + PieceValues(ps))
    decreases |ps|
  {
    if ps == [] {
      assert WritePieces(ps) + s == s && current + PieceValues(ps) == current;
    } else {
      var more := WritePieces(ps[1..]) + s;
      assert WritePieces(ps) + s == WritePiece(ps[0]) + more;
      PieceRead(ps[0], more, current);
      PiecesRead(ps[1..], s, current + [PieceValue(ps[0])]);
      assert current + [PieceValue(ps[0])] + PieceValues(ps[1..]) == current + PieceValues(ps);
    }
  }

  lemma SingleRead(p: SinglePiece, s: seq<byte>, current: seq<byte>)
    requires LegalSingle(p, s)
    ensures Scan(WriteSingle(p) + s, SingleQuoted, current) == Scan(s, SingleQuoted, current + [SingleValue(p)])
  {
    var t := WriteSingle(p) + s;
    match p
    case SingleRaw(b) => assert t[1..] == s;
    case SingleApostrophe => assert t[2..] == s;
  }

  lemma {:induction false} SinglesRead(ps: seq<SinglePiece>, s: seq<byte>, current: seq<byte>)
    requires LegalSingles(ps, s)
    ensures Scan(WriteSingles(ps) + s, SingleQuoted, current) == Scan(s, SingleQuoted, current + SingleValues(ps))
    decreases |ps|
  {
    if ps == [] {
      assert WriteSingles(ps) + s == s && current + SingleValues(ps) == current;
    } else {
      var more := WriteSingles(ps[1..]) + s;
      assert WriteSingles(ps) + s == WriteSingle(ps[0]) + more;
      SingleRead(ps[0], more, current);
      SinglesRead(ps[1..], s, current + [SingleValue(ps[0])]);
      assert current + [SingleValue(ps[0])] + SingleValues(ps[1..]) == current + SingleValues(ps);
    }
  }

  lemma {:induction false} PrefixRead(prefix: seq<byte>, s: seq<byte>, current: seq<byte>)
    requires forall i :: 0 <= i < |prefix| ==>
               prefix[i] != 0 && !IsBlank(prefix[i]) && prefix[i] != Octet('"') && prefix[i] != Octet('\'')
    ensures Scan(prefix + s, Plain, current) == Scan(s, Plain, current + prefix)
    decreases |prefix|
  {
    if prefix == [] {
      assert prefix + s == s && current + prefix == current;
    } else {
      assert (prefix + s)[1..] == prefix[1..] + s;
      PrefixRead(prefix[1..], s, current + [prefix[0]]);
      assert current + [prefix[0]] + prefix[1..] == current + prefix;
    }
  }

  // ---- Words and lines are read as what they stand for ----

  /** Only the text up to the closing quote matters. */
  lemma {:induction false} LegalBefore(ps: seq<Piece>, rest: seq<byte>)
    requires LegalPieces(ps, [Octet('"')])
    ensures LegalPieces(ps, [Octet('"')] + rest)
    decreases |ps|
  {
    if ps != [] {
      LegalBefore(ps[1..], rest);
      var t := WritePieces(ps[1..]) + [Octet('"')];
      assert WritePieces(ps[1..]) + ([Octet('"')] + rest) == t + rest;
    }
  }

  lemma {:induction false} LegalSinglesBefore(ps: seq<SinglePiece>, rest: seq<byte>)
    requires LegalSingles(ps, [Octet('\'')])
    ensures LegalSingles(ps, [Octet('\'')] + rest)
    decreases |ps|
  {
    if ps != [] {
      LegalSinglesBefore(ps[1..], rest);
      var t := WriteSingles(ps[1..]) + [Octet('\'')];
      assert WriteSingles(ps[1..]) + ([Octet('\'')] + rest) == t + rest;
    }
  }

  /** A quoted part, up to and including what its closing quote decides. */
  lemma TailRead(t: Tail, rest: seq<byte>, current: seq<byte>)
    requires LegalTail(t) && !t.NoTail?
    ensures Scan(WriteTail(t) + rest, Plain, current) == Close([0] + rest, current + TailValue(t))
  {
    match t
    case Double(ps) =>
      var close := [Octet('"')] + rest;
      assert WriteTail(t) + rest == [Octet('"')] + (WritePieces(ps) + close);
      assert ([Octet('"')] + (WritePieces(ps) + close))[1..] == WritePieces(ps) + close;
      LegalBefore(ps, rest);
      PiecesRead(ps, close, current);
      CloseAlike(close, rest, current + PieceValues(ps));
    case Single(ps) =>
      var close := [Octet('\'')] + rest;
      assert WriteTail(t) + rest == [Octet('\'')] + (WriteSingles(ps) + close);
      assert ([Octet('\'')] + (WriteSingles(ps) + close))[1..] == WriteSingles(ps) + close;
      LegalSinglesBefore(ps, rest);
      SinglesRead(ps, close, current);
      CloseAlike(close, rest, current + SingleValues(ps));
  }

  lemma CloseAlike(s: seq<byte>, rest: seq<byte>, current: seq<byte>)
    requires s != [] && s[1..] == rest
    ensures Close(s, current) == Close([0] + rest, current)
  {
    assert ([0] + rest)[1..] == rest;
    assert |s| == |[0] + rest| && (|s| > 1 ==> s[1] == s[1..][0] == ([0] + rest)[1]);
  }

  lemma PlainWordRead(prefix: seq<byte>, rest: seq<byte>)
    requires LegalPrefix(prefix) && (IsEnd(rest) || IsBlank(rest[0]))
    ensures Scan(prefix + rest, Plain, []) == Token(prefix, if IsEnd(rest) then rest else rest[1..])
  {
    PrefixRead(prefix, rest, []);
    assert [] + prefix == prefix;
    PlainEnds(rest, prefix);
  }

  lemma PlainEnds(rest: seq<byte>, current: seq<byte>)
    requires IsEnd(rest) || IsBlank(rest[0])
    ensures Scan(rest, Plain, current) == Token(current, if IsEnd(rest) then rest else rest[1..])
  {
  }

  lemma QuotedWordRead(w: Word, rest: seq<byte>)
    requires LegalWord(w) && !w.tail.NoTail?
    ensures Scan(w.prefix + (WriteTail(w.tail) + rest), Plain, []) == Close([0] + rest, WordValue(w))
  {
    PrefixRead(w.prefix, WriteTail(w.tail) + rest, []);
    assert [] + w.prefix == w.prefix;
    TailRead(w.tail, rest, w.prefix);
  }

  /** A word in front of what may follow it. */
  lemma WordRead(w: Word, rest: seq<byte>)
    requires LegalWord(w) && (IsEnd(rest) || (if w.tail.NoTail? then IsBlank(rest[0]) else IsWhite(rest[0])))
    ensures Scan(WriteWord(w) + rest, Plain, [])
         == Token(WordValue(w), if w.tail.NoTail? && !IsEnd(rest) then rest[1..] else rest)
  {
    if w.tail.NoTail? {
      assert WriteWord(w) == w.prefix == WordValue(w);
      PlainWordRead(w.prefix, rest);
    } else {
      assert WriteWord(w) + rest == w.prefix + (WriteTail(w.tail) + rest);
      QuotedWordRead(w, rest);
      assert ([0] + rest)[1..] == rest;
    }
  }

  lemma {:induction false} GapSkipped(gap: seq<byte>, s: seq<byte>)
    requires AllWhite(gap)
    ensures SkipBlanks(gap + s) == SkipBlanks(s)
    decreases |gap|
  {
    if gap == [] {
      assert gap + s == s;
    } else {
      assert (gap + s)[1..] == gap[1..] + s;
      GapSkipped(gap[1..], s);
    }
  }

  /** Splitting depends on what is left after the blanks. */
  lemma SplitSkips(a: seq<byte>, b: seq<byte>)
    requires SkipBlanks(a) == SkipBlanks(b)
    ensures SplitArgs(a) == SplitArgs(b)
  {
  }

  lemma WordStarts(w: Word)
    requires LegalWord(w)
    ensures WriteWord(w) != [] && !IsWhite(WriteWord(w)[0]) && WriteWord(w)[0] != 0
  {
  }

  /** One item, and what the rest of the line is split into. */
  lemma ItemRead(lead: seq<byte>, i: Item, rest: seq<byte>)
    requires AllWhite(lead) && LegalItem(i, rest)
    ensures SplitArgs(lead + (WriteWord(i.word) + (i.gap + rest))) == Prepend([WordValue(i.word)], SplitArgs(rest))
  {
    var behind := i.gap + rest;
    var s := WriteWord(i.word) + behind;
    WordStarts(i.word);
    assert s[0] == WriteWord(i.word)[0];
    GapSkipped(lead, s);
    assert i.gap != [] ==> behind[0] == i.gap[0];
    assert i.gap == [] ==> behind == rest;
    WordRead(i.word, behind);
    ItemRest(i, rest);
  }

  /** The gap does not matter for what follows it. */
  lemma ItemRest(i: Item, rest: seq<byte>)
    requires LegalItem(i, rest)
    ensures var behind := i.gap + rest;
      SplitArgs(if i.word.tail.NoTail? && !IsEnd(behind) then behind[1..] else behind) == SplitArgs(rest)
  {
    var behind := i.gap + rest;
    GapSkipped(i.gap, rest);
    if i.gap == [] {
      assert behind == rest;
    } else {
      GapSkipped(i.gap[1..], rest);
      assert behind[1..] == i.gap[1..] + rest;
      SplitSkips(behind[1..], rest);
    }
    SplitSkips(behind, rest);
  }

  /** A line of words is split into what they stand for, before what the rest of the line is split into. */
  lemma {:induction false} ItemsRead(lead: seq<byte>, items: seq<Item>, end: seq<byte>)
    requires AllWhite(lead) && LegalItems(items, end)
    ensures SplitArgs(lead + WriteItems(items, end)) == Prepend(Values(items), SplitArgs(end))
    decreases |items|
  {
    if items == [] {
      GapSkipped(lead, end);
      SplitSkips(lead + end, end);
      PrependNothing([], SplitArgs(end));
    } else {
      var rest := WriteItems(items[1..], end);
      ItemRead(lead, items[0], rest);
      ItemsRead([], items[1..], end);
      assert [] + rest == rest;
      PrependOne([], WordValue(items[0].word), Prepend(Values(items[1..]), SplitArgs(end)));
      PrependTwo(WordValue(items[0].word), Values(items[1..]), SplitArgs(end));
    }
  }

  lemma PrependTwo(v: seq<byte>, vs: seq<seq<byte>>, r: Option<seq<seq<byte>>>)
    ensures Prepend([v], Prepend(vs, r)) == Prepend([v] + vs, r)
  {
    if r.Some? {
      assert [v] + (vs + r.value) == [v] + vs + r.value;
    }
  }

  /** Any words, with any gaps between them, are split into exactly what they stand for. */
  lemma LineRead(lead: seq<byte>, items: seq<Item>, end: seq<byte>)
    requires AllWhite(lead) && LegalItems(items, end) && IsEnd(end)
    ensures SplitArgs(lead + WriteItems(items, end)) == Some(Values(items))
  {
    ItemsRead(lead, items, end);
    PrependNothing(Values(items), None);
  }

  // ---- Unbalanced quotes ----

  /** The end of a line, or in double quotes a last backslash before it. */
  predicate OpenEnd(t: Tail, end: seq<byte>) {
    IsEnd(end) || (t.Double? && end[0] == Octet('\\') && IsEnd(end[1..]))
  }

  /** A word whose quoted part is never closed. */
  predicate LegalOpen(w: Word, end: seq<byte>) {
    && LegalPrefix(w.prefix) && OpenEnd(w.tail, end)
    && match w.tail
       case NoTail => false
       case Double(ps) => LegalPieces(ps, end)
       case Single(ps) => LegalSingles(ps, end)
  }

  function WriteOpen(w: Word, end: seq<byte>): seq<byte> {
    match w.tail
    case NoTail => w.prefix + end
    case Double(ps) => w.prefix + ([Octet('"')] + (WritePieces(ps) + end))
    case Single(ps) => w.prefix + ([Octet('\'')] + (WriteSingles(ps) + end))
  }

  lemma OpenScan(w: Word, end: seq<byte>)
    requires LegalOpen(w, end)
    ensures Scan(WriteOpen(w, end), Plain, []) == Unbalanced
  {
    match w.tail
    case Double(ps) =>
      var body := WritePieces(ps) + end;
      PrefixRead(w.prefix, [Octet('"')] + body, []);
      assert ([Octet('"')] + body)[1..] == body;
      PiecesRead(ps, end, [] + w.prefix);
      if !IsEnd(end) {
        assert Scan(end, Quoted, [] + w.prefix + PieceValues(ps))
            == Scan(end[1..], Quoted, [] + w.prefix + PieceValues(ps) + [end[0]]);
      }
    case Single(ps) =>
      var body := WriteSingles(ps) + end;
      PrefixRead(w.prefix, [Octet('\'')] + body, []);
      assert ([Octet('\'')] + body)[1..] == body;
      SinglesRead(ps, end, [] + w.prefix);
  }

  /** A bad word gives no arguments at all, whatever comes before it. */
  lemma BadEnd(lead: seq<byte>, items: seq<Item>, end: seq<byte>)
    requires AllWhite(lead) && LegalItems(items, end)
    requires end != [] && !IsWhite(end[0]) && end[0] != 0 && Scan(end, Plain, []) == Unbalanced
    ensures SplitArgs(lead + WriteItems(items, end)) == None
  {
    ItemsRead(lead, items, end);
  }

  /** A quote that is never closed. */
  lemma NeverClosed(lead: seq<byte>, items: seq<Item>, w: Word, end: seq<byte>)
    requires AllWhite(lead) && LegalOpen(w, end) && LegalItems(items, WriteOpen(w, end))
    ensures SplitArgs(lead + WriteItems(items, WriteOpen(w, end))) == None
  {
    OpenScan(w, end);
    BadEnd(lead, items, WriteOpen(w, end));
  }

  lemma BadCloseScan(w: Word, rest: seq<byte>)
    requires LegalWord(w) && !w.tail.NoTail? && !IsEnd(rest) && !IsWhite(rest[0])
    ensures Scan(WriteWord(w) + rest, Plain, []) == Unbalanced
  {
    assert WriteWord(w) + rest == w.prefix + (WriteTail(w.tail) + rest);
    QuotedWordRead(w, rest);
    assert ([0] + rest)[1] == rest[0];
  }

  /** A closing quote that is followed by something other than a space. */
  lemma BadlyClosed(lead: seq<byte>, items: seq<Item>, w: Word, rest: seq<byte>)
    requires AllWhite(lead) && LegalWord(w) && !w.tail.NoTail? && !IsEnd(rest) && !IsWhite(rest[0])
    requires LegalItems(items, WriteWord(w) + rest)
    ensures SplitArgs(lead + WriteItems(items, WriteWord(w) + rest)) == None
  {
    BadCloseScan(w, rest);
    WordStarts(w);
    assert (WriteWord(w) + rest)[0] == WriteWord(w)[0];
    BadEnd(lead, items, WriteWord(w) + rest);
  }

  // ---- And every line that is split is made of words ----

  lemma HexDigitOf(b: byte) returns (n: Nibble, upper: bool)
    requires IsXDigit(b)
    ensures HexDigit(n, upper) == b
  {
    n, upper := HexDigitToInt(b), 65 <= b <= 70;
    HexDigitRead(n, upper);
  }

  /** The pieces read before a closing double quote. */
  lemma {:induction false} PiecesUnread(s: seq<byte>, current: seq<byte>) returns (ps: seq<Piece>, rest: seq<byte>)
    requires Scan(s, Quoted, current).Token?
    ensures LegalPieces(ps, [Octet('"')] + rest) && s == WritePieces(ps) + ([Octet('"')] + rest)
    ensures Scan(s, Quoted, current) == Token(current + PieceValues(ps), rest) && (IsEnd(rest) || IsWhite(rest[0]))
    decreases |s|
  {
    if s[0] == QUOTE {
      ps, rest := [], s[1..];
      assert s == [Octet('"')] + rest && WritePieces([]) + s == s;
      assert current + PieceValues([]) == current;
    } else {
      var p, k := PieceAt(s);
      assert s == WritePiece(p) + s[k..];
      PieceRead(p, s[k..], current);
      var more;
      more, rest := PiecesUnread(s[k..], current + [PieceValue(p)]);
      ps := [p] + more;
      PiecesCons(p, more, [Octet('"')] + rest, current);
    }
  }

  lemma PiecesCons(p: Piece, more: seq<Piece>, text: seq<byte>, current: seq<byte>)
    ensures WritePieces([p] + more) + text == WritePiece(p) + (WritePieces(more) + text)
    ensures current + PieceValues([p] + more) == current + [PieceValue(p)] + PieceValues(more)
    ensures LegalPieces([p] + more, text) <==> LegalPiece(p, WritePieces(more) + text) && LegalPieces(more, text)
  {
    assert ([p] + more)[1..] == more;
    assert (WritePiece(p) + WritePieces(more)) + text == WritePiece(p) + (WritePieces(more) + text);
    assert current + ([PieceValue(p)] + PieceValues(more)) == current + [PieceValue(p)] + PieceValues(more);
  }

  /** The piece at the front. */
  lemma PieceAt(s: seq<byte>) returns (p: Piece, k: nat)
    requires s != [] && s[0] != 0 && s[0] != QUOTE && !(s[0] == BACKSLASH && At(s, 1) == 0)
    ensures 0 < k <= |s| && s[..k] == WritePiece(p) && s == WritePiece(p) + s[k..] && LegalPiece(p, s[k..])
  {
    if IsHexEscape(s) {
      var high, uh := HexDigitOf(s[2]);
      var low, ul := HexDigitOf(s[3]);
      p, k := Hex(high, low, uh, ul), 4;
    } else if s[0] == BACKSLASH {
      p, k := Letter(s[1]), 2;
    } else {
      p, k := Raw(s[0]), 1;
    }
    assert s == s[..k] + s[k..];
  }

  lemma SinglesCons(p: SinglePiece, more: seq<SinglePiece>, text: seq<byte>, current: seq<byte>)
    ensures WriteSingles([p] + more) + text == WriteSingle(p) + (WriteSingles(more) + text)
    ensures current + SingleValues([p] + more) == current + [SingleValue(p)] + SingleValues(more)
    ensures LegalSingles([p] + more, text) <==> LegalSingle(p, WriteSingles(more) + text) && LegalSingles(more, text)
  {
    assert ([p] + more)[1..] == more;
    assert (WriteSingle(p) + WriteSingles(more)) + text == WriteSingle(p) + (WriteSingles(more) + text);
    assert current + ([SingleValue(p)] + SingleValues(more)) == current + [SingleValue(p)] + SingleValues(more);
  }

  /** The same before a closing apostrophe. */
  lemma {:induction false} SinglesUnread(s: seq<byte>, current: seq<byte>) returns (ps: seq<SinglePiece>, rest: seq<byte>)
    requires Scan(s, SingleQuoted, current).Token?
    ensures LegalSingles(ps, [Octet('\'')] + rest) && s == WriteSingles(ps) + ([Octet('\'')] + rest)
    ensures Scan(s, SingleQuoted, current) == Token(current + SingleValues(ps), rest) && (IsEnd(rest) || IsWhite(rest[0]))
    decreases |s|
  {
    if s[0] == APOSTROPHE {
      ps, rest := [], s[1..];
      assert s == [Octet('\'')] + rest && WriteSingles([]) + s == s;
      assert current + SingleValues([]) == current;
    } else {
      var p, k := SingleAt(s);
      SingleRead(p, s[k..], current);
      var more;
      more, rest := SinglesUnread(s[k..], current + [SingleValue(p)]);
      ps := [p] + more;
      SinglesCons(p, more, [Octet('\'')] + rest, current);
    }
  }

  lemma SingleAt(s: seq<byte>) returns (p: SinglePiece, k: nat)
    requires s != [] && s[0] != 0 && s[0] != APOSTROPHE
    ensures 0 < k <= |s| && s == WriteSingle(p) + s[k..] && LegalSingle(p, s[k..])
  {
    if s[0] == BACKSLASH && At(s, 1) == APOSTROPHE {
      p, k := SingleApostrophe, 2;
    } else {
      p, k := SingleRaw(s[0]), 1;
    }
    assert s == s[..k] + s[k..] && s[..k] == WriteSingle(p);
  }

  /** Pieces that are legal in front of a quote and more are legal in front of the quote. */
  lemma {:induction false} LegalWithout(ps: seq<Piece>, rest: seq<byte>)
    requires LegalPieces(ps, [Octet('"')] + rest)
    ensures LegalPieces(ps, [Octet('"')])
    decreases |ps|
  {
    if ps != [] {
      LegalWithout(ps[1..], rest);
      var t := WritePieces(ps[1..]) + [Octet('"')];
      assert WritePieces(ps[1..]) + ([Octet('"')] + rest) == t + rest;
      assert |t| >= 2 ==> t[0] == (t + rest)[0] && t[1] == (t + rest)[1];
    }
  }

  lemma {:induction false} LegalSinglesWithout(ps: seq<SinglePiece>, rest: seq<byte>)
    requires LegalSingles(ps, [Octet('\'')] + rest)
    ensures LegalSingles(ps, [Octet('\'')])
    decreases |ps|
  {
    if ps != [] {
      LegalSinglesWithout(ps[1..], rest);
      var t := WriteSingles(ps[1..]) + [Octet('\'')];
      assert WriteSingles(ps[1..]) + ([Octet('\'')] + rest) == t + rest;
      assert t[0] == (t + rest)[0];
    }
  }

  predicate PlainOctet(b: byte) {
    b != 0 && !IsBlank(b) && b != Octet('"') && b != Octet('\'')
  }

  /** What a scan outside quotes has read: a word, but that its first octet may be any plain one. */
  ghost predicate ScannedAs(s: seq<byte>, current: seq<byte>, w: Word, rest: seq<byte>) {
    && (forall i :: 0 <= i < |w.prefix| ==> PlainOctet(w.prefix[i])) && LegalTail(w.tail) && s == WriteWord(w) + rest
    && (IsEnd(rest) || (if w.tail.NoTail? then IsBlank(rest[0]) else IsWhite(rest[0])))
    && Scan(s, Plain, current) == Token(current + WordValue(w), if w.tail.NoTail? && !IsEnd(rest) then rest[1..] else rest)
  }

  lemma EndUnread(s: seq<byte>, current: seq<byte>)
    requires IsEnd(s) || IsBlank(s[0])
    ensures ScannedAs(s, current, Word([], NoTail), s)
  {
    var w := Word([], NoTail);
    assert WriteWord(w) == [] && [] + s == s && current + WordValue(w) == current;
  }

  lemma QuotedText(quote: byte, text: seq<byte>, rest: seq<byte>)
    ensures [quote] + (text + [quote]) + rest == [quote] + (text + ([quote] + rest))
  {
  }

  lemma DoubleUnread(s: seq<byte>, current: seq<byte>) returns (w: Word, rest: seq<byte>)
    requires s != [] && s[0] == QUOTE && Scan(s, Plain, current).Token?
    ensures ScannedAs(s, current, w, rest)
  {
    var ps;
    ps, rest := PiecesUnread(s[1..], current);
    LegalWithout(ps, rest);
    w := Word([], Double(ps));
    assert s == [s[0]] + s[1..];
    QuotedText(Octet('"'), WritePieces(ps), rest);
    assert WriteWord(w) == WriteTail(w.tail) && WordValue(w) == PieceValues(ps);
  }

  lemma SingleUnread(s: seq<byte>, current: seq<byte>) returns (w: Word, rest: seq<byte>)
    requires s != [] && s[0] == APOSTROPHE && Scan(s, Plain, current).Token?
    ensures ScannedAs(s, current, w, rest)
  {
    var ps;
    ps, rest := SinglesUnread(s[1..], current);
    LegalSinglesWithout(ps, rest);
    w := Word([], Single(ps));
    assert s == [s[0]] + s[1..];
    QuotedText(Octet('\''), WriteSingles(ps), rest);
    assert WriteWord(w) == WriteTail(w.tail) && WordValue(w) == SingleValues(ps);
  }

  lemma PlainMore(s: seq<byte>, current: seq<byte>, v: Word, rest: seq<byte>)
    requires s != [] && PlainOctet(s[0]) && ScannedAs(s[1..], current + [s[0]], v, rest)
    ensures ScannedAs(s, current, Word([s[0]] + v.prefix, v.tail), rest)
  {
    var w := Word([s[0]] + v.prefix, v.tail);
    assert s == [s[0]] + s[1..];
    assert WriteWord(w) == [s[0]] + WriteWord(v);
    assert WriteWord(w) + rest == [s[0]] + (WriteWord(v) + rest);
    assert current + [s[0]] + WordValue(v) == current + WordValue(w);
  }

  /** Plain characters, and then a quoted part or the end of the word. */
  lemma {:induction false} PlainUnread(s: seq<byte>, current: seq<byte>) returns (w: Word, rest: seq<byte>)
    requires Scan(s, Plain, current).Token?
    ensures ScannedAs(s, current, w, rest)
    decreases |s|
  {
    if IsEnd(s) || IsBlank(s[0]) {
      w, rest := Word([], NoTail), s;
      EndUnread(s, current);
    } else if s[0] == QUOTE {
      w, rest := DoubleUnread(s, current);
    } else if s[0] == APOSTROPHE {
      w, rest := SingleUnread(s, current);
    } else {
      var v;
      v, rest := PlainUnread(s[1..], current + [s[0]]);
      PlainMore(s, current, v, rest);
      w := Word([s[0]] + v.prefix, v.tail);
    }
  }

  /** The spaces at the front. */
  lemma {:induction false} BlanksUnread(s: seq<byte>) returns (lead: seq<byte>)
    ensures AllWhite(lead) && s == lead + SkipBlanks(s)
    ensures lead == [] ==> s == [] || !IsWhite(s[0])
    decreases |s|
  {
    if s != [] && IsSpace(s[0]) {
      var more := BlanksUnread(s[1..]);
      lead := [s[0]] + more;
      assert s == [s[0]] + s[1..];
    } else {
      lead := [];
      assert s == [] + s;
    }
  }

  /** The word at the front of a line without leading spaces. */
  lemma WordUnread(s: seq<byte>) returns (w: Word, rest: seq<byte>)
    requires !IsEnd(s) && !IsWhite(s[0]) && Scan(s, Plain, []).Token?
    ensures LegalWord(w) && ScannedAs(s, [], w, rest)
  {
    w, rest := PlainUnread(s, []);
    assert w.prefix != [] ==> w.prefix[0] == s[0];
  }

  /** Every line that is split into arguments is made of words that stand for them. */
  lemma {:induction false} LineUnread(line: seq<byte>) returns (lead: seq<byte>, items: seq<Item>, end: seq<byte>)
    requires SplitArgs(line).Some?
    ensures AllWhite(lead) && LegalItems(items, end) && IsEnd(end) && line == lead + WriteItems(items, end)
    ensures SplitArgs(line) == Some(Values(items))
    ensures lead == [] ==> line == [] || !IsWhite(line[0])
    decreases |line|
  {
    lead := BlanksUnread(line);
    var s := SkipBlanks(line);
    if IsEnd(s) {
      items, end := [], s;
    } else {
      var w, rest := WordUnread(s);
      var token := Scan(s, Plain, []);
      var gap, more;
      gap, more, end := LineUnread(token.rest);
      items := AddWord(w, rest, token.rest, gap, more, end);
      assert [] + WordValue(w) == WordValue(w);
    }
  }

  /** The gap behind a word is what is left of it and the spaces after. */
  lemma AddWord(w: Word, rest: seq<byte>, left: seq<byte>, lead: seq<byte>, more: seq<Item>, end: seq<byte>)
    returns (items: seq<Item>)
    requires LegalWord(w) && AllWhite(lead) && LegalItems(more, end) && IsEnd(end) && left == lead + WriteItems(more, end)
    requires lead == [] ==> left == [] || !IsWhite(left[0])
    requires IsEnd(rest) || (if w.tail.NoTail? then IsBlank(rest[0]) else IsWhite(rest[0]))
    requires left == if w.tail.NoTail? && !IsEnd(rest) then rest[1..] else rest
    ensures LegalItems(items, end) && WriteItems(items, end) == WriteWord(w) + rest
    ensures Values(items) == [WordValue(w)] + Values(more)
  {
    var gap := if w.tail.NoTail? && !IsEnd(rest) then [rest[0]] + lead else lead;
    assert gap + WriteItems(more, end) == rest;
    if gap == [] {
      assert WriteItems(more, end) == left == rest;
    }
    items := [Item(w, gap)] + more;
    assert items[1..] == more;
  }
}
