/**
 * The command formatter of hiredis.c and the proof that the reader reads back
 * exactly the arguments that were formatted.
 */
module RespFormat {
  import opened Bytes
  import opened Decimal
  import opened Resp
  import opened RespReader
  import opened RespStream

  const DOLLAR: byte := 36
  const STAR: byte := 42

  /** One argument as a bulk string: length line, payload, line end. */
  function Bulk(a: seq<byte>): seq<byte> {
    [DOLLAR] + Digits(|a|) + CRLF + a + CRLF
  }

  /** The arguments from the `i`-th on. */
  function Bulks(argv: seq<seq<byte>>, i: nat): seq<byte>
    requires i <= |argv|
    decreases |argv| - i
  {
    if i == |argv| then [] else Bulk(argv[i]) + Bulks(argv, i + 1)
  }

  /** The command as the protocol defines it: an array of bulk strings. */
  function Command(argv: seq<seq<byte>>): seq<byte> {
    [STAR] + Digits(|argv|) + CRLF + Bulks(argv, 0)
  }

  lemma BulksStep(before: seq<byte>, argv: seq<seq<byte>>, j: nat)
    requires j < |argv|
    ensures before + Bulk(argv[j]) + Bulks(argv, j + 1) == before + Bulks(argv, j)
  {
  }

  /** The size of one formatted argument. */
  method BulkLen(len: nat) returns (n: nat)
    ensures forall a: seq<byte> :: |a| == len ==> n == |Bulk(a)|
  {
    var d := CountDigits(len);
    n := 1 + d + 2 + len + 2;
  }

  /** Copies `s` into the buffer at `pos`, as sprintf() and memcpy() do. */
  method Put(cmd: array<byte>, pos: nat, s: seq<byte>) returns (next: nat)
    requires pos + |s| <= cmd.Length
    modifies cmd
    ensures next == pos + |s|
    ensures cmd[..next] == old(cmd[..pos]) + s
  {
    for i := 0 to |s|
      invariant cmd[..pos] == old(cmd[..pos])
      invariant cmd[pos..pos + i] == s[..i]
    {
      cmd[pos + i] := s[i];
      assert cmd[pos..pos + i + 1] == cmd[pos..pos + i] + [s[i]];
    }
    next := pos + |s|;
    assert s[..|s|] == s;
    assert cmd[..next] == cmd[..pos] + cmd[pos..next];
  }

  /** The size computed before the command is built. */
  method TotalLength(argv: seq<seq<byte>>) returns (totlen: nat)
    ensures totlen == |Command(argv)|
  {
    var d := CountDigits(|argv|);
    totlen := 1 + d + 2;
    for j := 0 to |argv|
      invariant totlen + |Bulks(argv, j)| == |Command(argv)|
    {
      var b := BulkLen(|argv[j]|);
      assert b == |Bulk(argv[j])|;
      totlen := totlen + b;
    }
  }

  /** Writes one argument at `pos`. */
  method PutBulk(cmd: array<byte>, pos: nat, a: seq<byte>) returns (next: nat)
    requires pos + |Bulk(a)| <= cmd.Length
    modifies cmd
    ensures next == pos + |Bulk(a)|
    ensures cmd[..next] == old(cmd[..pos]) + Bulk(a)
  {
    ghost var before := cmd[..pos];
    ghost var header := [DOLLAR] + Digits(|a|) + CRLF;
    next := Put(cmd, pos, [DOLLAR] + Digits(|a|) + CRLF);
    next := Put(cmd, next, a);
    assert cmd[..next] == before + header + a;
    next := Put(cmd, next, CRLF);
    assert before + header + a + CRLF == before + (header + a + CRLF);
  }

  /**
   * Builds the command in a buffer of the computed size; the final position is
   * that size.
   */
  method FormatCommandArgv(argv: seq<seq<byte>>) returns (cmd: array<byte>, totlen: nat)
    ensures fresh(cmd) && cmd.Length == totlen + 1
    ensures cmd[..totlen] == Command(argv) && cmd[totlen] == 0
  {
    totlen := TotalLength(argv);
    cmd := new byte[totlen + 1];
    var pos := Put(cmd, 0, [STAR] + Digits(|argv|) + CRLF);
    assert cmd[..pos] + Bulks(argv, 0) == Command(argv);
    for j := 0 to |argv|
      invariant 0 <= pos <= totlen && cmd[..pos] + Bulks(argv, j) == Command(argv)
    {
      ghost var before := cmd[..pos];
      assert |before + Bulks(argv, j)| == totlen;
      pos := PutBulk(cmd, pos, argv[j]);
      BulksStep(before, argv, j);
    }
    assert cmd[..pos] + [] == cmd[..pos];
    assert pos == totlen;
    cmd[pos] := 0;
  }

  // ---- Reading back ----

  /** The reply a command comes back as. */
  function AsReply(argv: seq<seq<byte>>): Reply {
    AggregateReply(Array, seq(|argv|, i requires 0 <= i < |argv| => TextReply(String, argv[i])))
  }

  /** Every length fits the 64-bit integers of the protocol. */
  predicate Representable(argv: seq<seq<byte>>) {
    |argv| <= LLONG_MAX && forall i :: 0 <= i < |argv| ==> |argv[i]| <= LLONG_MAX
  }

  /** A line of digits ends where the digits end. */
  lemma DigitsLine(d: seq<byte>, t: seq<byte>)
    requires forall i :: 0 <= i < |d| ==> IsDigit(d[i])
    ensures Newline(d + CRLF + t) == Some(|d|)
  {
    var s := d + CRLF + t;
    assert NewlineAt(s, |d|);
    assert forall i :: 0 <= i < |d| ==> s[i] == d[i];
  }

  lemma NumberLine(n: nat, t: seq<byte>)
    requires n <= LLONG_MAX
    ensures var s := Digits(n) + CRLF + t;
            && Newline(s) == Some(|Digits(n)|)
            && s[..|Digits(n)|] == Digits(n)
            && IntOf(s[..|Digits(n)|]) == Some(n)
            && s[|Digits(n)| + 2..] == t
  {
    var d := Digits(n);
    DigitsAreCanonical(n);
    IntOfText(n);
    DigitsLine(d, t);
    assert (d + CRLF + t)[..|d|] == d;
  }

  lemma ReadBulk(cfg: Config, a: seq<byte>, t: seq<byte>)
    requires |a| <= LLONG_MAX
    ensures ParseItem(cfg, Bulk(a) + t) == Done(TextReply(String, a), t)
  {
    var s := Digits(|a|) + CRLF + (a + CRLF + t);
    assert Bulk(a) + t == [DOLLAR] + s;
    NumberLine(|a|, a + CRLF + t);
    var k := |Digits(|a|)| + 2;
    assert s[k..k + |a|] == a;
    assert s[k + |a| + 2..] == t;
  }

  lemma ReadOneMore(cfg: Config, n: nat, a: seq<byte>, s: seq<byte>, vs: seq<Reply>, t: seq<byte>)
    requires n > 0 && |a| <= LLONG_MAX && ParseElements(cfg, n - 1, s) == Done(vs, t)
    ensures ParseElements(cfg, n, Bulk(a) + s) == Done([TextReply(String, a)] + vs, t)
  {
    ReadBulk(cfg, a, s);
  }

  lemma {:induction false} ReadBulks(cfg: Config, argv: seq<seq<byte>>, t: seq<byte>, i: nat)
    requires Representable(argv) && i <= |argv|
    ensures ParseElements(cfg, |argv| - i, Bulks(argv, i) + t) == Done(AsReply(argv).elements[i..], t)
    decreases |argv| - i
  {
    var vs := AsReply(argv).elements;
    if i < |argv| {
      ReadBulks(cfg, argv, t, i + 1);
      ReadOneMore(cfg, |argv| - i, argv[i], Bulks(argv, i + 1) + t, vs[i + 1..], t);
      assert Bulks(argv, i) + t == Bulk(argv[i]) + (Bulks(argv, i + 1) + t);
      assert vs[i..] == [TextReply(String, argv[i])] + vs[i + 1..];
    } else {
      assert Bulks(argv, i) + t == t;
      assert vs[i..] == [];
    }
  }

  lemma CommandHeader(cfg: Config, argv: seq<seq<byte>>, t: seq<byte>)
    requires Representable(argv)
    ensures var s := Digits(|argv|) + CRLF + (Bulks(argv, 0) + t);
            && ParseItem(cfg, Command(argv) + t) == ParseTyped(cfg, Array, s)
            && ParseHeader(cfg, Array, s)
               == (if cfg.maxElements > 0 && |argv| > cfg.maxElements then Fail(MultiBulkLengthOutOfRange)
                   else Done(|argv|, Bulks(argv, 0) + t))
  {
    var s := Digits(|argv|) + CRLF + (Bulks(argv, 0) + t);
    assert Command(argv) + t == [STAR] + s;
    assert ([STAR] + s)[1..] == s;
    NumberLine(|argv|, Bulks(argv, 0) + t);
  }

  /**
   * A formatted command is read back as the array of its arguments and leaves
   * what follows untouched, unless it has more arguments than the reader admits.
   */
  lemma ReadCommand(cfg: Config, argv: seq<seq<byte>>, t: seq<byte>)
    requires Representable(argv)
    ensures ParseItem(cfg, Command(argv) + t)
         == if cfg.maxElements > 0 && |argv| > cfg.maxElements then Fail(MultiBulkLengthOutOfRange)
            else Done(AsReply(argv), t)
  {
    CommandHeader(cfg, argv, t);
    ReadBulks(cfg, argv, t, 0);
    var vs := AsReply(argv).elements;
    assert vs[0..] == vs && [] + vs == vs;
  }

  function Pipeline(commands: seq<seq<seq<byte>>>): seq<byte> {
    if commands == [] then [] else Command(commands[0]) + Pipeline(commands[1..])
  }

  /** A pipeline of commands is read back as those commands in order, with nothing left over. */
  lemma {:induction false} ReadPipeline(cfg: Config, commands: seq<seq<seq<byte>>>)
    requires forall i :: 0 <= i < |commands| ==>
               Representable(commands[i]) && (cfg.maxElements > 0 ==> |commands[i]| <= cfg.maxElements)
    ensures Replies(cfg, Pipeline(commands))
         == seq(|commands|, i requires 0 <= i < |commands| => AsReply(commands[i]))
    ensures FinalFault(cfg, Pipeline(commands)) == None && Leftover(cfg, Pipeline(commands)) == []
  {
    if commands != [] {
      var rest := Pipeline(commands[1..]);
      ReadCommand(cfg, commands[0], rest);
      ReadPipeline(cfg, commands[1..]);
      StreamCons(cfg, Pipeline(commands), AsReply(commands[0]), rest);
    }
  }

  /** Formatting and then reading, through the buffers of both sides. */
  method RoundTrip(cfg: Config, argv: seq<seq<byte>>, avail: nat) returns (r: seq<Reply>, err: Option<Fault>)
    requires Representable(argv) && (cfg.maxElements > 0 ==> |argv| <= cfg.maxElements)
    ensures r == [AsReply(argv)] && err == None
  {
    var cmd, n := FormatCommandArgv(argv);
    ReadPipeline(cfg, [argv]);
    assert [argv][1..] == [];
    assert Pipeline([argv]) == Command(argv);
    var chunks := [cmd[..n]];
    assert chunks[..0] == [] && Concat(chunks) == [] + chunks[0] == Command(argv);
    r, err := ReadAll(cfg, chunks, [avail]);
  }
}
