/**
 * Feeding a byte stream to the reader in pieces and collecting the replies
 * after each piece gives the replies and the fault of the whole stream.
 */
module RespStream {
  import opened Bytes
  import opened Resp
  import opened RespReader

  ghost function Concat(chunks: seq<seq<byte>>): seq<byte> {
    if chunks == [] then [] else Concat(chunks[..|chunks| - 1]) + chunks[|chunks| - 1]
  }

  /** The bytes after the last complete reply. */
  ghost function Leftover(cfg: Config, s: seq<byte>): seq<byte>
    decreases |s|
  {
    var p := ParseItem(cfg, s);
    if p.Done? then Leftover(cfg, p.rest) else s
  }

  ghost function Replies(cfg: Config, s: seq<byte>): seq<Reply> {
    ParseStream(cfg, s).0
  }

  ghost function FinalFault(cfg: Config, s: seq<byte>): Option<Fault> {
    ParseStream(cfg, s).1
  }

  /** Cutting a stream: the replies of the front, then those of its leftover joined with the back. */
  lemma {:induction false} StreamCut(cfg: Config, s: seq<byte>, t: seq<byte>)
    ensures FinalFault(cfg, s).Some? ==> ParseStream(cfg, s + t) == ParseStream(cfg, s)
    ensures FinalFault(cfg, s).None? ==>
              && Replies(cfg, s + t) == Replies(cfg, s) + Replies(cfg, Leftover(cfg, s) + t)
              && FinalFault(cfg, s + t) == FinalFault(cfg, Leftover(cfg, s) + t)
              && Leftover(cfg, s + t) == Leftover(cfg, Leftover(cfg, s) + t)
    decreases |s|
  {
    var p := ParseItem(cfg, s);
    match p
    case More =>
    case Fail(e) => ItemStable(cfg, s, t);
    case Done(v, rest) =>
      ItemStable(cfg, s, t);
      StreamCut(cfg, rest, t);
      StreamCons(cfg, s + t, v, rest + t);
      StreamCons(cfg, s, v, rest);
  }

  lemma StreamCons(cfg: Config, s: seq<byte>, v: Reply, rest: seq<byte>)
    requires ParseItem(cfg, s) == Done(v, rest)
    ensures Replies(cfg, s) == [v] + Replies(cfg, rest) && FinalFault(cfg, s) == FinalFault(cfg, rest)
    ensures Leftover(cfg, s) == Leftover(cfg, rest)
  {
  }

  /** Takes replies until there is none left or the reader fails. */
  method Drain(reader: Reader) returns (replies: seq<Reply>)
    requires reader.Valid() && reader.err.None?
    modifies reader
    ensures reader.Valid()
    ensures (replies, reader.err) == ParseStream(reader.cfg, old(reader.Pending()))
    ensures reader.err.None? ==> reader.Pending() == Leftover(reader.cfg, old(reader.Pending()))
  {
    replies := [];
    ghost var start := reader.Pending();
    assert [] + ParseStream(reader.cfg, start).0 == ParseStream(reader.cfg, start).0;
    while true
      invariant reader.Valid() && reader.err.None?
      invariant ParseStream(reader.cfg, start).0 == replies + ParseStream(reader.cfg, reader.Pending()).0
      invariant ParseStream(reader.cfg, start).1 == ParseStream(reader.cfg, reader.Pending()).1
      invariant Leftover(reader.cfg, start) == Leftover(reader.cfg, reader.Pending())
      decreases |reader.Pending()|
    {
      ghost var before := reader.Pending();
      var ok, r := reader.GetReply();
      if r.None? {
        assert replies + [] == replies;
        return;
      }
      ghost var (vs, _) := ParseStream(reader.cfg, reader.Pending());
      assert replies + ([r.value] + vs) == replies + [r.value] + vs;
      replies := replies + [r.value];
    }
  }

  /**
   * A fresh reader fed `chunks` one by one, drained after each. `avail` is
   * the spare buffer capacity found at each feed.
   */
  method ReadAll(cfg: Config, chunks: seq<seq<byte>>, avail: seq<nat>) returns (replies: seq<Reply>, err: Option<Fault>)
    requires |avail| == |chunks|
    ensures (replies, err) == ParseStream(cfg, Concat(chunks))
  {
    var reader := new Reader(cfg);
    replies := [];
    assert chunks[..0] == [];
    for i := 0 to |chunks|
      invariant fresh(reader) && reader.Valid() && reader.cfg == cfg
      invariant (replies, reader.err) == ParseStream(cfg, Concat(chunks[..i]))
      invariant reader.err.None? ==> reader.Pending() == Leftover(cfg, Concat(chunks[..i]))
    {
      ghost var s := Concat(chunks[..i]);
      assert chunks[..i + 1][..i] == chunks[..i];
      StreamCut(cfg, s, chunks[i]);
      var ok := reader.Feed(chunks[i], avail[i]);
      if ok {
        var more := Drain(reader);
        replies := replies + more;
      }
    }
    assert chunks[..|chunks|] == chunks;
    err := reader.err;
  }
}
