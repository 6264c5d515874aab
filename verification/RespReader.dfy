/**
 * The incremental reader of read.c: bytes are fed in arbitrary pieces, an
 * explicit task stack remembers the position inside nested aggregates, and
 * every reply and every fault is the one the recursive-descent parser finds.
 */
module RespReader {
  import opened Bytes
  import opened Decimal
  import opened Resp
  import opened RespArena

  const REDIS_READER_STACK_SIZE: nat := 9
  const REDIS_READER_MAX_BUF: nat := 1024 * 16

  /** memchr() over `n` bytes at `from`. */
  method MemChr(s: seq<byte>, from: nat, n: nat, c: byte) returns (r: Option<nat>)
    requires from + n <= |s|
    ensures r.Some? ==> from <= r.value < from + n && s[r.value] == c
                        && forall i :: from <= i < r.value ==> s[i] != c
    ensures r.None? ==> forall i :: from <= i < from + n ==> s[i] != c
  {
    for k := from to from + n
      invariant forall i :: from <= i < k ==> s[i] != c
    {
      if s[k] == c { return Some(k); }
    }
    return None;
  }

  /** Finds the first CRLF by hopping from one CR to the next. */
  method SeekNewline(s: seq<byte>) returns (r: Option<nat>)
    ensures r == Newline(s)
  {
    if |s| < 2 { return None; }
    var base, len := 0, |s| - 1;
    r := MemChr(s, base, len, CR);
    while r.Some?
      invariant 0 <= base && 0 <= len && base + len == |s| - 1
      invariant r.Some? ==> base <= r.value < base + len && s[r.value] == CR
      invariant forall i :: 0 <= i < base ==> !NewlineAt(s, i)
      invariant r.Some? ==> forall i :: base <= i < r.value ==> s[i] != CR
      invariant r.None? ==> forall i :: base <= i < base + len ==> s[i] != CR
      decreases len
    {
      if s[r.value + 1] == LF {
        assert NewlineAt(s, r.value);
        return r;
      }
      len := len - (r.value + 1 - base);
      base := r.value + 1;
      r := MemChr(s, base, len, CR);
    }
  }

  /** sdsrange(): keeps the bytes from `start` to `end`, negative positions counting from the back. */
  function SdsRange(s: seq<byte>, start: int, end: int): seq<byte> {
    var len := |s|;
    if len == 0 then s
    else
      var b := if start < 0 then (if len + start < 0 then 0 else len + start) else start;
      var e := if end < 0 then (if len + end < 0 then 0 else len + end) else end;
      if b > e || b >= len then []
      else if e >= len then s[b..]
      else s[b..e + 1]
  }

  lemma SdsRangeDropsPrefix(s: seq<byte>, p: nat)
    requires p <= |s|
    ensures SdsRange(s, p, -1) == s[p..]
  {
  }

  // ---- The phases of reading a reply, on values ----

  /** Inside an item: the stack is well formed and agrees with the bytes seen. */
  ghost predicate InProgress(cfg: Config, arena: seq<Node>, task: seq<Task>, ridx: nat, seen: seq<byte>) {
    Stack(arena, task, ridx, None) && Tracks(cfg, Frames(arena, task, ridx, None), task[ridx].typ, seen)
  }

  /** The item at the top of the stack has been read completely as object `top`. */
  ghost predicate ItemRead(cfg: Config, arena: seq<Node>, task: seq<Task>, ridx: nat, top: nat, seen: seq<byte>) {
    && Stack(arena, task, ridx, Some(top))
    && Returns(cfg, Frames(arena, task, ridx, Some(top)), Tree(arena, top, |arena|), seen)
  }

  /** The whole reply has been read: every slot is filled and the parser finds the same. */
  ghost predicate ReplyRead(cfg: Config, arena: seq<Node>, seen: seq<byte>) {
    && Full(arena, 0, |arena|)
    && forall s {:trigger ParseItem(cfg, seen + s)} ::
         ParseItem(cfg, seen + s) == Done(Tree(arena, 0, |arena|), s)
  }

  lemma ReplyIsRead(cfg: Config, arena: seq<Node>, task: seq<Task>, top: nat, seen: seq<byte>)
    requires ItemRead(cfg, arena, task, 0, top, seen)
    ensures ReplyRead(cfg, arena, seen)
  {
    forall s ensures ParseItem(cfg, seen + s) == Done(Tree(arena, 0, |arena|), s) {
      assert Resume(cfg, Frames(arena, task, 0, Some(top)), Done(Tree(arena, top, |arena|), s))
          == ParseItem(cfg, seen + s);
    }
  }

  lemma ParentIsRead(cfg: Config, arena: seq<Node>, task: seq<Task>, ridx: nat, top: nat, seen: seq<byte>)
    requires ItemRead(cfg, arena, task, ridx, top, seen) && ridx > 0
    requires task[ridx].idx == task[ridx - 1].elements - 1
    ensures task[ridx - 1].obj.Some? && ItemRead(cfg, arena, task, ridx - 1, task[ridx - 1].obj.value, seen)
  {
    PopTask(arena, task, ridx, top);
    ReturnsOutward(cfg, Frames(arena, task, ridx, Some(top)), Tree(arena, top, |arena|), seen);
  }

  lemma NextIsInProgress(cfg: Config, arena: seq<Node>, task: seq<Task>, ridx: nat, top: nat, seen: seq<byte>)
    requires ItemRead(cfg, arena, task, ridx, top, seen) && ridx > 0
    requires task[ridx].idx != task[ridx - 1].elements - 1
    ensures task[ridx].idx < task[ridx - 1].elements
    ensures InProgress(cfg, arena, Advanced(task, ridx), ridx, seen)
  {
    AdvanceTask(arena, task, ridx, top);
    ReturnsNext(cfg, Frames(arena, task, ridx, Some(top)), Tree(arena, top, |arena|), seen);
  }

  lemma ConsumeBytes(seen: seq<byte>, buf: seq<byte>, pos: nat, n: nat)
    requires pos + n <= |buf|
    ensures seen + buf[pos..][..n] + buf[pos + n..] == seen + buf[pos..]
  {
  }

  lemma AppendBytes(seen: seq<byte>, buf: seq<byte>, pos: nat, chunk: seq<byte>)
    requires pos <= |buf|
    ensures seen + (buf + chunk)[pos..] == (seen + buf[pos..]) + chunk
  {
    assert (buf + chunk)[pos..] == buf[pos..] + chunk;
  }

  class Reader {
    const cfg: Config
    var err: Option<Fault>
    var buf: seq<byte>
    var pos: nat
    var task: seq<Task>
    var ridx: int
    var arena: seq<Node>
    var reply: Option<nat>
    ghost var seen: seq<byte>

    /** Everything received that is not yet part of an emitted reply. */
    ghost function Pending(): seq<byte>
      requires pos <= |buf|
      reads this
    {
      seen + buf[pos..]
    }

    /** Inside an item: the stack is well formed and agrees with the bytes seen. */
    ghost predicate Busy()
      reads this
    {
      && err.None? && pos <= |buf| && ridx >= 0
      && InProgress(cfg, arena, task, ridx, seen)
      && (ridx > 0 ==> reply == Some(0))
    }

    ghost predicate Valid()
      reads this
    {
      && pos <= |buf| && |task| > 0
      && (err.Some? ==> buf == [] && ridx == -1)
      && (err.None? && ridx < 0 ==> ridx == -1 && seen == [] && arena == [] && reply.None?)
      && (err.None? && ridx >= 0 ==> Busy())
    }

    constructor (cfg: Config)
      ensures Valid() && err.None? && Pending() == [] && this.cfg == cfg
    {
      this.cfg := cfg;
      err := None;
      buf, pos := [], 0;
      task := seq(REDIS_READER_STACK_SIZE, _ => Task(None, 0, 0, None, None));
      ridx := -1;
      arena, reply := [], None;
      seen := [];
    }

    /** Drops everything read so far; the fault stays. */
    method SetError(e: Fault)
      modifies this
      ensures err == Some(e) && reply == None && arena == []
      ensures buf == [] && pos == 0 && ridx == -1 && task == old(task)
    {
      reply := None;
      arena := [];
      buf, pos := [], 0;
      ridx := -1;
      err := Some(e);
    }

    /**
     * create*Object: a new object of the current task, stored in the slot of
     * the parent object that the task names.
     */
    method Create(node: Node) returns (id: nat)
      requires Busy()
      modifies this`arena
      ensures id == |old(arena)|
      ensures arena == Placed(old(arena), ParentObj(task, ridx), task[ridx].idx, node)
    {
      id := |arena|;
      var cur := task[ridx];
      if cur.parent.Some? {
        var p := task[cur.parent.value].obj.value;
        var parent := arena[p];
        arena := arena[p := Branch(parent.kind, parent.element[cur.idx := Some(id)])];
      }
      arena := arena + [node];
    }

    /** The item at the top of the stack has been read completely as object `top`. */
    ghost predicate Complete(top: nat)
      reads this
    {
      && err.None? && pos <= |buf| && ridx >= 0
      && ItemRead(cfg, arena, task, ridx, top, seen)
    }

    /** The whole reply has been read: its object is complete and the parser finds the same. */
    ghost predicate Finished()
      reads this
    {
      && err.None? && pos <= |buf| && ridx == -1
      && ReplyRead(cfg, arena, seen)
    }

    /** Pops every aggregate whose last slot has been filled, then turns to the next slot. */
    method MoveToNextTask(ghost top: nat)
      requires Complete(top) && (ridx > 0 ==> reply == Some(0))
      modifies this`task, this`ridx
      ensures |task| == |old(task)|
      ensures ridx >= 0 ==> Busy()
      ensures ridx < 0 ==> Finished()
    {
      ghost var o := top;
      while ridx > 0 && task[ridx].idx == task[ridx - 1].elements - 1
        invariant ridx >= 0 && Complete(o) && (ridx > 0 ==> reply == Some(0))
        invariant task == old(task)
        decreases ridx
      {
        ParentIsRead(cfg, arena, task, ridx, o, seen);
        o := task[ridx - 1].obj.value;
        ridx := ridx - 1;
      }
      if ridx == 0 {
        ReplyIsRead(cfg, arena, task, o, seen);
        ridx := -1;
      } else {
        NextIsInProgress(cfg, arena, task, ridx, o, seen);
        var cur := task[ridx];
        task := task[ridx := cur.(typ := None, elements := -1, idx := cur.idx + 1)];
      }
    }

    /** An object that is complete when created, and the reply it stands for. */
    static ghost predicate Denotes(node: Node, v: Reply) {
      match node
      case Leaf(r) => r == v
      case Branch(k, el) => el == [] && v == AggregateReply(k, [])
    }

    /**
     * What processing the current item may do: report the parser's fault,
     * stop for lack of bytes, move on within the reply, or finish it.
     */
    ghost predicate Stepped(ok: bool, pending: seq<byte>, was: seq<byte>, from: nat)
      reads this
    {
      && (err.Some? ==> !ok && Valid() && ParseItem(cfg, pending) == Fail(err.value))
      && (err.None? ==> buf == was && from <= pos <= |buf| && Pending() == pending && (ok ==> from < pos))
      && (err.None? && ridx >= 0 ==> Busy() && (!ok ==> ParseItem(cfg, pending) == More))
      && (err.None? && ridx < 0 ==> ok && Finished() && reply == Some(0) && |task| > 0)
    }

    /** The completed item, once placed, is what the bytes `c` at the cursor say. */
    lemma EmitCompletes(node: Node, c: seq<byte>, v: Reply)
      requires Busy() && task[ridx].typ.Some?
      requires ParseTyped(cfg, task[ridx].typ.value, c) == Done(v, [])
      requires Denotes(node, v)
      ensures var arena' := Placed(arena, ParentObj(task, ridx), task[ridx].idx, node);
              ItemRead(cfg, arena', task, ridx, |arena|, seen + c)
    {
      TracksRead(cfg, Frames(arena, task, ridx, None), task[ridx].typ.value, seen, c, v);
      PlaceComplete(arena, task, ridx, node);
    }

    /** Creates the object of a completed item and consumes its `n` bytes. */
    method PlaceItem(node: Node, n: nat, ghost v: Reply) returns (id: nat)
      requires Busy() && 0 < n <= |buf| - pos
      requires task[ridx].typ.Some?
      requires ParseTyped(cfg, task[ridx].typ.value, buf[pos..][..n]) == Done(v, [])
      requires Denotes(node, v)
      modifies this`arena, this`pos, this`seen, this`reply
      ensures Complete(id) && reply == Some(0)
      ensures pos == old(pos) + n && Pending() == old(Pending())
    {
      ghost var c := buf[pos..][..n];
      EmitCompletes(node, c, v);
      ConsumeBytes(seen, buf, pos, n);
      id := Create(node);
      pos := pos + n;
      seen := seen + c;
      if ridx == 0 {
        reply := Some(id);
      }
    }

    /** ... and moves on. */
    method Emit(node: Node, n: nat, ghost v: Reply)
      requires Busy() && 0 < n <= |buf| - pos
      requires task[ridx].typ.Some?
      requires ParseTyped(cfg, task[ridx].typ.value, buf[pos..][..n]) == Done(v, [])
      requires Denotes(node, v)
      modifies this
      ensures Stepped(true, old(Pending()), old(buf), old(pos))
      ensures err.None? && |task| == |old(task)|
    {
      var id := PlaceItem(node, n, v);
      MoveToNextTask(id);
    }

    /** readLine() without moving the cursor: the length of the line at the cursor. */
    method PeekLine() returns (len: Option<nat>)
      requires pos <= |buf|
      ensures len == Newline(buf[pos..])
    {
      len := SeekNewline(buf[pos..]);
    }

    /** What the tracked item comes to on the bytes at hand. */
    lemma Outcome()
      requires Busy() && task[ridx].typ.Some?
      ensures var p := ParseTyped(cfg, task[ridx].typ.value, buf[pos..]);
              && (p.More? ==> ParseItem(cfg, Pending()) == More)
              && (p.Fail? ==> ParseItem(cfg, Pending()) == Fail(p.fault))
    {
      assert Meaning(cfg, Frames(arena, task, ridx, None), task[ridx].typ, buf[pos..]) == ParseItem(cfg, Pending());
    }

    /** The checks of processLineItem() on the text of a line. */
    method CheckLine(kind: Kind, line: seq<byte>) returns (r: Checked)
      requires kind.IsLine()
      ensures r == LineItem(cfg, kind, line)
    {
      var len := |line|;
      if kind == Integer {
        var v := String2ll(line);
        return if v.None? then Bad(BadInteger) else Good(IntegerReply(v.value));
      } else if kind == Double {
        if len >= 326 { return Bad(DoubleTooLarge); }
        if IsInfinity(line) { return Good(TextReply(Double, line)); }
        if len == 0 || line[0] == 0 || !cfg.isFinite(line) { return Bad(BadDouble); }
        return Good(TextReply(Double, line));
      } else if kind == Nil {
        return if len != 0 then Bad(BadNil) else Good(NilReply);
      } else if kind == Bool {
        if len != 1 || !BoolByte(line[0]) { return Bad(BadBool); }
        return Good(BoolReply(line[0] == 116 || line[0] == 84));
      } else if kind == Bignum {
        for i := 0 to len
          invariant forall j :: 0 <= j < i ==> IsDigit(line[j]) || (j == 0 && line[0] == MINUS)
        {
          if i == 0 && line[0] == 45 { continue; }
          if line[i] < 48 || line[i] > 57 { return Bad(BadBignum); }
        }
        return Good(TextReply(kind, line));
      } else {
        for i := 0 to len
          invariant forall j :: 0 <= j < i ==> line[j] != CR && line[j] != LF
        {
          if line[i] == CR || line[i] == LF { return Bad(BadSimpleString); }
        }
        return Good(TextReply(kind, line));
      }
    }

    method ProcessLineItem() returns (ok: bool)
      requires Busy() && task[ridx].typ.Some? && task[ridx].typ.value.IsLine()
      modifies this
      ensures Stepped(ok, old(Pending()), old(buf), old(pos))
    {
      Outcome();
      var kind := task[ridx].typ.value;
      var len := PeekLine();
      if len.None? { return false; }
      var r := CheckLine(kind, buf[pos..][..len.value]);
      if r.Bad? {
        SetError(r.fault);
        return false;
      }
      LineConsumed(cfg, kind, buf[pos..], r.reply);
      Emit(Leaf(r.reply), len.value + 2, r.reply);
      return true;
    }

    /** The part of processBulkItem() after a valid length `len` >= 0 has been read. */
    method ProcessPayload(kind: Kind, start: nat, len: nat) returns (ok: bool)
      requires Busy() && task[ridx].typ == Some(kind) && kind.IsBulk()
      requires Newline(buf[pos..]) == Some(start) && IntOf(buf[pos..][..start]) == Some(len)
      modifies this
      ensures Stepped(ok, old(Pending()), old(buf), old(pos))
    {
      Outcome();
      var bytelen := start + 2 + len + 2;
      if pos + bytelen > |buf| { return false; }
      var payload := buf[pos..][start + 2..start + 2 + len];
      var r := BulkItem(kind, payload);
      if r.Bad? {
        SetError(r.fault);
        return false;
      }
      BulkConsumed(kind, buf[pos..], bytelen, r.reply);
      Emit(Leaf(r.reply), bytelen, r.reply);
      return true;
    }

    method ProcessBulkItem() returns (ok: bool)
      requires Busy() && task[ridx].typ.Some? && task[ridx].typ.value.IsBulk()
      modifies this
      ensures Stepped(ok, old(Pending()), old(buf), old(pos))
    {
      Outcome();
      var kind := task[ridx].typ.value;
      var s := PeekLine();
      if s.None? { return false; }
      var len := String2ll(buf[pos..][..s.value]);
      if len.None? {
        SetError(BadBulkLength);
        return false;
      }
      if len.value < -1 {
        SetError(BulkLengthOutOfRange);
        return false;
      }
      if len.value == -1 {
        BulkConsumed(kind, buf[pos..], s.value + 2, NilReply);
        Emit(Leaf(NilReply), s.value + 2, NilReply);
        return true;
      }
      ok := ProcessPayload(kind, s.value, len.value);
    }

    /** Makes room for more nested tasks. */
    method Grow()
      requires Busy()
      modifies this`task
      ensures Busy() && |task| == |old(task)| + REDIS_READER_STACK_SIZE && task[..|old(task)|] == old(task)
    {
      ghost var before := task;
      task := task + seq(REDIS_READER_STACK_SIZE, _ => Task(None, 0, 0, None, None));
      MoreRoom(arena, before, task, ridx, None);
    }

    /** What opening an aggregate with header `c` and `n` elements leads to. */
    lemma PushTracks(kind: Kind, n: nat, c: seq<byte>)
      requires Busy() && task[ridx].typ == Some(kind) && kind.IsAggregate() && ridx + 1 < |task|
      requires n > 0 && ParseHeader(cfg, kind, c) == Done(n, [])
      ensures var arena' := Placed(arena, ParentObj(task, ridx), task[ridx].idx, Branch(kind, EmptySlots(n)));
              var task' := Pushed(task, ridx, n, |arena|);
              InProgress(cfg, arena', task', ridx + 1, seen + c) && task'[ridx + 1].typ.None?
    {
      TracksOpened(cfg, Frames(arena, task, ridx, None), kind, seen, c, n);
      PlaceOpen(arena, task, ridx, kind, n);
    }

    /** Creates the object of a nonempty aggregate and consumes its header. */
    method PlaceAggregate(kind: Kind, n: nat, len: nat) returns (id: nat)
      requires Busy() && len + 2 <= |buf| - pos
      modifies this`arena, this`pos, this`seen, this`reply
      ensures id == |old(arena)| && reply == Some(0)
      ensures arena == Placed(old(arena), ParentObj(task, ridx), task[ridx].idx, Branch(kind, EmptySlots(n)))
      ensures seen == old(seen) + old(buf[pos..])[..len + 2] && pos == old(pos) + len + 2
      ensures Pending() == old(Pending())
    {
      ghost var c := buf[pos..][..len + 2];
      ConsumeBytes(seen, buf, pos, len + 2);
      id := Create(Branch(kind, EmptySlots(n)));
      pos := pos + (len + 2);
      seen := seen + c;
      if ridx == 0 {
        reply := Some(id);
      }
    }

    /** Opens a nonempty aggregate and pushes a task for its first element. */
    method Push(kind: Kind, n: nat, len: nat)
      requires Busy() && task[ridx].typ == Some(kind) && kind.IsAggregate() && ridx + 1 < |task|
      requires n > 0 && len + 2 <= |buf| - pos
      requires ParseHeader(cfg, kind, buf[pos..][..len + 2]) == Done(n, [])
      modifies this
      ensures Stepped(true, old(Pending()), old(buf), old(pos)) && err.None? && ridx > 0
    {
      PushTracks(kind, n, buf[pos..][..len + 2]);
      ghost var pushed := Pushed(task, ridx, n, |arena|);
      var id := PlaceAggregate(kind, n, len);
      assert InProgress(cfg, arena, pushed, ridx + 1, seen);
      task := task[ridx := task[ridx].(elements := n, obj := Some(id))]
                  [ridx + 1 := Task(None, -1, 0, None, Some(ridx))];
      ridx := ridx + 1;
    }

    /** The part of processAggregateItem() after a valid element count has been read. */
    method BeginAggregate(kind: Kind, n: int, len: nat)
      requires Busy() && task[ridx].typ == Some(kind) && kind.IsAggregate() && ridx + 1 < |task|
      requires n >= -1 && len + 2 <= |buf| - pos
      requires ParseHeader(cfg, kind, buf[pos..][..len + 2]) == Done(n, [])
      modifies this
      ensures Stepped(true, old(Pending()), old(buf), old(pos))
    {
      if n <= 0 {
        HeaderAlone(cfg, kind, buf[pos..][..len + 2], n);
      }
      if n == -1 {
        Emit(Leaf(NilReply), len + 2, NilReply);
      } else if n == 0 {
        Emit(Branch(kind, []), len + 2, AggregateReply(kind, []));
      } else {
        Push(kind, n, len);
      }
    }

    method ProcessAggregateItem() returns (ok: bool)
      requires Busy() && task[ridx].typ.Some? && task[ridx].typ.value.IsAggregate()
      modifies this
      ensures Stepped(ok, old(Pending()), old(buf), old(pos))
    {
      if ridx == |task| - 1 {
        Grow();
      }
      ok := ReadHeader();
    }

    lemma HeaderOutcome(kind: Kind)
      requires Busy() && task[ridx].typ == Some(kind) && kind.IsAggregate()
      ensures var p := ParseHeader(cfg, kind, buf[pos..]);
              && (p.More? ==> ParseItem(cfg, Pending()) == More)
              && (p.Fail? ==> ParseItem(cfg, Pending()) == Fail(p.fault))
    {
      Outcome();
    }

    /** The part of processAggregateItem() after the stack has room for one more task. */
    method ReadHeader() returns (ok: bool)
      requires Busy() && task[ridx].typ.Some? && task[ridx].typ.value.IsAggregate() && ridx + 1 < |task|
      modifies this
      ensures Stepped(ok, old(Pending()), old(buf), old(pos))
    {
      var kind := task[ridx].typ.value;
      HeaderOutcome(kind);
      var len := PeekLine();
      if len.None? { return false; }
      var elements := String2ll(buf[pos..][..len.value]);
      if elements.None? {
        SetError(BadMultiBulkLength);
        return false;
      }
      if elements.value < -1 || (cfg.maxElements > 0 && elements.value > cfg.maxElements) {
        SetError(MultiBulkLengthOutOfRange);
        return false;
      }
      var n := if elements.value >= 0 && kind == Map then elements.value * 2 else elements.value;
      HeaderConsumed(cfg, kind, buf[pos..], n);
      BeginAggregate(kind, n, len.value);
      return true;
    }

    method ProcessItem() returns (ok: bool)
      requires Busy()
      modifies this
      ensures Stepped(ok, old(Pending()), old(buf), old(pos))
    {
      assert Meaning(cfg, Frames(arena, task, ridx, None), task[ridx].typ, buf[pos..]) == ParseItem(cfg, Pending());
      if task[ridx].typ.None? {
        if pos == |buf| { return false; }
        var p := buf[pos];
        var kind := KindOf(p);
        if kind.None? {
          SetError(BadTypeByte(p));
          return false;
        }
        SetType(kind.value);
      }
      var kind := task[ridx].typ.value;
      if kind.IsLine() {
        ok := ProcessLineItem();
      } else if kind.IsBulk() {
        ok := ProcessBulkItem();
      } else {
        ok := ProcessAggregateItem();
      }
    }

    /** Consumes the type byte of the current item. */
    method SetType(kind: Kind)
      requires Busy() && task[ridx].typ.None? && pos < |buf| && KindOf(buf[pos]) == Some(kind)
      modifies this`task, this`pos, this`seen
      ensures Busy() && task[ridx].typ == Some(kind)
      ensures pos == old(pos) + 1 && Pending() == old(Pending())
    {
      ghost var before, b := task, buf[pos];
      TracksTyped(cfg, Frames(arena, task, ridx, None), seen, b);
      assert (seen + [b]) + buf[pos + 1..] == Pending();
      task := task[ridx := task[ridx].(typ := Some(kind))];
      TypeIsNoPart(arena, before, task, ridx);
      pos := pos + 1;
      seen := seen + [b];
    }

    /**
     * Appends bytes to the buffer. `avail` is the spare capacity of the
     * buffer; an empty buffer with too much of it is replaced.
     */
    method Feed(chunk: seq<byte>, avail: nat) returns (ok: bool)
      requires Valid()
      modifies this
      ensures Valid() && err == old(err) && ok == err.None?
      ensures ok ==> Pending() == old(Pending()) + chunk
    {
      if err.Some? { return false; }
      if |chunk| >= 1 {
        if |buf| == 0 && avail > REDIS_READER_MAX_BUF {
          buf, pos := [], 0;
        }
        AppendBytes(seen, buf, pos, chunk);
        buf := buf + chunk;
      } else {
        assert Pending() + chunk == Pending();
      }
      return true;
    }

    /** The loop of redisReaderGetReply(): processes items until the reply is complete or bytes run out. */
    method ProcessItems()
      requires Busy()
      modifies this
      ensures err.None? ==> buf == old(buf) && pos <= |buf| && Pending() == old(Pending())
      ensures err.Some? ==> Valid() && ParseItem(cfg, old(Pending())) == Fail(err.value)
      ensures err.None? && ridx >= 0 ==> Busy() && ParseItem(cfg, old(Pending())) == More
      ensures err.None? && ridx < 0 ==> Finished() && reply == Some(0) && |task| > 0
    {
      var ok := true;
      while ridx >= 0 && ok
        invariant ok ==> err.None?
        invariant err.None? ==> buf == old(buf) && pos <= |buf| && Pending() == old(Pending())
        invariant err.Some? ==> Valid() && ParseItem(cfg, old(Pending())) == Fail(err.value)
        invariant err.None? && ridx >= 0 ==> Busy() && (!ok ==> ParseItem(cfg, old(Pending())) == More)
        invariant err.None? && ridx < 0 ==> Finished() && reply == Some(0) && |task| > 0
        decreases ok, |buf| - pos
      {
        ok := ProcessItem();
      }
    }

    /** Sets the first item to process when the stack is empty. */
    method StartItem()
      requires Valid() && err.None? && ridx == -1
      modifies this`task, this`ridx
      ensures Busy() && Pending() == old(Pending())
    {
      task := task[0 := Task(None, -1, -1, None, None)];
      ridx := 0;
      TracksStart(cfg);
    }

    /** Drops consumed bytes once there are at least 1024 of them. */
    method DiscardConsumed()
      requires pos <= |buf|
      modifies this`buf, this`pos
      ensures pos <= |buf| && buf[pos..] == old(buf[pos..])
    {
      if pos >= 1024 {
        SdsRangeDropsPrefix(buf, pos);
        buf := SdsRange(buf, pos, -1);
        pos := 0;
      }
    }

    /** Hands over the completed reply. */
    method TakeReply() returns (v: Reply)
      requires Finished() && |task| > 0
      modifies this`reply, this`arena, this`seen
      ensures Valid() && err.None?
      ensures ParseItem(cfg, old(Pending())) == Done(v, Pending())
    {
      v := Tree(arena, 0, |arena|);
      assert ParseItem(cfg, seen + buf[pos..]) == Done(v, buf[pos..]);
      reply, arena, seen := None, [], [];
    }

    /**
     * The next reply. Whatever way the bytes arrived in, the outcome is the
     * parser's on everything pending: nothing yet, a fault that stays, or a
     * reply, with the bytes after it still pending.
     */
    method GetReply() returns (ok: bool, r: Option<Reply>)
      requires Valid()
      modifies this
      ensures Valid()
      ensures old(err).Some? ==> !ok && r.None? && err == old(err)
      ensures old(err).None? ==>
                match ParseItem(cfg, old(Pending()))
                case More => ok && r.None? && err.None? && Pending() == old(Pending())
                case Fail(e) => !ok && r.None? && err == Some(e)
                case Done(v, rest) => ok && r == Some(v) && err.None? && Pending() == rest
    {
      if err.Some? { return false, None; }
      if |buf| == 0 {
        NothingPending();
        return true, None;
      }
      if ridx == -1 {
        StartItem();
      }
      ProcessItems();
      if err.Some? { return false, None; }
      DiscardConsumed();
      if ridx == -1 {
        var v := TakeReply();
        return true, Some(v);
      }
      return true, None;
    }

    lemma NothingPending()
      requires Valid() && err.None? && buf == []
      ensures ParseItem(cfg, Pending()) == More
    {
      if ridx >= 0 {
        assert Meaning(cfg, Frames(arena, task, ridx, None), task[ridx].typ, []) == ParseItem(cfg, seen + []);
      }
    }
  }
}
