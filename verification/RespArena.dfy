/**
 * The reply objects of hiredis.c and the reader's task stack of read.h, as
 * values: objects live in an arena in order of creation and refer to each
 * other by index, an aggregate object is linked into its parent when it is
 * created and its slots are filled afterwards.
 */
module RespArena {
  import opened Bytes
  import opened Resp

  datatype Node = Leaf(reply: Reply) | Branch(kind: Kind, element: seq<Option<nat>>)

  /** `idx` is the slot in the parent, `parent` the index of the parent task. */
  datatype Task = Task(typ: Option<Kind>, elements: int, idx: int, obj: Option<nat>, parent: Option<nat>)

  /** Every declared slot below `id` is filled, with objects in [id, hi). */
  ghost predicate Full(arena: seq<Node>, id: nat, hi: nat)
    decreases hi - id
  {
    && id < hi <= |arena|
    && match arena[id]
       case Leaf(_) => true
       case Branch(_, el) => forall j :: 0 <= j < |el| ==> FullSlot(arena, el[j], id, hi)
  }

  ghost predicate FullSlot(arena: seq<Node>, slot: Option<nat>, lo: nat, hi: nat)
    decreases hi - lo, 0
  {
    slot.Some? && lo < slot.value < hi && Full(arena, slot.value, hi)
  }

  /** The reply an object stands for. */
  function Tree(arena: seq<Node>, id: nat, hi: nat): Reply
    requires Full(arena, id, hi)
    decreases hi - id
  {
    match arena[id]
    case Leaf(v) => v
    case Branch(k, el) => AggregateReply(k, Trees(arena, el, |el|, id, hi))
  }

  /** The replies in the first `n` slots. */
  function Trees(arena: seq<Node>, el: seq<Option<nat>>, n: nat, lo: nat, hi: nat): (vs: seq<Reply>)
    requires n <= |el| && forall j :: 0 <= j < n ==> FullSlot(arena, el[j], lo, hi)
    ensures |vs| == n
    decreases hi - lo, 0, n
  {
    if n == 0 then []
    else
      assert FullSlot(arena, el[n - 1], lo, hi);
      Trees(arena, el, n - 1, lo, hi) + [Tree(arena, el[n - 1].value, hi)]
  }

  /** An object and its tree depend only on the stretch of the arena they occupy. */
  lemma {:induction false} SameTree(a: seq<Node>, b: seq<Node>, id: nat, hi: nat, hi': nat)
    requires Full(a, id, hi) && hi <= hi' <= |b|
    requires a[id..hi] == b[id..hi]
    ensures Full(b, id, hi') && Tree(b, id, hi') == Tree(a, id, hi)
    decreases hi - id
  {
    assert a[id] == a[id..hi][0] == b[id];
    assert a[id + 1..hi] == a[id..hi][1..] == b[id + 1..hi];
    if a[id].Branch? {
      SameTrees(a, b, a[id].element, a[id].element, |a[id].element|, id, hi, hi');
    }
  }

  lemma {:induction false} SameTrees(a: seq<Node>, b: seq<Node>, el: seq<Option<nat>>, el': seq<Option<nat>>,
                                     n: nat, lo: nat, hi: nat, hi': nat)
    requires lo < hi <= hi' <= |b| && hi <= |a|
    requires n <= |el| && n <= |el'| && forall j :: 0 <= j < n ==> el[j] == el'[j]
    requires forall j :: 0 <= j < n ==> FullSlot(a, el[j], lo, hi)
    requires a[lo + 1..hi] == b[lo + 1..hi]
    ensures forall j :: 0 <= j < n ==> FullSlot(b, el'[j], lo, hi')
    ensures Trees(b, el', n, lo, hi') == Trees(a, el, n, lo, hi)
    decreases hi - lo, 0, n
  {
    if n > 0 {
      SameTrees(a, b, el, el', n - 1, lo, hi, hi');
      assert FullSlot(a, el[n - 1], lo, hi);
      var c := el[n - 1].value;
      assert a[c..hi] == a[lo + 1..hi][c - lo - 1..] == b[lo + 1..hi][c - lo - 1..] == b[c..hi];
      SameTree(a, b, c, hi, hi');
      assert FullSlot(b, el'[n - 1], lo, hi');
    }
  }

  // ---- The task stack ----

  /** Where the slots filled so far of an aggregate end: at its current child, if that exists. */
  function Limit(arena: seq<Node>, child: Option<nat>): nat {
    if child.Some? then child.value else |arena|
  }

  /**
   * Task `t` is an aggregate in progress and `c` the task of its current
   * child, whose object, if already created, is `child`: the slots before the
   * child's are filled, the ones after it are not.
   */
  ghost predicate OpenTask(arena: seq<Node>, t: Task, c: Task, child: Option<nat>) {
    && t.typ.Some? && t.typ.value.IsAggregate() && t.obj.Some?
    && t.obj.value < Limit(arena, child) <= |arena|
    && var node := arena[t.obj.value];
    && node.Branch? && node.kind == t.typ.value && |node.element| == t.elements
    && 0 <= c.idx < t.elements
    && (forall j :: 0 <= j < c.idx ==> FullSlot(arena, node.element[j], t.obj.value, Limit(arena, child)))
    && node.element[c.idx] == child
    && (forall j :: c.idx < j < t.elements ==> node.element[j].None?)
  }

  ghost function FrameOf(arena: seq<Node>, t: Task, c: Task, child: Option<nat>): (f: Frame)
    requires OpenTask(arena, t, c, child)
    ensures |f.done| < f.total
  {
    Frame(t.typ.value, t.elements,
          Trees(arena, arena[t.obj.value].element, c.idx, t.obj.value, Limit(arena, child)))
  }

  /**
   * Tasks 0 to k - 1 are aggregates in progress, each inside the one below
   * it; task `k` reads the current child of the last of them and `child` is
   * the object of that child.
   */
  ghost predicate Nested(arena: seq<Node>, tasks: seq<Task>, k: nat, child: Option<nat>)
    decreases k
  {
    && k < |tasks|
    && if k == 0 then
         && tasks[0].parent.None? && tasks[0].idx == -1
         && (if child.Some? then child.value == 0 else arena == [])
       else
         && tasks[k].parent == Some(k - 1)
         && OpenTask(arena, tasks[k - 1], tasks[k], child)
         && Nested(arena, tasks, k - 1, tasks[k - 1].obj)
  }

  ghost function Frames(arena: seq<Node>, tasks: seq<Task>, k: nat, child: Option<nat>): (fs: seq<Frame>)
    requires Nested(arena, tasks, k, child)
    ensures |fs| == k && Open(fs)
    decreases k
  {
    if k == 0 then []
    else Frames(arena, tasks, k - 1, tasks[k - 1].obj) + [FrameOf(arena, tasks[k - 1], tasks[k], child)]
  }

  lemma SameOpen(a: seq<Node>, b: seq<Node>, t: Task, c: Task, c': Task, o: nat)
    requires OpenTask(a, t, c, Some(o)) && o <= |a| && o <= |b| && a[..o] == b[..o] && c'.idx == c.idx
    ensures OpenTask(b, t, c', Some(o)) && FrameOf(b, t, c', Some(o)) == FrameOf(a, t, c, Some(o))
  {
    var p := t.obj.value;
    assert a[p] == a[..o][p] == b[p];
    assert a[p + 1..o] == a[..o][p + 1..] == b[p + 1..o];
    SameTrees(a, b, a[p].element, b[p].element, c.idx, p, o, o);
  }

  /** Enclosing aggregates live entirely below the object of the item inside them. */
  lemma {:induction false} SameNesting(a: seq<Node>, b: seq<Node>, tasks: seq<Task>, tasks': seq<Task>, k: nat, o: nat)
    requires Nested(a, tasks, k, Some(o)) && o <= |a| && o <= |b| && a[..o] == b[..o]
    requires k < |tasks'| && tasks[..k] == tasks'[..k]
    requires tasks'[k].idx == tasks[k].idx && tasks'[k].parent == tasks[k].parent
    ensures Nested(b, tasks', k, Some(o)) && Frames(b, tasks', k, Some(o)) == Frames(a, tasks, k, Some(o))
    decreases k
  {
    if k > 0 {
      var t := tasks[k - 1];
      assert t == tasks[..k][k - 1] == tasks'[k - 1];
      SameOpen(a, b, t, tasks[k], tasks'[k], o);
      var p := t.obj.value;
      assert a[..p] == a[..o][..p] == b[..p];
      assert tasks[..k - 1] == tasks[..k][..k - 1] == tasks'[..k - 1];
      SameNesting(a, b, tasks, tasks', k - 1, p);
    }
  }

  /** Well-formed task stack; `top` is a completed innermost object, or None before it is created. */
  ghost predicate Stack(arena: seq<Node>, tasks: seq<Task>, ridx: nat, top: Option<nat>) {
    Nested(arena, tasks, ridx, top) && (top.Some? ==> Full(arena, top.value, |arena|))
  }

  // ---- Creating an object and placing it in its parent ----

  /** A new object, stored in slot `idx` of the parent object if there is one. */
  function Placed(arena: seq<Node>, parent: Option<nat>, idx: int, node: Node): seq<Node>
    requires parent.Some? ==> parent.value < |arena| && arena[parent.value].Branch?
                              && 0 <= idx < |arena[parent.value].element|
  {
    if parent.None? then arena + [node]
    else
      var p := arena[parent.value];
      arena[parent.value := Branch(p.kind, p.element[idx := Some(|arena|)])] + [node]
  }

  /** The zeroed element array of a new aggregate. */
  function EmptySlots(n: nat): (el: seq<Option<nat>>)
    ensures |el| == n && forall j :: 0 <= j < n ==> el[j].None?
  {
    seq(n, _ => None)
  }

  /** The object of the parent task. */
  function ParentObj(tasks: seq<Task>, ridx: nat): Option<nat>
    requires ridx < |tasks|
  {
    if ridx > 0 then tasks[ridx - 1].obj else None
  }

  /** The parent's earlier slots are untouched when the current one is filled. */
  lemma PlacedInParent(arena: seq<Node>, t: Task, c: Task, node: Node)
    requires OpenTask(arena, t, c, None)
    ensures var arena' := Placed(arena, t.obj, c.idx, node);
            && OpenTask(arena', t, c, Some(|arena|))
            && FrameOf(arena', t, c, Some(|arena|)) == FrameOf(arena, t, c, None)
            && arena'[..t.obj.value] == arena[..t.obj.value]
            && |arena'| == |arena| + 1 && arena'[|arena|] == node
  {
    var arena' := Placed(arena, t.obj, c.idx, node);
    var p, n := t.obj.value, |arena|;
    assert arena'[p + 1..n] == arena[p + 1..n];
    SameTrees(arena, arena', arena[p].element, arena'[p].element, c.idx, p, n, n);
  }

  /** Placing an object disturbs no enclosing aggregate. */
  lemma PlacedNesting(arena: seq<Node>, tasks: seq<Task>, ridx: nat, node: Node)
    requires Nested(arena, tasks, ridx, None)
    ensures var arena' := Placed(arena, ParentObj(tasks, ridx), tasks[ridx].idx, node);
            && Nested(arena', tasks, ridx, Some(|arena|))
            && Frames(arena', tasks, ridx, Some(|arena|)) == Frames(arena, tasks, ridx, None)
            && |arena'| == |arena| + 1 && arena'[|arena|] == node
  {
    if ridx > 0 {
      var arena' := Placed(arena, tasks[ridx - 1].obj, tasks[ridx].idx, node);
      PlacedInParent(arena, tasks[ridx - 1], tasks[ridx], node);
      SameNesting(arena, arena', tasks, tasks, ridx - 1, tasks[ridx - 1].obj.value);
    }
  }

  /** A leaf or an empty aggregate is complete as soon as it is created. */
  lemma PlaceComplete(arena: seq<Node>, tasks: seq<Task>, ridx: nat, node: Node)
    requires Nested(arena, tasks, ridx, None)
    requires node.Leaf? || node.element == []
    ensures var arena' := Placed(arena, ParentObj(tasks, ridx), tasks[ridx].idx, node);
            && Stack(arena', tasks, ridx, Some(|arena|))
            && Frames(arena', tasks, ridx, Some(|arena|)) == Frames(arena, tasks, ridx, None)
            && Tree(arena', |arena|, |arena'|)
               == (if node.Leaf? then node.reply else AggregateReply(node.kind, []))
  {
    PlacedNesting(arena, tasks, ridx, node);
  }

  /** The stack after a nonempty aggregate with object `id` has been opened at task `ridx`. */
  function Pushed(tasks: seq<Task>, ridx: nat, n: nat, id: nat): seq<Task>
    requires ridx + 1 < |tasks|
  {
    tasks[ridx := tasks[ridx].(elements := n, obj := Some(id))]
         [ridx + 1 := Task(None, -1, 0, None, Some(ridx))]
  }

  lemma PlaceOpen(arena: seq<Node>, tasks: seq<Task>, ridx: nat, kind: Kind, n: nat)
    requires Nested(arena, tasks, ridx, None)
    requires ridx + 1 < |tasks| && n > 0 && kind.IsAggregate() && tasks[ridx].typ == Some(kind)
    ensures var node := Branch(kind, EmptySlots(n));
            var arena' := Placed(arena, ParentObj(tasks, ridx), tasks[ridx].idx, node);
            && Stack(arena', Pushed(tasks, ridx, n, |arena|), ridx + 1, None)
            && Frames(arena', Pushed(tasks, ridx, n, |arena|), ridx + 1, None)
               == Frames(arena, tasks, ridx, None) + [Frame(kind, n, [])]
  {
    var node := Branch(kind, EmptySlots(n));
    var tasks' := Pushed(tasks, ridx, n, |arena|);
    var arena' := Placed(arena, ParentObj(tasks, ridx), tasks[ridx].idx, node);
    PlacedNesting(arena, tasks, ridx, node);
    SameNesting(arena', arena', tasks, tasks', ridx, |arena|);
    assert OpenTask(arena', tasks'[ridx], tasks'[ridx + 1], None);
  }

  // ---- Moving on after an item ----

  /** When the innermost item sits in the last slot, its parent is complete. */
  lemma PopTask(arena: seq<Node>, tasks: seq<Task>, ridx: nat, top: nat)
    requires Stack(arena, tasks, ridx, Some(top)) && ridx > 0
    requires tasks[ridx].idx == tasks[ridx - 1].elements - 1
    ensures var fs := Frames(arena, tasks, ridx, Some(top));
            var parent := tasks[ridx - 1].obj;
            && Stack(arena, tasks, ridx - 1, parent)
            && Frames(arena, tasks, ridx - 1, parent) == fs[..ridx - 1]
            && |fs[ridx - 1].done| + 1 == fs[ridx - 1].total
            && parent.Some?
            && Tree(arena, parent.value, |arena|) == Completed(fs[ridx - 1], Tree(arena, top, |arena|))
  {
    var o, n := tasks[ridx - 1].obj.value, tasks[ridx].idx;
    var el := arena[o].element;
    SameTrees(arena, arena, el, el, n, o, top, |arena|);
    assert FullSlot(arena, el[n], o, |arena|);
    assert Trees(arena, el, n + 1, o, |arena|) == Trees(arena, el, n, o, |arena|) + [Tree(arena, top, |arena|)];
  }

  function Advanced(tasks: seq<Task>, ridx: nat): seq<Task>
    requires ridx < |tasks|
  {
    tasks[ridx := tasks[ridx].(typ := None, elements := -1, idx := tasks[ridx].idx + 1)]
  }

  /** Otherwise the task turns to the next slot. */
  lemma AdvanceTask(arena: seq<Node>, tasks: seq<Task>, ridx: nat, top: nat)
    requires Stack(arena, tasks, ridx, Some(top)) && ridx > 0
    requires tasks[ridx].idx != tasks[ridx - 1].elements - 1
    ensures var fs := Frames(arena, tasks, ridx, Some(top));
            && Stack(arena, Advanced(tasks, ridx), ridx, None)
            && Frames(arena, Advanced(tasks, ridx), ridx, None) == Filled(fs, Tree(arena, top, |arena|))
            && |fs[ridx - 1].done| + 1 < fs[ridx - 1].total
  {
    var o, n := tasks[ridx - 1].obj.value, tasks[ridx].idx;
    var el, tasks' := arena[o].element, Advanced(tasks, ridx);
    SameTrees(arena, arena, el, el, n, o, top, |arena|);
    assert FullSlot(arena, el[n], o, |arena|);
    SameNesting(arena, arena, tasks, tasks', ridx - 1, o);
    assert OpenTask(arena, tasks'[ridx - 1], tasks'[ridx], None);
    assert Trees(arena, el, n + 1, o, |arena|) == Trees(arena, el, n, o, |arena|) + [Tree(arena, top, |arena|)];
  }

  // ---- What the stack does not depend on ----

  lemma {:induction false} MoreRoom(arena: seq<Node>, tasks: seq<Task>, tasks': seq<Task>, k: nat, child: Option<nat>)
    requires Nested(arena, tasks, k, child) && tasks <= tasks'
    ensures Nested(arena, tasks', k, child) && Frames(arena, tasks', k, child) == Frames(arena, tasks, k, child)
    ensures tasks'[k] == tasks[k]
    decreases k
  {
    if k > 0 {
      MoreRoom(arena, tasks, tasks', k - 1, tasks[k - 1].obj);
    }
  }

  lemma TypeIsNoPart(arena: seq<Node>, tasks: seq<Task>, tasks': seq<Task>, k: nat)
    requires Nested(arena, tasks, k, None) && |tasks'| == |tasks| && tasks'[..k] == tasks[..k]
    requires tasks'[k].idx == tasks[k].idx && tasks'[k].parent == tasks[k].parent
    ensures Nested(arena, tasks', k, None) && Frames(arena, tasks', k, None) == Frames(arena, tasks, k, None)
  {
    if k > 0 {
      assert tasks'[k - 1] == tasks'[..k][k - 1] == tasks[k - 1];
      assert tasks'[..k - 1] == tasks'[..k][..k - 1] == tasks[..k - 1];
      assert OpenTask(arena, tasks'[k - 1], tasks'[k], None);
      assert FrameOf(arena, tasks'[k - 1], tasks'[k], None) == FrameOf(arena, tasks[k - 1], tasks[k], None);
      SameNesting(arena, arena, tasks, tasks', k - 1, tasks[k - 1].obj.value);
    }
  }
}
