/**
 * The singly linked list of callbacks with a head and a tail pointer.
 */
module CallbackList {
  import opened AsyncContext
  import opened Bytes

  class Cell {
    var cb: Callback
    var next: Cell?

    constructor (cb: Callback)
      ensures this.cb == cb && next == null
    {
      this.cb, next := cb, null;
    }
  }

  function Successor(cells: seq<Cell>, i: nat): Cell? {
    if i + 1 < |cells| then cells[i + 1] else null
  }

  class List {
    var head: Cell?
    var tail: Cell?

    ghost var cells: seq<Cell>
    /** The callbacks in the list, first in line first. */
    ghost var contents: seq<Callback>

    ghost predicate Valid()
      reads this, cells
    {
      && |contents| == |cells|
      && (forall i, j :: 0 <= i < j < |cells| ==> cells[i] != cells[j])
      && (forall i :: 0 <= i < |cells| ==> cells[i].cb == contents[i])
      && (forall i :: 0 <= i < |cells| ==> cells[i].next == Successor(cells, i))
      && head == (if cells == [] then null else cells[0])
      && tail == (if cells == [] then null else cells[|cells| - 1])
    }

    constructor ()
      ensures Valid() && contents == [] && cells == []
    {
      head, tail, cells, contents := null, null, [], [];
    }

    method PushCallback(source: Callback)
      requires Valid()
      modifies this, cells
      ensures Valid() && contents == old(contents) + [source]
      ensures fresh(set c | c in cells && c !in old(cells))
    {
      var cell := new Cell(source);
      if head == null {
        head := cell;
      }
      if tail != null {
        tail.next := cell;
      }
      tail := cell;
      cells, contents := cells + [cell], contents + [source];
    }

    method ShiftCallback() returns (target: Option<Callback>)
      requires Valid()
      modifies this
      ensures Valid() && (forall c :: c in cells ==> c in old(cells))
      ensures target == if old(contents) == [] then None else Some(old(contents)[0])
      ensures contents == if old(contents) == [] then [] else old(contents)[1..]
    {
      var cell := head;
      if cell == null { return None; }
      assert cell == cells[0] && cell.next == Successor(cells, 0);
      head := cell.next;
      if cell == tail {
        tail := null;
      }
      ghost var was := cells;
      cells, contents := cells[1..], contents[1..];
      assert forall i :: 0 <= i < |cells| ==> cells[i] == was[i + 1];
      return Some(cell.cb);
    }
  }
}
