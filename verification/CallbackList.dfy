/** The head/tail linked queue of callbacks in async.c. */
module CallbackList {
  import opened Bytes

  /** A reply callback; fn is None for the NULL callback. */
  datatype Callback = Callback(fn: Option<int>, privdata: int)

  class Cell {
    var next: Cell?
    var cb: Callback

    constructor (cb: Callback)
      ensures this.cb == cb && next == null
    {
      this.cb, next := cb, null;
    }
  }

  class CallbackList {
    var head: Cell?
    var tail: Cell?
    /** The cells of the queue in order, and all cells it ever had. */
    ghost var spine: seq<Cell>
    ghost var cells: set<Cell>
    ghost var contents: seq<Callback>

    ghost predicate Valid()
      reads this, cells
    {
      && |contents| == |spine|
      && (forall i :: 0 <= i < |spine| ==> spine[i] in cells && spine[i].cb == contents[i])
      && (spine == [] ==> head == null && tail == null)
      && (spine != [] ==> head == spine[0] && tail == spine[|spine| - 1] && spine[|spine| - 1].next == null)
      && (forall i :: 0 <= i < |spine| - 1 ==> spine[i].next == spine[i + 1])
      && (forall i, j :: 0 <= i < j < |spine| ==> spine[i] != spine[j])
    }

    constructor ()
      ensures Valid() && contents == [] && cells == {}
    {
      head, tail, spine, cells, contents := null, null, [], {}, [];
    }

    method Push(cb: Callback)
      requires Valid()
      modifies this, cells
      ensures Valid() && contents == old(contents) + [cb]
      ensures fresh(cells - old(cells))
    {
      var cell := new Cell(cb);
      if head == null {
        head := cell;
      }
      if tail != null {
        tail.next := cell;
      }
      tail := cell;
      spine := spine + [cell];
      cells := cells + {cell};
      contents := contents + [cb];
    }

    method Shift() returns (r: Option<Callback>)
      requires Valid()
      modifies this
      ensures Valid() && cells == old(cells)
      ensures if old(contents) == [] then r == None && contents == []
              else r == Some(old(contents)[0]) && contents == old(contents)[1..]
    {
      if head == null {
        return None;
      }
      var cell := head;
      head := cell.next;
      if cell == tail {
        tail := null;
      }
      spine := spine[1..];
      contents := contents[1..];
      return Some(cell.cb);
    }
  }
}
