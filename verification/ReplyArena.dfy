/**
 The reply objects hiredis allocates while it reads, and the task stack that points at them. Objects
 live in an arena in allocation order; an array object is allocated before its elements and they are
 written into it later, through the parent pointer of a task.
 */
module ReplyArena {
  import opened Bytes
  import opened Resp

  /** A reply object: one without elements, or an array with its element pointers, null until set. */
  datatype Node = Leaf(reply: Reply) | ArrayNode(elements: seq<Option<nat>>)

  type Arena = seq<Node>

  /** A slot of the task stack: the type read so far, and the array object it fills with its parent's slot. */
  datatype Task = Task(kind: Option<Kind>, elements: int, idx: int, obj: Option<nat>, parent: Option<nat>)

  const STACK_SIZE: nat := 9

  /** The object at c and all it reaches lie in [c, hi), with no element pointer left null. */
  ghost predicate Complete(a: Arena, c: nat, hi: nat)
    decreases hi - c
  {
    && c < hi <= |a|
    && (a[c].ArrayNode? ==>
          forall j :: 0 <= j < |a[c].elements| ==>
            && a[c].elements[j].Some?
            && c < a[c].elements[j].value < hi
            && Complete(a, a[c].elements[j].value, hi))
  }

  /** The reply an object stands for. */
  function Reify(a: Arena, c: nat): Reply
    decreases |a| - c
  {
    if c >= |a| then Nil
    else match a[c]
      case Leaf(r) => r
      case ArrayNode(es) => Array(seq(|es|, j requires 0 <= j < |es| => ReifySlot(a, c, es[j])))
  }

  function ReifySlot(a: Arena, c: nat, slot: Option<nat>): Reply
    requires c < |a|
    decreases |a| - c, 0
  {
    if slot.Some? && c < slot.value then Reify(a, slot.value) else Nil
  }

  /** Writing outside [c, hi) changes neither a complete object nor the reply it stands for. */
  lemma {:induction false} Untouched(a: Arena, b: Arena, c: nat, hi: nat)
    requires Complete(a, c, hi) && hi <= |b|
    requires forall i :: c <= i < hi ==> a[i] == b[i]
    ensures Complete(b, c, hi) && Reify(b, c) == Reify(a, c)
    decreases hi - c
  {
    if a[c].ArrayNode? {
      var es := a[c].elements;
      forall j | 0 <= j < |es|
        ensures Complete(b, es[j].value, hi) && ReifySlot(b, c, es[j]) == ReifySlot(a, c, es[j])
      {
        Untouched(a, b, es[j].value, hi);
      }
      assert Reify(b, c).items == Reify(a, c).items;
    }
  }

  lemma {:induction false} Widen(a: Arena, c: nat, lo: nat, hi: nat)
    requires Complete(a, c, lo) && lo <= hi <= |a|
    ensures Complete(a, c, hi)
    decreases lo - c
  {
    if a[c].ArrayNode? {
      forall j | 0 <= j < |a[c].elements|
        ensures Complete(a, a[c].elements[j].value, hi)
      {
        Widen(a, a[c].elements[j].value, lo, hi);
      }
    }
  }

  /** Element j of array object o holds a complete object below hi that stands for v. */
  ghost predicate Holds(a: Arena, o: nat, j: nat, hi: nat, v: Reply)
    requires o < |a| && a[o].ArrayNode? && j < |a[o].elements|
  {
    && a[o].elements[j].Some?
    && o < a[o].elements[j].value
    && Complete(a, a[o].elements[j].value, hi)
    && Reify(a, a[o].elements[j].value) == v
  }

  /**
   An array object being filled: the elements before the current one are complete, the current one is
   `next` (null while it has not been created), and all later ones are still null.
   */
  ghost predicate Filling(a: Arena, o: nat, f: Frame, next: Option<nat>) {
    && o < |a| && a[o].ArrayNode? && |a[o].elements| == f.total && FrameOk(f)
    && (next.Some? ==> o < next.value < |a|)
    && (forall j :: 0 <= j < |f.done| ==> Holds(a, o, j, if next.Some? then next.value else |a|, f.done[j]))
    && a[o].elements[|f.done|] == next
    && (forall j :: |f.done| < j < f.total ==> a[o].elements[j] == None)
  }

  /** The object in the current element of the array at level k: the array of the next level, or `top`. */
  ghost function Above(tasks: seq<Task>, frames: seq<Frame>, k: nat, top: Option<nat>): Option<nat>
    requires |frames| < |tasks|
  {
    if k + 1 < |frames| then tasks[k + 1].obj else top
  }

  ghost predicate Level(tasks: seq<Task>, a: Arena, base: nat, frames: seq<Frame>, k: nat, top: Option<nat>)
    requires k < |frames| < |tasks|
  {
    && tasks[k].kind == Some(ArrayKind)
    && tasks[k].elements == frames[k].total
    && tasks[k].obj.Some?
    && base <= tasks[k].obj.value
    && tasks[k + 1].idx == |frames[k].done|
    && tasks[k + 1].parent == Some(k)
    && Filling(a, tasks[k].obj.value, frames[k], Above(tasks, frames, k, top))
  }

  /** The task-stack invariant: every slot below the top is an array being filled by the slot above it. */
  ghost predicate Chain(tasks: seq<Task>, a: Arena, base: nat, frames: seq<Frame>, top: Option<nat>) {
    && |tasks| == STACK_SIZE
    && |frames| < STACK_SIZE
    && FramesOk(frames)
    && tasks[0].parent == None
    && base <= |a|
    && (top.Some? ==> base <= top.value < |a|)
    && forall k :: 0 <= k < |frames| ==> Level(tasks, a, base, frames, k, top)
  }

  /** The element pointers of a new array object. */
  function Blank(n: nat): (es: seq<Option<nat>>)
    ensures |es| == n && forall j :: 0 <= j < n ==> es[j] == None
  {
    seq(n, _ => None)
  }

  /** A new object, stored in the element of the parent's object that the task stands for. */
  function Attach(tasks: seq<Task>, t: Task, a: Arena, node: Node): Arena
    requires t.parent.Some? ==>
               && t.parent.value < |tasks| && tasks[t.parent.value].obj.Some?
               && tasks[t.parent.value].obj.value < |a|
               && a[tasks[t.parent.value].obj.value].ArrayNode?
               && 0 <= t.idx < |a[tasks[t.parent.value].obj.value].elements|
  {
    if t.parent.None? then a + [node]
    else
      var o := tasks[t.parent.value].obj.value;
      a[o := ArrayNode(a[o].elements[t.idx := Some(|a|)])] + [node]
  }

  /** A task whose item has not been created yet can always create it: the parent is an array with room. */
  lemma CanAttach(tasks: seq<Task>, a: Arena, base: nat, frames: seq<Frame>)
    requires Chain(tasks, a, base, frames, None)
    ensures var t := tasks[|frames|];
            if frames == [] then t.parent == None
            else
              && t.parent == Some(|frames| - 1) && tasks[|frames| - 1].obj.Some?
              && base <= tasks[|frames| - 1].obj.value < |a|
              && a[tasks[|frames| - 1].obj.value].ArrayNode?
              && 0 <= t.idx < |a[tasks[|frames| - 1].obj.value].elements|
  {
    if frames != [] {
      assert Level(tasks, a, base, frames, |frames| - 1, None);
    }
  }

  /** An array that is not the innermost one does not notice writes at or above its own current element. */
  lemma OuterUndisturbed(a: Arena, b: Arena, o: nat, f: Frame, next: nat)
    requires Filling(a, o, f, Some(next))
    requires |a| <= |b| && forall i :: 0 <= i < next ==> a[i] == b[i]
    ensures Filling(b, o, f, Some(next))
  {
    forall j | 0 <= j < |f.done|
      ensures Holds(b, o, j, next, f.done[j])
    {
      assert Holds(a, o, j, next, f.done[j]);
      Untouched(a, b, a[o].elements[j].value, next);
    }
  }

  /** The innermost array gets the new object as its current element and keeps the others. */
  lemma InnermostFilled(a: Arena, b: Arena, o: nat, f: Frame, node: Node)
    requires Filling(a, o, f, None)
    requires b == a[o := ArrayNode(a[o].elements[|f.done| := Some(|a|)])] + [node]
    ensures Filling(b, o, f, Some(|a|))
  {
    forall j | 0 <= j < |f.done|
      ensures Holds(b, o, j, |a|, f.done[j])
    {
      assert Holds(a, o, j, |a|, f.done[j]);
      Untouched(a, b, a[o].elements[j].value, |a|);
    }
  }

  /** Creating an object fills the current element of the innermost array and disturbs nothing else. */
  lemma AttachKeepsChain(tasks: seq<Task>, a: Arena, base: nat, frames: seq<Frame>, node: Node, b: Arena)
    requires Chain(tasks, a, base, frames, None)
    requires (CanAttach(tasks, a, base, frames); b == Attach(tasks, tasks[|frames|], a, node))
    ensures |b| == |a| + 1 && b[|a|] == node
    ensures forall i :: 0 <= i < base ==> b[i] == a[i]
    ensures Chain(tasks, b, base, frames, Some(|a|))
  {
    CanAttach(tasks, a, base, frames);
    forall k | 0 <= k < |frames|
      ensures Level(tasks, b, base, frames, k, Some(|a|))
    {
      AttachKeepsLevel(tasks, a, base, frames, node, b, k);
    }
  }

  lemma AttachKeepsLevel(tasks: seq<Task>, a: Arena, base: nat, frames: seq<Frame>, node: Node, b: Arena, k: nat)
    requires Chain(tasks, a, base, frames, None) && k < |frames|
    requires (CanAttach(tasks, a, base, frames); b == Attach(tasks, tasks[|frames|], a, node))
    ensures Level(tasks, b, base, frames, k, Some(|a|))
  {
    var m := |frames| - 1;
    CanAttach(tasks, a, base, frames);
    assert Level(tasks, a, base, frames, k, None);
    if k < m {
      assert Level(tasks, a, base, frames, m, None);
      ChainOrder(tasks, a, base, frames, None, k + 1, m);
      OuterUndisturbed(a, b, tasks[k].obj.value, frames[k], tasks[k + 1].obj.value);
    } else {
      InnermostFilled(a, b, tasks[k].obj.value, frames[k], node);
    }
  }

  /** Inner arrays were allocated after outer ones. */
  lemma {:induction false} ChainOrder(tasks: seq<Task>, a: Arena, base: nat, frames: seq<Frame>, top: Option<nat>, i: nat, j: nat)
    requires Chain(tasks, a, base, frames, top) && i <= j < |frames|
    ensures tasks[i].obj.Some? && tasks[j].obj.Some? && tasks[i].obj.value <= tasks[j].obj.value
    decreases j - i
  {
    assert Level(tasks, a, base, frames, i, top);
    if i < j {
      ChainOrder(tasks, a, base, frames, top, i + 1, j);
    }
  }

  /** The created object is complete unless it is an array that still wants elements. */
  lemma LeafComplete(a: Arena, c: nat)
    requires c + 1 == |a| && (a[c].Leaf? || a[c] == ArrayNode([]))
    ensures Complete(a, c, |a|)
    ensures Reify(a, c) == if a[c].Leaf? then a[c].reply else Array([])
  {
  }

  /** The last element completes its array, which then is the finished item of the level below. */
  lemma ChainCloses(tasks: seq<Task>, a: Arena, base: nat, frames: seq<Frame>, c: nat, v: Reply)
    requires Chain(tasks, a, base, frames, Some(c)) && |frames| > 0
    requires Complete(a, c, |a|) && Reify(a, c) == v
    requires |frames[|frames| - 1].done| + 1 == frames[|frames| - 1].total
    ensures var m := |frames| - 1;
            && tasks[m].obj.Some?
            && Chain(tasks, a, base, frames[..m], tasks[m].obj)
            && Complete(a, tasks[m].obj.value, |a|)
            && Reify(a, tasks[m].obj.value) == Array(frames[m].done + [v])
  {
    var m := |frames| - 1;
    assert Level(tasks, a, base, frames, m, Some(c));
    FilledCompletes(a, tasks[m].obj.value, frames[m], c, v);
    ChainPops(tasks, a, base, frames, c);
  }

  /** An array whose last element is complete is complete and stands for the list of its elements. */
  lemma FilledCompletes(a: Arena, o: nat, f: Frame, c: nat, v: Reply)
    requires Filling(a, o, f, Some(c)) && |f.done| + 1 == f.total
    requires Complete(a, c, |a|) && Reify(a, c) == v
    ensures Complete(a, o, |a|) && Reify(a, o) == Array(f.done + [v])
  {
    var es := a[o].elements;
    forall j | 0 <= j < |es|
      ensures es[j].Some? && o < es[j].value < |a| && Complete(a, es[j].value, |a|)
      ensures ReifySlot(a, o, es[j]) == (f.done + [v])[j]
    {
      if j < |f.done| {
        assert Holds(a, o, j, c, f.done[j]);
        Widen(a, es[j].value, c, |a|);
      }
    }
    assert Reify(a, o).items == f.done + [v];
  }

  /** Without its innermost level a chain is one whose top is the object of that level. */
  lemma ChainPops(tasks: seq<Task>, a: Arena, base: nat, frames: seq<Frame>, c: nat)
    requires Chain(tasks, a, base, frames, Some(c)) && |frames| > 0
    ensures Chain(tasks, a, base, frames[..|frames| - 1], tasks[|frames| - 1].obj)
  {
    var m := |frames| - 1;
    assert Level(tasks, a, base, frames, m, Some(c));
    forall k | 0 <= k < m
      ensures Level(tasks, a, base, frames[..m], k, tasks[m].obj)
    {
      assert Level(tasks, a, base, frames, k, Some(c));
      assert Above(tasks, frames[..m], k, tasks[m].obj) == Above(tasks, frames, k, Some(c));
    }
    assert forall k :: 0 <= k < m ==> frames[..m][k] == frames[k] && FrameOk(frames[k]);
  }

  /** Any other element moves the task above on to the next element. */
  lemma ChainAdvances(tasks: seq<Task>, a: Arena, base: nat, frames: seq<Frame>, c: nat, v: Reply, moved: seq<Task>)
    requires Chain(tasks, a, base, frames, Some(c)) && |frames| > 0
    requires Complete(a, c, |a|) && Reify(a, c) == v
    requires |frames[|frames| - 1].done| + 1 < frames[|frames| - 1].total
    requires moved == tasks[|frames| := tasks[|frames|].(kind := None, elements := -1, idx := tasks[|frames|].idx + 1)]
    ensures Chain(moved, a, base, Filled(frames, v), None)
  {
    var m := |frames| - 1;
    var after := Filled(frames, v);
    assert Level(tasks, a, base, frames, m, Some(c));
    forall k | 0 <= k < |after|
      ensures Level(moved, a, base, after, k, None)
    {
      assert Level(tasks, a, base, frames, k, Some(c));
      if k == m {
        FilledAdvances(a, tasks[k].obj.value, frames[k], c, v);
      } else {
        assert Above(moved, after, k, None) == Above(tasks, frames, k, Some(c));
      }
    }
    assert forall k :: 0 <= k < m ==> after[k] == frames[k] && FrameOk(frames[k]);
  }

  /** An array with a complete element more, and the next one still null. */
  lemma FilledAdvances(a: Arena, o: nat, f: Frame, c: nat, v: Reply)
    requires Filling(a, o, f, Some(c)) && |f.done| + 1 < f.total
    requires Complete(a, c, |a|) && Reify(a, c) == v
    ensures Filling(a, o, Frame(f.total, f.done + [v]), None)
  {
    var done := f.done + [v];
    forall j | 0 <= j < |done|
      ensures Holds(a, o, j, |a|, done[j])
    {
      if j < |f.done| {
        assert Holds(a, o, j, c, f.done[j]);
        Widen(a, a[o].elements[j].value, c, |a|);
      }
    }
  }

  /** A header announcing n > 0 elements puts a new array on the stack, all of its elements null. */
  lemma ChainOpens(tasks: seq<Task>, a: Arena, base: nat, frames: seq<Frame>, n: nat, grown: seq<Task>)
    requires |a| > 0 && Chain(tasks, a, base, frames, Some(|a| - 1)) && |frames| + 1 < STACK_SIZE
    requires n > 0 && a[|a| - 1] == ArrayNode(Blank(n))
    requires tasks[|frames|].kind == Some(ArrayKind)
    requires var m := |frames|;
             grown == tasks[m := tasks[m].(elements := n, obj := Some(|a| - 1))]
                            [m + 1 := Task(None, -1, 0, None, Some(m))]
    ensures Chain(grown, a, base, frames + [Frame(n, [])], None)
  {
    var m := |frames|;
    var after := frames + [Frame(n, [])];
    forall k | 0 <= k < |after|
      ensures Level(grown, a, base, after, k, None)
    {
      if k < m {
        assert Level(tasks, a, base, frames, k, Some(|a| - 1));
        assert Above(grown, after, k, None) == Above(tasks, frames, k, Some(|a| - 1));
        assert grown[k] == tasks[k];
      }
    }
    assert forall k :: 0 <= k < m ==> after[k] == frames[k] && FrameOk(frames[k]);
  }
}
