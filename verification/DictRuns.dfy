/** Every run of operations on a new table answers as a finite map would. */
module DictRuns {
  import opened Bytes
  import opened Dict
  import opened DictTable

  datatype Op = Add(key: Key, val: Val) | Replace(key: Key, val: Val) | Delete(key: Key) | Find(key: Key)

  /** What an operation tells its caller: success or not, or the value found. */
  datatype Answer = Done(ok: bool) | Value(found: Option<Val>)

  /** A finite map under the same operations. */
  function After(m: map<Key, Val>, op: Op): map<Key, Val> {
    match op
    case Add(k, v) => if k in m then m else m[k := v]
    case Replace(k, v) => m[k := v]
    case Delete(k) => m - {k}
    case Find(_) => m
  }

  function Says(m: map<Key, Val>, op: Op): Answer {
    match op
    case Add(k, _) => Done(k !in m)
    case Replace(k, _) => Done(k !in m)
    case Delete(k) => Done(k in m)
    case Find(k) => Value(if k in m then Some(m[k]) else None)
  }

  function AfterAll(m: map<Key, Val>, ops: seq<Op>): map<Key, Val> {
    if ops == [] then m else After(AfterAll(m, ops[..|ops| - 1]), ops[|ops| - 1])
  }

  function AllSay(m: map<Key, Val>, ops: seq<Op>): seq<Answer> {
    if ops == [] then [] else
      var before := ops[..|ops| - 1];
      AllSay(m, before) + [Says(AfterAll(m, before), ops[|ops| - 1])]
  }

  lemma SpecStep(ops: seq<Op>, i: nat)
    requires i < |ops|
    ensures AfterAll(map[], ops[..i + 1]) == After(AfterAll(map[], ops[..i]), ops[i])
    ensures AllSay(map[], ops[..i + 1]) == AllSay(map[], ops[..i]) + [Says(AfterAll(map[], ops[..i]), ops[i])]
  {
    assert ops[..i + 1][..i] == ops[..i];
  }

  method Do(t: HashTable, op: Op) returns (a: Answer)
    requires t.Valid()
    modifies t
    ensures t.Valid() && t.Contents() == After(old(t.Contents()), op) && a == Says(old(t.Contents()), op)
  {
    match op
    case Add(k, v) =>
      var ok := t.Add(k, v);
      a := Done(ok);
    case Replace(k, v) =>
      var ok := t.Replace(k, v);
      a := Done(ok);
    case Delete(k) =>
      var ok, _ := t.Delete(k);
      a := Done(ok);
    case Find(k) =>
      var de := t.Find(k);
      a := Value(if de.Some? then Some(t.mem[de.value].val) else None);
  }

  method Run(ops: seq<Op>) returns (answers: seq<Answer>, size: nat, used: nat)
    ensures answers == AllSay(map[], ops)
    ensures used == |AfterAll(map[], ops)| <= size && (size == 0 || PowerOfTwo(size))
  {
    var t := new HashTable();
    answers := [];
    for i := 0 to |ops|
      invariant fresh(t) && t.Valid() && t.Contents() == AfterAll(map[], ops[..i]) && answers == AllSay(map[], ops[..i])
    {
      var a := Do(t, ops[i]);
      SpecStep(ops, i);
      answers := answers + [a];
    }
    assert ops[..|ops|] == ops;
    t.Measures();
    size, used := t.size, t.used;
  }
}
