/** Bytes, byte strings and the optional values every other module uses. */
module Bytes {

  type byte = b: int | 0 <= b < 256

  type bytes = seq<byte>

  datatype Option<+T> = None | Some(value: T)

  const NUL: byte := 0
  const TAB: byte := 9
  const LF: byte := 10
  const CR: byte := 13
  const SPACE: byte := 32
  const QUOTE: byte := 34
  const DOLLAR: byte := 36
  const PERCENT: byte := 37
  const STAR: byte := 42
  const PLUS: byte := 43
  const MINUS: byte := 45
  const ZERO: byte := 48
  const NINE: byte := 57
  const COLON: byte := 58
  const BACKSLASH: byte := 92

  const CRLF: bytes := [CR, LF]

  predicate IsDigit(b: byte) {
    ZERO <= b <= NINE
  }

  lemma Regroup(a: bytes, b: bytes, c: bytes)
    ensures a + b + c == a + (b + c)
  {
  }

  /** The concatenation of a list of byte strings. */
  function Concat(parts: seq<bytes>): bytes {
    if parts == [] then [] else parts[0] + Concat(parts[1..])
  }

  lemma {:induction false} ConcatAppend(a: seq<bytes>, b: seq<bytes>)
    ensures Concat(a + b) == Concat(a) + Concat(b)
  {
    if a == [] {
      assert a + b == b;
    } else {
      var rest, all := a[1..], a + b;
      ConcatAppend(rest, b);
      assert all[0] == a[0] && all[1..] == rest + b;
      Regroup(a[0], Concat(rest), Concat(b));
    }
  }

  lemma ConcatSnoc(a: seq<bytes>, p: bytes)
    ensures Concat(a + [p]) == Concat(a) + p
  {
    ConcatAppend(a, [p]);
    assert Concat([p]) == p + Concat([]);
  }
}
