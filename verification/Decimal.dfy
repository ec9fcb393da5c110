/** Decimal numerals: how sprintf writes them, how hiredis measures and reads them. */
module Decimal {
  import opened Bytes

  /** The digits of n, most significant first, without leading zeros. */
  function Dec(n: nat): (s: bytes)
    ensures |s| > 0
    ensures forall i :: 0 <= i < |s| ==> IsDigit(s[i])
  {
    if n < 10 then [ZERO + n] else Dec(n / 10) + [ZERO + n % 10]
  }

  /** What sprintf writes for "%d". */
  function IntDec(n: int): bytes {
    if n < 0 then [MINUS] + Dec(-n) else Dec(n)
  }

  /** Horner evaluation of the digits up to the first CR or the end; None on any other byte. */
  function Digits(s: bytes, acc: int): Option<int> {
    if s == [] || s[0] == CR then Some(acc)
    else if IsDigit(s[0]) then Digits(s[1..], 10 * acc + (s[0] - ZERO))
    else None
  }

  /** The value readLongLong gives to the text of a line: -1 on unexpected input, signs accepted. */
  function Number(text: bytes): int {
    var negative := text != [] && text[0] == MINUS;
    var signed := text != [] && (text[0] == MINUS || text[0] == PLUS);
    match Digits(if signed then text[1..] else text, 0)
    case None => -1
    case Some(v) => if negative then -v else v
  }

  lemma {:induction false} DigitsOfDec(n: nat, tail: bytes)
    ensures Digits(Dec(n) + tail, 0) == Digits(tail, n)
  {
    if n < 10 {
      assert (Dec(n) + tail)[1..] == tail;
    } else {
      var last := [ZERO + n % 10];
      assert Dec(n) + tail == Dec(n / 10) + (last + tail);
      DigitsOfDec(n / 10, last + tail);
      assert (last + tail)[1..] == tail;
    }
  }

  /** Reading undoes writing, for every integer. */
  lemma NumberOfIntDec(n: int)
    ensures Number(IntDec(n)) == n
  {
    var k: nat := if n < 0 then -n else n;
    DigitsOfDec(k, []);
    assert Dec(k) + [] == Dec(k);
    assert n < 0 ==> IntDec(n)[1..] == Dec(k);
  }

  /** Decimal text never contains a line break. */
  lemma IntDecPlain(n: int)
    ensures |IntDec(n)| > 0
    ensures forall i :: 0 <= i < |IntDec(n)| ==> IntDec(n)[i] != CR && IntDec(n)[i] != LF && IntDec(n)[i] != NUL
  {
  }

  // ------------------------------------------------------------ numerals, said without writing or reading them

  predicate AllDigits(d: bytes) {
    forall i :: 0 <= i < |d| ==> 48 <= d[i] <= 57
  }

  /** The value of some digits: the last one counts ones, those before it tens. */
  function Value(d: bytes): int {
    if d == [] then 0 else 10 * Value(d[..|d| - 1]) + (d[|d| - 1] as int - 48)
  }

  /** Digits of that value, without a leading zero unless it is the only digit. */
  predicate IsNatural(s: bytes, n: int) {
    s != [] && AllDigits(s) && (|s| > 1 ==> s[0] != 48) && Value(s) == n
  }

  /** The decimal numeral of an integer. */
  predicate IsNumeral(s: bytes, n: int) {
    if n < 0 then s != [] && s[0] == 45 && IsNatural(s[1..], -n) else IsNatural(s, n)
  }

  lemma {:induction false} DecIsNatural(n: nat)
    ensures IsNatural(Dec(n), n) && (n > 0 ==> Dec(n)[0] != 48)
  {
    if n >= 10 {
      DecIsNatural(n / 10);
      assert Dec(n)[..|Dec(n)| - 1] == Dec(n / 10);
    } else {
      assert Dec(n)[..0] == [];
    }
  }

  lemma {:induction false} ValueFrom(s: bytes)
    requires AllDigits(s)
    ensures Value(s) >= 0 && (s != [] && s[0] != 48 ==> Value(s) > 0)
  {
    if s != [] {
      ValueFrom(s[..|s| - 1]);
    }
  }

  lemma {:induction false} NaturalIsDec(s: bytes, n: nat)
    requires IsNatural(s, n)
    ensures s == Dec(n)
  {
    var m := |s| - 1;
    var init := s[..m];
    ValueFrom(init);
    if m == 0 {
      assert Value(init) == 0;
    } else {
      NaturalIsDec(init, Value(init));
      assert n / 10 == Value(init) && n % 10 == s[m] - 48;
      assert s == init + [s[m]];
    }
  }

  /** Each integer has one numeral, and that is what is written. */
  lemma NumeralExact(s: bytes, n: int)
    ensures IsNumeral(s, n) <==> s == IntDec(n)
  {
    DecIsNatural(if n < 0 then -n else n);
    if n < 0 {
      assert IntDec(n)[1..] == Dec(-n);
      if IsNumeral(s, n) {
        NaturalIsDec(s[1..], -n);
        assert s == [s[0]] + s[1..];
      }
    } else if IsNumeral(s, n) {
      NaturalIsDec(s, n);
    }
  }

  /** What comes before the first CR. */
  function UpToCr(s: bytes): bytes {
    if s == [] || s[0] == 13 then [] else [s[0]] + UpToCr(s[1..])
  }

  /** How a number is to be read: a sign or none, digits up to a CR or the end; anything else is -1. */
  function ReadsAs(text: bytes): int {
    var signed := text != [] && (text[0] == 43 || text[0] == 45);
    var d := UpToCr(if signed then text[1..] else text);
    if !AllDigits(d) then -1 else if signed && text[0] == 45 then -Value(d) else Value(d)
  }

  function Pow10(k: nat): nat {
    if k == 0 then 1 else 10 * Pow10(k - 1)
  }

  lemma {:induction false} ValueCons(b: byte, d: bytes)
    ensures Value([b] + d) == (b - 48) * Pow10(|d|) + Value(d)
  {
    var s := [b] + d;
    if d == [] {
      assert s[..0] == [] && Value([]) == 0;
    } else {
      var n := |d| - 1;
      ValueCons(b, d[..n]);
      assert s[..|s| - 1] == [b] + d[..n];
      assert 10 * ((b - 48) * Pow10(n)) == (b - 48) * (10 * Pow10(n));
    }
  }

  lemma AllDigitsCons(b: byte, d: bytes)
    ensures AllDigits([b] + d) <==> 48 <= b <= 57 && AllDigits(d)
  {
    var all := [b] + d;
    if AllDigits(all) {
      assert 48 <= all[0] <= 57;
      forall i | 0 <= i < |d| ensures 48 <= d[i] <= 57 {
        assert all[i + 1] == d[i];
      }
    }
  }

  lemma {:induction false} DigitsExact(s: bytes, acc: int)
    ensures var d := UpToCr(s);
            Digits(s, acc) == if AllDigits(d) then Some(acc * Pow10(|d|) + Value(d)) else None
  {
    if s != [] && s[0] != 13 {
      var d, rest := UpToCr(s), UpToCr(s[1..]);
      AllDigitsCons(s[0], rest);
      if IsDigit(s[0]) {
        DigitsExact(s[1..], 10 * acc + (s[0] - ZERO));
        ValueCons(s[0], rest);
        Distribute(acc, s[0] - 48, Pow10(|rest|));
      }
    }
  }

  lemma Distribute(a: int, b: int, p: int)
    ensures (10 * a + b) * p == a * (10 * p) + b * p
  {
  }

  /** Numbers are read as they are to be read. */
  lemma NumberExact(text: bytes)
    ensures Number(text) == ReadsAs(text)
  {
    var signed := text != [] && (text[0] == MINUS || text[0] == PLUS);
    DigitsExact(if signed then text[1..] else text, 0);
  }

  /** intlen: the loop divides by ten until nothing is left; it counts exactly what sprintf will write. */
  method IntLen(i: int) returns (len: nat)
    ensures len == |IntDec(i)|
  {
    len := 0;
    var k := i;
    if k < 0 {
      len := len + 1;
      k := -k;
    }
    ghost var sign := len;
    ghost var whole := k;
    len := len + 1;
    k := k / 10;
    while k != 0
      invariant k >= 0
      invariant len - sign + (if k == 0 then 0 else |Dec(k)|) == |Dec(whole)|
      decreases k
    {
      len := len + 1;
      k := k / 10;
    }
  }
}
