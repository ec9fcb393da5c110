/** Lines of arguments that are quoted, not quoted, or first the one and then the other, with any blanks between them. */
module SdsLine {
  import opened Bytes
  import opened SdsQuote

  /** An argument as it stands in a line: a plain word, then perhaps a quoted string, then the blanks that follow. */
  datatype Item = Item(word: bytes, quoted: Option<bytes>, gap: bytes)

  predicate Plain(word: bytes) {
    forall i :: 0 <= i < |word| ==> word[i] !in {0, 9, 10, 13, 32, 34}
  }

  predicate Blanks(gap: bytes) {
    forall i :: 0 <= i < |gap| ==> gap[i] == 32 || 9 <= gap[i] <= 13
  }

  /** Not empty, not beginning with a vertical tab or form feed; only the last item may do without a blank behind it. */
  predicate ItemOk(x: Item, last: bool) {
    && (x.word != [] || x.quoted != None) && Plain(x.word) && (x.word != [] ==> x.word[0] !in {11, 12})
    && Blanks(x.gap) && (x.gap == [] ==> last) && (x.gap != [] && x.quoted == None ==> x.gap[0] !in {11, 12})
  }

  predicate ItemsOk(xs: seq<Item>) {
    xs == [] || (ItemOk(xs[0], |xs| == 1) && ItemsOk(xs[1..]))
  }

  function Written(x: Item): bytes {
    x.word + match x.quoted case None => [] case Some(s) => Quote(s)
  }

  function Text(xs: seq<Item>): bytes {
    if xs == [] then [] else Written(xs[0]) + (xs[0].gap + Text(xs[1..]))
  }

  /** What it stands for: the word, and what comes back of the quoted string. */
  function Means(x: Item): bytes {
    x.word + match x.quoted case None => [] case Some(s) => Back(s)
  }

  function AllMean(xs: seq<Item>): seq<bytes> {
    if xs == [] then [] else [Means(xs[0])] + AllMean(xs[1..])
  }

  lemma {:induction false} WordRead(w: bytes, tail: bytes, current: bytes)
    requires Plain(w)
    ensures Token(w + tail, false, current) == Token(tail, false, current + w)
    decreases |w|
  {
    if w == [] {
      assert w + tail == tail && current + w == current;
    } else {
      var s := w + tail;
      assert s[1..] == w[1..] + tail && Meaning(s, false) == Char(w[0], s[1..]);
      WordRead(w[1..], tail, current + [w[0]]);
      assert current + [w[0]] + w[1..] == current + w;
    }
  }

  lemma QuotedRead(s: bytes, tail: bytes, current: bytes)
    requires Head(tail) == 0 || IsSpace(Head(tail))
    ensures Token(Quote(s) + tail, false, current) == Cut(current + Back(s), tail)
  {
    var line, close := Quote(s) + tail, [QUOTE] + tail;
    assert line[1..] == Inner(s) + close && Meaning(line, false) == Open(Inner(s) + close);
    InnerRead(s, close, current);
    assert close[1..] == tail && Meaning(close, true) == Done(tail);
  }

  lemma {:induction false} GapSkipped(gap: bytes, t: bytes)
    requires Blanks(gap)
    ensures SkipBlanks(gap + t) == SkipBlanks(t)
  {
    if gap == [] {
      assert gap + t == t;
    } else {
      assert (gap + t)[1..] == gap[1..] + t;
      GapSkipped(gap[1..], t);
    }
  }

  lemma GapRead(gap: bytes, t: bytes)
    requires Blanks(gap)
    ensures Args(gap + t) == Args(t)
  {
    GapSkipped(gap, t);
  }

  /** The end of a word without a quote: its first blank is consumed with it. */
  lemma WordEnds(gap: bytes, t: bytes, current: bytes)
    requires Blanks(gap) && (gap == [] ==> t == []) && (gap != [] ==> gap[0] !in {11, 12})
    ensures Token(gap + t, false, current) == Cut(current, if gap == [] then [] else gap[1..] + t)
  {
    if gap != [] {
      assert (gap + t)[1..] == gap[1..] + t;
      assert Meaning(gap + t, false) == Done(gap[1..] + t);
    }
  }

  /** One item at the front of a line. */
  lemma ItemRead(x: Item, t: bytes)
    requires ItemOk(x, t == [])
    ensures Args(Written(x) + (x.gap + t)) == SdsQuote.Prepend([Means(x)], Args(t))
  {
    var tail := x.gap + t;
    var line := Written(x) + tail;
    assert line != [] && line[0] == Written(x)[0] && SkipBlanks(line) == line;
    match x.quoted {
      case None =>
        assert line == x.word + tail;
        WordRead(x.word, tail, []);
        WordEnds(x.gap, t, x.word);
        assert [] + x.word == x.word && Means(x) == x.word;
        if x.gap != [] {
          GapRead(x.gap[1..], t);
        }
      case Some(s) =>
        Regroup(x.word, Quote(s), tail);
        WordRead(x.word, Quote(s) + tail, []);
        assert [] + x.word == x.word;
        assert x.gap != [] ==> Head(tail) == x.gap[0];
        QuotedRead(s, tail, x.word);
        GapRead(x.gap, t);
    }
  }

  /** Such a line is read as what its items stand for. */
  lemma {:induction false} LineMeans(xs: seq<Item>)
    requires ItemsOk(xs)
    ensures Args(Text(xs)) == Some(AllMean(xs))
  {
    if xs != [] {
      var rest := Text(xs[1..]);
      if |xs| > 1 {
        assert rest != [] by {
          assert xs[1..][0] == xs[1] && Written(xs[1]) != [];
        }
      }
      ItemRead(xs[0], rest);
      LineMeans(xs[1..]);
    }
  }

  /** Two words and a blank between them, such as `get foo`. */
  lemma TwoWords(a: bytes, b: bytes)
    requires Plain(a) && Plain(b) && a != [] && b != [] && a[0] !in {11, 12} && b[0] !in {11, 12}
    ensures Args(a + [32] + b) == Some([a, b])
  {
    var x, y := Item(a, None, [32]), Item(b, None, []);
    ItemRead(y, []);
    ItemRead(x, b);
    assert Written(y) + (y.gap + []) == b && Written(x) + (x.gap + b) == a + [32] + b;
    assert Args([]) == Some([]) && [b] + [] == [b] && [a] + [b] == [a, b];
    assert Means(x) == a && Means(y) == b;
  }
}
