/**
 What a format string means, said by building it: words made of literal bytes, %s, %b and %%, with blanks between
 them. Formatting gives back exactly the words that are not empty.
 */
module FormatWords {
  import opened Bytes
  import CommandGrammar
  import opened Format

  datatype Part = Letter(b: byte) | CArg(arg: bytes) | BinaryArg(arg: bytes) | PercentSign

  /** How the part is written in a format. */
  function Written(p: Part): bytes {
    match p
    case Letter(b) => [b]
    case CArg(_) => [37, 115]
    case BinaryArg(_) => [37, 98]
    case PercentSign => [37, 37]
  }

  /** The argument it takes, if any. */
  function Takes(p: Part): seq<bytes> {
    match p
    case CArg(arg) => [arg]
    case BinaryArg(arg) => [arg]
    case _ => []
  }

  /** What it stands for; a C string ends before its first zero byte. */
  function Means(p: Part): bytes {
    match p
    case Letter(b) => [b]
    case CArg(arg) => CString(arg)
    case BinaryArg(arg) => arg
    case PercentSign => [37]
  }

  /** Letters are neither zero, nor a blank, nor a percent sign. */
  predicate WordOk(w: seq<Part>) {
    forall i :: 0 <= i < |w| && w[i].Letter? ==> w[i].b !in {0, 32, 37}
  }

  predicate AllOk(ws: seq<seq<Part>>) {
    forall i :: 0 <= i < |ws| ==> WordOk(ws[i])
  }

  function WordWritten(w: seq<Part>): bytes {
    if w == [] then [] else Written(w[0]) + WordWritten(w[1..])
  }

  function WordTakes(w: seq<Part>): seq<bytes> {
    if w == [] then [] else Takes(w[0]) + WordTakes(w[1..])
  }

  function WordMeans(w: seq<Part>): bytes {
    if w == [] then [] else Means(w[0]) + WordMeans(w[1..])
  }

  /** The format: the words with one blank between neighbours; an empty word makes two blanks meet. */
  function LineWritten(ws: seq<seq<Part>>): bytes {
    if ws == [] then [] else if |ws| == 1 then WordWritten(ws[0]) else WordWritten(ws[0]) + ([32] + LineWritten(ws[1..]))
  }

  function LineTakes(ws: seq<seq<Part>>): seq<bytes> {
    if ws == [] then [] else WordTakes(ws[0]) + LineTakes(ws[1..])
  }

  /** The arguments of the command. */
  function LineMeans(ws: seq<seq<Part>>): seq<bytes> {
    if ws == [] then [] else (if ws[0] == [] then [] else [WordMeans(ws[0])]) + LineMeans(ws[1..])
  }

  // ------------------------------------------------------------ the pieces of a format

  /** From these positions on, the format and its arguments come to these pieces. */
  ghost predicate Gives(format: bytes, c: nat, va: seq<bytes>, ap: nat, ps: seq<Piece>) {
    Formattable(format, c, va, ap) && Pieces(format, c, va, ap) == ps
  }

  /** The text and the arguments stand there. */
  ghost predicate Stands(format: bytes, c: nat, va: seq<bytes>, ap: nat, text: bytes, args: seq<bytes>) {
    && c + |text| <= |format| && format[c..c + |text|] == text
    && ap + |args| <= |va| && va[ap..ap + |args|] == args
  }

  lemma PartGives(format: bytes, c: nat, va: seq<bytes>, ap: nat, p: Part, end: nat, last: nat, ps: seq<Piece>)
    requires WordOk([p]) && Stands(format, c, va, ap, Written(p), Takes(p))
    requires end == c + |Written(p)| && last == ap + |Takes(p)| && Gives(format, end, va, last, ps)
    ensures Gives(format, c, va, ap, [Text(Means(p))] + ps)
  {
    assert [p][0] == p;
    assert format[c] == format[c..c + |Written(p)|][0];
    if !p.Letter? {
      assert format[c + 1] == format[c..c + 2][1];
    }
    if p.CArg? || p.BinaryArg? {
      assert va[ap] == va[ap..ap + 1][0];
    }
  }

  function WordPieces(w: seq<Part>): seq<Piece> {
    if w == [] then [] else [Text(Means(w[0]))] + WordPieces(w[1..])
  }

  function LinePieces(ws: seq<seq<Part>>): seq<Piece> {
    if ws == [] then [] else if |ws| == 1 then WordPieces(ws[0]) else WordPieces(ws[0]) + ([Blank] + LinePieces(ws[1..]))
  }

  lemma StandsBoth(format: bytes, c: nat, va: seq<bytes>, ap: nat, t1: bytes, t2: bytes, a1: seq<bytes>, a2: seq<bytes>)
    requires Stands(format, c, va, ap, t1 + t2, a1 + a2)
    ensures Stands(format, c, va, ap, t1, a1) && Stands(format, c + |t1|, va, ap + |a1|, t2, a2)
  {
    var t, a := format[c..c + |t1 + t2|], va[ap..ap + |a1 + a2|];
    assert t1 == t[..|t1|] && t2 == t[|t1|..] && a1 == a[..|a1|] && a2 == a[|a1|..];
  }

  lemma {:induction false} WordGives(format: bytes, c: nat, va: seq<bytes>, ap: nat, w: seq<Part>, end: nat, last: nat,
                                     ps: seq<Piece>)
    requires WordOk(w) && Stands(format, c, va, ap, WordWritten(w), WordTakes(w))
    requires end == c + |WordWritten(w)| && last == ap + |WordTakes(w)| && Gives(format, end, va, last, ps)
    ensures Gives(format, c, va, ap, WordPieces(w) + ps)
    decreases |w|
  {
    if w == [] {
      assert [] + ps == ps;
    } else {
      var c', ap' := FirstPart(format, c, va, ap, w);
      WordGives(format, c', va, ap', w[1..], end, last, ps);
      PartGives(format, c, va, ap, w[0], c', ap', WordPieces(w[1..]) + ps);
      PiecesCons(w, ps);
    }
  }

  lemma FirstPart(format: bytes, c: nat, va: seq<bytes>, ap: nat, w: seq<Part>) returns (c': nat, ap': nat)
    requires w != [] && WordOk(w) && Stands(format, c, va, ap, WordWritten(w), WordTakes(w))
    ensures WordOk([w[0]]) && WordOk(w[1..]) && Stands(format, c, va, ap, Written(w[0]), Takes(w[0]))
    ensures c' == c + |Written(w[0])| && ap' == ap + |Takes(w[0])|
    ensures Stands(format, c', va, ap', WordWritten(w[1..]), WordTakes(w[1..]))
    ensures c' + |WordWritten(w[1..])| == c + |WordWritten(w)| && ap' + |WordTakes(w[1..])| == ap + |WordTakes(w)|
  {
    RestOk(w);
    WordCons(w);
    StandsBoth(format, c, va, ap, Written(w[0]), WordWritten(w[1..]), Takes(w[0]), WordTakes(w[1..]));
    c', ap' := c + |Written(w[0])|, ap + |Takes(w[0])|;
  }

  lemma WordCons(w: seq<Part>)
    requires w != []
    ensures WordWritten(w) == Written(w[0]) + WordWritten(w[1..]) && WordTakes(w) == Takes(w[0]) + WordTakes(w[1..])
  {
  }

  lemma RestOk(w: seq<Part>)
    requires w != [] && WordOk(w)
    ensures WordOk([w[0]]) && WordOk(w[1..])
  {
  }

  lemma PiecesCons(w: seq<Part>, ps: seq<Piece>)
    requires w != []
    ensures [Text(Means(w[0]))] + (WordPieces(w[1..]) + ps) == WordPieces(w) + ps
  {
  }

  lemma BlankGives(format: bytes, c: nat, va: seq<bytes>, ap: nat, ps: seq<Piece>)
    requires c < |format| && format[c] == 32 && Gives(format, c + 1, va, ap, ps)
    ensures Gives(format, c, va, ap, [Blank] + ps)
  {
  }

  lemma {:induction false} LineGives(format: bytes, c: nat, va: seq<bytes>, ap: nat, ws: seq<seq<Part>>)
    requires AllOk(ws) && Stands(format, c, va, ap, LineWritten(ws), LineTakes(ws))
    requires c + |LineWritten(ws)| == |format| && ap + |LineTakes(ws)| == |va|
    ensures Gives(format, c, va, ap, LinePieces(ws))
    decreases |ws|
  {
    if |ws| == 1 {
      LastGives(format, c, va, ap, ws);
    } else if ws != [] {
      var c', ap' := FirstWord(format, c, va, ap, ws);
      LineGives(format, c' + 1, va, ap', ws[1..]);
      BlankGives(format, c', va, ap', LinePieces(ws[1..]));
      WordThenLine(format, c, va, ap, ws, c', ap');
    }
  }

  lemma WordThenLine(format: bytes, c: nat, va: seq<bytes>, ap: nat, ws: seq<seq<Part>>, c': nat, ap': nat)
    requires |ws| > 1 && WordOk(ws[0]) && Stands(format, c, va, ap, WordWritten(ws[0]), WordTakes(ws[0]))
    requires c' == c + |WordWritten(ws[0])| && ap' == ap + |WordTakes(ws[0])|
    requires Gives(format, c', va, ap', [Blank] + LinePieces(ws[1..]))
    ensures Gives(format, c, va, ap, LinePieces(ws))
  {
    WordGives(format, c, va, ap, ws[0], c', ap', [Blank] + LinePieces(ws[1..]));
  }

  lemma LastGives(format: bytes, c: nat, va: seq<bytes>, ap: nat, ws: seq<seq<Part>>)
    requires |ws| == 1 && AllOk(ws) && Stands(format, c, va, ap, LineWritten(ws), LineTakes(ws))
    requires c + |LineWritten(ws)| == |format| && ap + |LineTakes(ws)| == |va|
    ensures Gives(format, c, va, ap, LinePieces(ws))
  {
    OneWord(ws);
    WordGives(format, c, va, ap, ws[0], |format|, |va|, []);
    assert WordPieces(ws[0]) + [] == WordPieces(ws[0]);
  }

  lemma OneWord(ws: seq<seq<Part>>)
    requires |ws| == 1 && AllOk(ws)
    ensures WordOk(ws[0]) && LineTakes(ws) == WordTakes(ws[0]) && LineWritten(ws) == WordWritten(ws[0])
  {
    assert ws[1..] == [];
  }

  lemma FirstWord(format: bytes, c: nat, va: seq<bytes>, ap: nat, ws: seq<seq<Part>>) returns (c': nat, ap': nat)
    requires |ws| > 1 && AllOk(ws) && Stands(format, c, va, ap, LineWritten(ws), LineTakes(ws))
    requires c + |LineWritten(ws)| == |format| && ap + |LineTakes(ws)| == |va|
    ensures WordOk(ws[0]) && AllOk(ws[1..]) && Stands(format, c, va, ap, WordWritten(ws[0]), WordTakes(ws[0]))
    ensures c' == c + |WordWritten(ws[0])| && ap' == ap + |WordTakes(ws[0])| && c' < |format| && format[c'] == 32
    ensures Stands(format, c' + 1, va, ap', LineWritten(ws[1..]), LineTakes(ws[1..]))
    ensures c' + 1 + |LineWritten(ws[1..])| == |format| && ap' + |LineTakes(ws[1..])| == |va|
  {
    var w, rest := ws[0], ws[1..];
    StandsBoth(format, c, va, ap, WordWritten(w), [32] + LineWritten(rest), WordTakes(w), LineTakes(rest));
    c', ap' := c + |WordWritten(w)|, ap + |WordTakes(w)|;
    assert [] + LineTakes(rest) == LineTakes(rest);
    StandsBoth(format, c', va, ap', [32], LineWritten(rest), [], LineTakes(rest));
    assert format[c'] == format[c'..c' + 1][0];
  }

  // ------------------------------------------------------------ their words

  lemma {:induction false} WordJoins(w: seq<Part>, more: seq<Piece>)
    requires more == [] || more[0].Blank?
    ensures RunLength(WordPieces(w) + more) == |w| == |WordPieces(w)|
    ensures (forall i :: 0 <= i < |w| ==> WordPieces(w)[i].Text?) && Joined(WordPieces(w)) == WordMeans(w)
    decreases |w|
  {
    if w == [] {
      assert WordPieces(w) + more == more;
    } else {
      WordJoins(w[1..], more);
      PiecesCons(w, more);
      RunCons(Text(Means(w[0])), WordPieces(w[1..]) + more);
      JoinedCons(Text(Means(w[0])), WordPieces(w[1..]));
    }
  }

  lemma RunCons(p: Piece, ps: seq<Piece>)
    requires p.Text?
    ensures RunLength([p] + ps) == 1 + RunLength(ps)
  {
    assert ([p] + ps)[1..] == ps;
  }

  lemma JoinedCons(p: Piece, ps: seq<Piece>)
    requires p.Text? && forall i :: 0 <= i < |ps| ==> ps[i].Text?
    ensures Joined([p] + ps) == p.text + Joined(ps)
  {
    assert ([p] + ps)[1..] == ps;
  }

  lemma {:induction false} LineWords(ws: seq<seq<Part>>)
    ensures Words(LinePieces(ws)) == LineMeans(ws)
    decreases |ws|
  {
    if ws != [] {
      var w, rest := ws[0], ws[1..];
      var more := if rest == [] then [] else [Blank] + LinePieces(rest);
      LineWords(rest);
      WordJoins(w, more);
      var ps := WordPieces(w) + more;
      assert LinePieces(ws) == ps && ps[..|w|] == WordPieces(w) && ps[|w|..] == more;
      assert rest != [] ==> more[1..] == LinePieces(rest);
      assert w == [] ==> ps == more;
    }
  }

  /** Formatting a format built of words gives exactly its words, those left empty apart. */
  lemma FormatMeans(ws: seq<seq<Part>>)
    requires AllOk(ws)
    ensures Formattable(LineWritten(ws), 0, LineTakes(ws), 0)
    ensures Words(Pieces(LineWritten(ws), 0, LineTakes(ws), 0)) == LineMeans(ws)
  {
    LineGives(LineWritten(ws), 0, LineTakes(ws), 0, ws);
    LineWords(ws);
  }

  lemma {:induction false} NoZeroWritten(w: seq<Part>)
    requires WordOk(w)
    ensures 0 !in WordWritten(w)
  {
    if w != [] {
      NoZeroWritten(w[1..]);
    }
  }

  lemma {:induction false} NoZero(ws: seq<seq<Part>>)
    requires AllOk(ws)
    ensures 0 !in LineWritten(ws)
  {
    if ws != [] {
      NoZeroWritten(ws[0]);
      NoZero(ws[1..]);
    }
  }

  /** Through the formatter itself. */
  method FormatLine(ws: seq<seq<Part>>) returns (cmd: array<byte>, totlen: nat)
    requires AllOk(ws)
    ensures fresh(cmd) && cmd.Length == totlen + 1 && cmd[totlen] == 0
    ensures CommandGrammar.IsCommand(cmd[..totlen], LineMeans(ws))
  {
    FormatMeans(ws);
    NoZero(ws);
    cmd, totlen := FormatCommand(LineWritten(ws), LineTakes(ws));
  }
}
