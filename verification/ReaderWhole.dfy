/**
 When the bytes fed end where a reply ends, the reader has consumed every one of them. The reader's invariant speaks
 of every continuation of the stream; a status line longer than any leftover tells a leftover from none.
 */
module ReaderWhole {
  import opened Bytes
  import opened Resp
  import opened RespEncode
  import opened ReaderSim
  import opened Reader

  /** The bytes end where a reply ends: whatever follows is read as if it came first. */
  ghost predicate Whole(s: bytes) {
    forall x: bytes :: ParseAll(s + x) == Prepend(ParseAll(s).replies, ParseAll(x))
  }

  function Filler(n: nat): (t: bytes)
    ensures |t| == n && forall i :: 0 <= i < n ==> t[i] == 97
  {
    seq(n, _ => 97)
  }

  lemma ProbeReads(n: nat)
    ensures ParseAll(Line(PLUS, Filler(n))) == Stream([Status(Filler(n))], None)
  {
    var t := Filler(n);
    assert OneLine(t);
    ParseText(Status(t), 0, []);
    assert Encode(Status(t)) + [] == Line(PLUS, t);
    assert ParseAll([]) == Stream([], None);
  }

  lemma {:induction false} PlugArray(frames: seq<Frame>, r: Reply, rest: bytes)
    requires FramesOk(frames) && frames != [] && Plug(frames, r, rest).Done?
    ensures Plug(frames, r, rest).reply.Array?
    decreases |frames|
  {
    var m := |frames| - 1;
    var done := frames[m].done + [r];
    assert FrameOk(frames[m]);
    var o := ParseItems(rest, frames[m].total - |done|, |frames|);
    if m > 0 {
      PlugArray(frames[..m], Array(done + o.items), o.rest);
    }
  }

  /** A text that begins with leftover bytes is not the filler. */
  lemma OtherText(kind: Kind, v: bytes, n: nat, depth: nat)
    requires n < |v| && v[n] == 97
    ensures Body(kind, v, depth).Done? ==> Body(kind, v, depth).reply != Status(Filler(n))
  {
  }

  lemma ItemDiffers(kind: Option<Kind>, u: bytes, depth: nat)
    requires u != []
    ensures var n := |u| + 1;
            var w := u + Line(PLUS, Filler(n));
            var o := if kind.None? then Parse(w, depth) else Body(kind.value, w, depth);
            o.Done? ==> o.reply != Status(Filler(n))
  {
    var n := |u| + 1;
    var w := u + Line(PLUS, Filler(n));
    assert w[n] == Filler(n)[0] && w[n + 1] == Filler(n)[1];
    if kind.Some? {
      OtherText(kind.value, w, n, depth);
    } else if KindOf(w[0]).Some? {
      OtherText(KindOf(w[0]).value, w[1..], n, depth);
    }
  }

  /** With a leftover in front, or inside an array, the status line does not come out first. */
  lemma LeftoverTells(frames: seq<Frame>, kind: Option<Kind>, u: bytes)
    requires FramesOk(frames) && u != []
    ensures var t := Filler(|u| + 1);
            AllFrom(frames, kind, u + Line(PLUS, t)) != Stream([Status(t)], None)
  {
    var t := Filler(|u| + 1);
    var w := u + Line(PLUS, t);
    ItemDiffers(kind, u, |frames|);
    var o := if kind.None? then Parse(w, |frames|) else Body(kind.value, w, |frames|);
    if o.Done? && Plug(frames, o.reply, o.rest).Done? {
      if frames != [] {
        PlugArray(frames, o.reply, o.rest);
      }
      var r := Resume(frames, kind, w);
      assert AllFrom(frames, kind, w).replies[0] == r.reply;
    }
  }

  lemma PrependCancels(a: seq<Reply>, s: Stream, t: Stream)
    requires Prepend(a, s) == Prepend(a, t)
    ensures s == t
  {
    assert s.replies == (a + s.replies)[|a|..] && t.replies == (a + t.replies)[|a|..];
  }

  /** A reader that has handed out all replies of a whole stream has no byte left. */
  lemma NothingUnread(rd: Reader)
    requires rd.Valid() && rd.err == None && Whole(rd.fed) && rd.emitted == ParseAll(rd.fed).replies
    ensures rd.Unread() == []
  {
    var u := rd.Unread();
    if u != [] {
      var t := Filler(|u| + 1);
      var x := Line(PLUS, t);
      ProbeReads(|u| + 1);
      var frames, kind := if rd.ridx == -1 then [] else rd.frames, if rd.ridx == -1 then None else rd.rstack[rd.ridx].kind;
      if rd.ridx == -1 {
        SimBegins(rd.fed, rd.emitted, u);
      }
      assert SimReading(rd.fed, rd.emitted, frames, kind, u);
      PrependCancels(rd.emitted, AllFrom(frames, kind, u + x), ParseAll(x));
      LeftoverTells(frames, kind, u);
    }
  }
}
