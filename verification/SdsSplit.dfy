/** sdssplitlen: cutting a byte string at every occurrence of a separator. */
module SdsSplit {
  import opened Bytes

  predicate MatchAt(s: bytes, k: nat, sep: bytes) {
    k + |sep| <= |s| && s[k..k + |sep|] == sep
  }

  /** Every token followed by the separator. */
  function Stem(tokens: seq<bytes>, sep: bytes): bytes {
    if tokens == [] then [] else tokens[0] + sep + Stem(tokens[1..], sep)
  }

  /** The tokens with the separator between them. */
  function Join(tokens: seq<bytes>, sep: bytes): bytes {
    if tokens == [] then [] else Stem(tokens[..|tokens| - 1], sep) + tokens[|tokens| - 1]
  }

  /** In the token followed by a separator, the first separator is the one at the end. */
  ghost predicate CleanInner(token: bytes, sep: bytes) {
    forall k :: 0 <= k < |token| ==> !MatchAt(token + sep, k, sep)
  }

  ghost predicate AllInner(tokens: seq<bytes>, sep: bytes) {
    forall i :: 0 <= i < |tokens| ==> CleanInner(tokens[i], sep)
  }

  ghost predicate Lacks(s: bytes, sep: bytes) {
    forall k :: 0 <= k <= |s| ==> !MatchAt(s, k, sep)
  }

  /** Cut at the leftmost occurrences and nowhere else. */
  ghost predicate Clean(tokens: seq<bytes>, sep: bytes) {
    |tokens| > 0 && Lacks(tokens[|tokens| - 1], sep) && AllInner(tokens[..|tokens| - 1], sep)
  }

  /** No token of a clean list contains the separator. */
  lemma CleanLacks(tokens: seq<bytes>, sep: bytes, i: nat)
    requires Clean(tokens, sep) && i < |tokens| && sep != []
    ensures Lacks(tokens[i], sep)
  {
    var t := tokens[i];
    if i < |tokens| - 1 {
      assert CleanInner(tokens[..|tokens| - 1][i], sep);
      forall k | 0 <= k <= |t| ensures !MatchAt(t, k, sep) {
        if MatchAt(t, k, sep) {
          assert (t + sep)[k..k + |sep|] == t[k..k + |sep|];
          assert MatchAt(t + sep, k, sep);
        }
      }
    }
  }

  lemma {:induction false} StemSnoc(tokens: seq<bytes>, t: bytes, sep: bytes)
    ensures Stem(tokens + [t], sep) == Stem(tokens, sep) + (t + sep)
  {
    var all := tokens + [t];
    if tokens == [] {
      assert all[1..] == [];
    } else {
      StemSnoc(tokens[1..], t, sep);
      assert all[0] == tokens[0] && all[1..] == tokens[1..] + [t];
      Regroup(tokens[0] + sep, Stem(tokens[1..], sep), t + sep);
    }
  }

  lemma JoinHead(tokens: seq<bytes>, sep: bytes)
    requires |tokens| > 1
    ensures Join(tokens, sep) == tokens[0] + sep + Join(tokens[1..], sep)
  {
    var init, rest := tokens[..|tokens| - 1], tokens[1..];
    assert init[0] == tokens[0] && init[1..] == rest[..|rest| - 1];
    Regroup(tokens[0] + sep, Stem(init[1..], sep), tokens[|tokens| - 1]);
  }

  // ------------------------------------------------------------ only one clean cut

  /** The first separator of a joined list is right after its first token. */
  lemma FirstCut(tokens: seq<bytes>, sep: bytes)
    requires Clean(tokens, sep) && |tokens| > 1 && sep != []
    ensures var s := Join(tokens, sep);
            MatchAt(s, |tokens[0]|, sep) && forall k :: 0 <= k < |tokens[0]| ==> !MatchAt(s, k, sep)
  {
    JoinHead(tokens, sep);
    var t, s := tokens[0], Join(tokens, sep);
    assert CleanInner(tokens[..|tokens| - 1][0], sep);
    forall k | 0 <= k < |t| ensures !MatchAt(s, k, sep) {
      assert (t + sep)[k..k + |sep|] == s[k..k + |sep|];
      assert !MatchAt(t + sep, k, sep);
    }
  }

  lemma {:induction false} CutUnique(a: seq<bytes>, b: seq<bytes>, sep: bytes)
    requires Clean(a, sep) && Clean(b, sep) && sep != [] && Join(a, sep) == Join(b, sep)
    ensures a == b
    decreases |a|
  {
    var s := Join(a, sep);
    if |a| > 1 {
      FirstCut(a, sep);
    }
    if |b| > 1 {
      FirstCut(b, sep);
    }
    if |a| == 1 || |b| == 1 {
      assert |a| == 1 ==> s == a[0];
      assert |b| == 1 ==> s == b[0];
    } else {
      SameHead(a, b, sep);
      CleanTail(a, sep);
      CleanTail(b, sep);
      CutUnique(a[1..], b[1..], sep);
      assert a == [a[0]] + a[1..] && b == [b[0]] + b[1..];
    }
  }

  lemma CleanTail(tokens: seq<bytes>, sep: bytes)
    requires Clean(tokens, sep) && |tokens| > 1
    ensures Clean(tokens[1..], sep)
  {
    var init, rest := tokens[..|tokens| - 1], tokens[1..];
    assert rest[..|rest| - 1] == init[1..];
  }

  lemma SameHead(a: seq<bytes>, b: seq<bytes>, sep: bytes)
    requires Clean(a, sep) && Clean(b, sep) && sep != [] && Join(a, sep) == Join(b, sep) && |a| > 1 && |b| > 1
    ensures a[0] == b[0] && Join(a[1..], sep) == Join(b[1..], sep)
  {
    FirstCut(a, sep);
    FirstCut(b, sep);
    CutAt(a, sep);
    CutAt(b, sep);
    assert |a[0]| == |b[0]|;
  }

  /** The first token is what comes before the first cut, the others what comes behind it. */
  lemma CutAt(tokens: seq<bytes>, sep: bytes)
    requires |tokens| > 1
    ensures var s, n := Join(tokens, sep), |tokens[0]|;
            n + |sep| <= |s| && tokens[0] == s[..n] && Join(tokens[1..], sep) == s[n + |sep|..]
  {
    JoinHead(tokens, sep);
  }

  // ------------------------------------------------------------ the loop

  /** Cutting off the text before the first separator gives a clean token. */
  lemma CutClean(s: bytes, start: nat, j: nat, sep: bytes)
    requires start <= j && MatchAt(s, j, sep) && forall k :: start <= k < j ==> !MatchAt(s, k, sep)
    ensures CleanInner(s[start..j], sep) && s[start..j] + sep == s[start..j + |sep|]
  {
    var t := s[start..j];
    assert t + s[j..j + |sep|] == s[start..j + |sep|];
    forall k | 0 <= k < |t| ensures !MatchAt(t + sep, k, sep) {
      SliceOfSlice(s, start, j + |sep|, k, k + |sep|);
      assert !MatchAt(s, start + k, sep);
    }
  }

  lemma SliceOfSlice(s: bytes, a: nat, b: nat, c: nat, d: nat)
    requires a <= b <= |s| && c <= d <= b - a
    ensures s[a..b][c..d] == s[a + c..a + d]
  {
    var w := s[a..b];
    forall i | 0 <= i < d - c ensures w[c..d][i] == s[a + c..a + d][i] {
      assert w[c..d][i] == w[c + i] == s[a + (c + i)];
    }
  }

  lemma RestLacks(s: bytes, start: nat, sep: bytes)
    requires start <= |s| && sep != [] && forall k :: start <= k <= |s| ==> !MatchAt(s, k, sep)
    ensures Lacks(s[start..], sep)
  {
    var t := s[start..];
    forall k | 0 <= k <= |t| ensures !MatchAt(t, k, sep) {
      if k + |sep| <= |t| {
        SliceOfSlice(s, start, |s|, k, k + |sep|);
        assert !MatchAt(s, start + k, sep);
      }
    }
  }

  lemma Advance(tokens: seq<bytes>, s: bytes, start: nat, j: nat, sep: bytes)
    requires start <= j && MatchAt(s, j, sep) && Stem(tokens, sep) == s[..start]
    requires AllInner(tokens, sep) && forall k :: start <= k < j ==> !MatchAt(s, k, sep)
    ensures Stem(tokens + [s[start..j]], sep) == s[..j + |sep|] && AllInner(tokens + [s[start..j]], sep)
  {
    CutClean(s, start, j, sep);
    var t := s[start..j];
    StemSnoc(tokens, t, sep);
    Spliced(s, start, j + |sep|);
    assert Stem(tokens, sep) + (t + sep) == s[..j + |sep|];
    InnerSnoc(tokens, t, sep);
  }

  lemma InnerSnoc(tokens: seq<bytes>, t: bytes, sep: bytes)
    requires AllInner(tokens, sep) && CleanInner(t, sep)
    ensures AllInner(tokens + [t], sep)
  {
  }

  lemma Spliced(s: bytes, a: nat, b: nat)
    requires a <= b <= |s|
    ensures s[..a] + s[a..b] == s[..b]
  {
  }

  lemma Finish(tokens: seq<bytes>, s: bytes, start: nat, sep: bytes)
    requires start <= |s| && sep != [] && forall k :: start <= k <= |s| ==> !MatchAt(s, k, sep)
    requires Stem(tokens, sep) == s[..start] && AllInner(tokens, sep)
    ensures Clean(tokens + [s[start..]], sep) && Join(tokens + [s[start..]], sep) == s
  {
    RestLacks(s, start, sep);
    assert (tokens + [s[start..]])[..|tokens|] == tokens;
  }

  /** Room for one more element and the final one, as realloc gives it. */
  method Grow(tokens: array<bytes>, elements: nat) returns (grown: array<bytes>)
    requires 0 < tokens.Length < elements + 2 && elements <= tokens.Length
    ensures fresh(grown) && grown.Length == 2 * tokens.Length && grown[..elements] == tokens[..elements]
  {
    grown := new bytes[2 * tokens.Length](_ => []);
    forall k | 0 <= k < elements {
      grown[k] := tokens[k];
    }
  }

  method SplitLen(s: bytes, sep: bytes) returns (tokens: array?<bytes>, count: nat)
    ensures tokens == null <==> sep == []
    ensures tokens != null ==> count <= tokens.Length
    ensures tokens != null && s == [] ==> count == 0
    ensures tokens != null && s != [] ==> Clean(tokens[..count], sep) && Join(tokens[..count], sep) == s
  {
    count := 0;
    if |sep| < 1 {
      return null, 0;
    }
    var out := new bytes[5](_ => []);
    if |s| == 0 {
      return out, 0;
    }
    var elements, start, j := 0, 0, 0;
    while j < |s| - (|sep| - 1)
      invariant 0 <= start <= j <= |s| && fresh(out)
      invariant elements <= out.Length - 1 && out.Length >= 5
      invariant Stem(out[..elements], sep) == s[..start]
      invariant AllInner(out[..elements], sep)
      invariant forall k :: start <= k < j ==> !MatchAt(s, k, sep)
      decreases |s| - j
    {
      if out.Length < elements + 2 {
        out := Grow(out, elements);
      }
      if s[j..j + |sep|] == sep {
        Advance(out[..elements], s, start, j, sep);
        ghost var before := out[..elements];
        out[elements] := s[start..j];
        assert out[..elements + 1] == before + [s[start..j]];
        elements := elements + 1;
        start := j + |sep|;
        j := j + |sep| - 1;
      }
      j := j + 1;
    }
    Finish(out[..elements], s, start, sep);
    ghost var before := out[..elements];
    out[elements] := s[start..];
    elements := elements + 1;
    tokens, count := out, elements;
    assert out[..count] == before + [s[start..]];
  }

  /** Joining and splitting again gives back exactly the clean lists, save the list of one empty token. */
  method SplitJoined(parts: seq<bytes>, sep: bytes) returns (tokens: array<bytes>, count: nat)
    requires sep != [] && parts != []
    ensures count <= tokens.Length && (tokens[..count] == parts <==> Clean(parts, sep) && parts != [[]])
  {
    var r;
    r, count := SplitLen(Join(parts, sep), sep);
    tokens := r;
    if Clean(parts, sep) {
      if Join(parts, sep) == [] {
        if |parts| > 1 {
          JoinHead(parts, sep);
        }
        assert parts == [parts[0]] && parts[0] == [];
      } else {
        CutUnique(tokens[..count], parts, sep);
      }
    }
  }

  /** A list can fail to come back although no token contains the separator: xa and y, joined by aa, are cut after x. */
  lemma CutEarly()
    ensures var parts: seq<bytes>, sep: bytes := [[120, 97], [121]], [97, 97];
            (forall i :: 0 <= i < |parts| ==> Lacks(parts[i], sep)) && !Clean(parts, sep)
  {
    var token: bytes, sep: bytes := [120, 97], [97, 97];
    assert !MatchAt(token, 0, sep) by {
      assert token[0] != sep[0];
    }
    assert (token + sep)[1..3] == sep;
    assert MatchAt(token + sep, 1, sep);
    assert [token, [121]][..1][0] == token;
  }
}
