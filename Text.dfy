/** Whitespace handling shared by paragraph text, cell text and the heading path:
    the collapse-and-trim `re.sub(r"\s+", " ", s).strip()`, Python's `str.strip()`
    and `str.join`. */
module Text {

  /** The whitespace class of Python's `\s` on str patterns, which is also the set that
      `str.strip()` removes (`str.isspace`). */
  predicate IsWs(c: char) {
    || ('\t' <= c <= '\r')
    || ('\U{1C}' <= c <= ' ')
    || c == '\U{85}' || c == '\U{A0}' || c == '\U{1680}'
    || ('\U{2000}' <= c <= '\U{200A}')
    || c == '\U{2028}' || c == '\U{2029}' || c == '\U{202F}' || c == '\U{205F}' || c == '\U{3000}'
  }

  predicate AllWs(s: string) {
    forall i :: 0 <= i < |s| ==> IsWs(s[i])
  }

  /** The characters of `s` that are not whitespace, in order. */
  function NonWs(s: string): string {
    if s == [] then [] else (if IsWs(s[0]) then [] else [s[0]]) + NonWs(s[1..])
  }

  /** Every whitespace character is a plain space, and no two whitespace characters touch. */
  predicate SingleSpaced(s: string) {
    && (forall i :: 0 <= i < |s| && IsWs(s[i]) ==> s[i] == ' ')
    && (forall i :: 0 <= i < |s| - 1 && IsWs(s[i]) ==> !IsWs(s[i + 1]))
  }

  /** Neither the first nor the last character is whitespace. */
  predicate EdgesTrimmed(s: string) {
    s == [] || (!IsWs(s[0]) && !IsWs(s[|s| - 1]))
  }

  /** The shape of every text the extractor produces. */
  predicate IsNormal(s: string) {
    SingleSpaced(s) && EdgesTrimmed(s)
  }

  /** Python's `str.lstrip()`: the longest suffix that does not start with whitespace. */
  function StripLeft(s: string): (r: string)
    ensures |r| <= |s|
  {
    if s != [] && IsWs(s[0]) then StripLeft(s[1..]) else s
  }

  /** Python's `str.rstrip()`: the longest prefix that does not end with whitespace. */
  function StripRight(s: string): (r: string)
    ensures |r| <= |s|
  {
    if s != [] && IsWs(s[|s| - 1]) then StripRight(s[..|s| - 1]) else s
  }

  /** `lstrip` removes a whitespace prefix and nothing else, and stops at the first
      character that is not whitespace. */
  lemma {:induction false} StripLeftShape(s: string)
    ensures StripLeft(s) == s[|s| - |StripLeft(s)|..]
    ensures AllWs(s[..|s| - |StripLeft(s)|])
    ensures StripLeft(s) == [] || !IsWs(StripLeft(s)[0])
  {
    if s != [] && IsWs(s[0]) {
      var u := s[1..];
      StripLeftShape(u);
      var r := StripLeft(u);
      var n := |s| - |r|;
      assert u[|u| - |r|..] == s[n..];
      forall i | 0 <= i < n ensures IsWs(s[..n][i]) {
        if i > 0 {
          assert s[..n][i] == u[..|u| - |r|][i - 1];
        }
      }
    }
  }

  /** `rstrip` removes a whitespace suffix and nothing else, and stops at the last
      character that is not whitespace. */
  lemma {:induction false} StripRightShape(s: string)
    ensures StripRight(s) == s[..|StripRight(s)|]
    ensures AllWs(s[|StripRight(s)|..])
    ensures StripRight(s) == [] || !IsWs(StripRight(s)[|StripRight(s)| - 1])
  {
    if s != [] && IsWs(s[|s| - 1]) {
      var u := s[..|s| - 1];
      StripRightShape(u);
      var r := StripRight(u);
      var n := |r|;
      assert u[..n] == s[..n];
      forall i | 0 <= i < |s| - n ensures IsWs(s[n..][i]) {
        if i < |s| - n - 1 {
          assert s[n..][i] == u[n..][i];
        }
      }
    }
  }

  /** Python's `str.strip()`: what is left has no whitespace at either end. */
  function Strip(s: string): (r: string)
    ensures |r| <= |s| && EdgesTrimmed(r)
  {
    StripLeftShape(s);
    StripRightShape(StripLeft(s));
    var r := StripRight(StripLeft(s));
    assert r != [] ==> r[0] == StripLeft(s)[0];
    r
  }

  /** `re.sub(r"\s+", " ", s)`: every maximal run of whitespace becomes one space, so the result
      is never longer than the input, and empty only when the input is. */
  function Collapse(s: string): (r: string)
    decreases |s|
    ensures |r| <= |s| && (r == [] <==> s == [])
  {
    if s == [] then []
    else if IsWs(s[0]) then [' '] + Collapse(StripLeft(s[1..]))
    else [s[0]] + Collapse(s[1..])
  }

  /** After the collapse every whitespace character is a single plain space; the result is
      empty only for the empty input and starts with whitespace exactly when the input does. */
  lemma {:induction false} CollapseShape(s: string)
    decreases |s|
    ensures SingleSpaced(Collapse(s))
    ensures |Collapse(s)| == 0 <==> |s| == 0
    ensures Collapse(s) != [] ==> (IsWs(Collapse(s)[0]) <==> IsWs(s[0]))
  {
    if s != [] {
      var rest := if IsWs(s[0]) then StripLeft(s[1..]) else s[1..];
      StripLeftShape(s[1..]);
      CollapseShape(rest);
      var t := Collapse(rest);
      var c := if IsWs(s[0]) then ' ' else s[0];
      assert Collapse(s) == [c] + t;
      if IsWs(s[0]) && t != [] {
        assert !IsWs(t[0]);
      }
      ConsSingleSpaced(c, t);
    }
  }

  lemma ConsSingleSpaced(c: char, t: string)
    requires SingleSpaced(t) && (IsWs(c) ==> c == ' ' && (t == [] || !IsWs(t[0])))
    ensures SingleSpaced([c] + t)
  {
    var r := [c] + t;
    forall i | 0 <= i < |r| && IsWs(r[i]) ensures r[i] == ' ' {
      if i > 0 { assert r[i] == t[i - 1]; }
    }
    forall i | 0 <= i < |r| - 1 && IsWs(r[i]) ensures !IsWs(r[i + 1]) {
      if i > 0 { assert r[i] == t[i - 1] && r[i + 1] == t[i]; }
    }
  }

  /** `re.sub(r"\s+", " ", s).strip()`, the normalisation at prompt.py lines 19 and 69. The
      result has no whitespace at either end, no two adjacent whitespace characters, and a
      plain space for every whitespace run. */
  function Normalize(s: string): (r: string)
    ensures IsNormal(r)
  {
    CollapseShape(s);
    StripEdgesTrimmed(Collapse(s));
    Strip(Collapse(s))
  }

  /** Python's `sep.join(xs)`. Joining non-empty parts gives the empty string only when there
      are no parts. */
  function JoinSep(xs: seq<string>, sep: string): (r: string)
    ensures (forall k :: 0 <= k < |xs| ==> xs[k] != []) ==> (r == [] <==> xs == [])
  {
    if xs == [] then [] else if |xs| == 1 then xs[0] else xs[0] + sep + JoinSep(xs[1..], sep)
  }

  // ---------------------------------------------------------------------------
  // Non-whitespace content

  lemma NonWsCons(c: char, s: string)
    ensures NonWs([c] + s) == (if IsWs(c) then [] else [c]) + NonWs(s)
  {
    assert ([c] + s)[0] == c && ([c] + s)[1..] == s;
  }

  lemma {:induction false} NonWsAppend(a: string, b: string)
    ensures NonWs(a + b) == NonWs(a) + NonWs(b)
  {
    if a == [] {
      assert a + b == b;
    } else {
      assert a + b == [a[0]] + (a[1..] + b);
      NonWsCons(a[0], a[1..] + b);
      NonWsAppend(a[1..], b);
    }
  }

  lemma {:induction false} NonWsEmptyIff(s: string)
    ensures NonWs(s) == [] <==> AllWs(s)
  {
    if s != [] {
      NonWsEmptyIff(s[1..]);
      if AllWs(s) {
        assert AllWs(s[1..]) by {
          forall i | 0 <= i < |s[1..]| ensures IsWs(s[1..][i]) { assert s[1..][i] == s[i + 1]; }
        }
      } else if IsWs(s[0]) {
        var k :| 0 <= k < |s| && !IsWs(s[k]);
        assert s[1..][k - 1] == s[k];
      }
    }
  }

  /** A string cut into a middle and two all-whitespace ends keeps all its content in the middle. */
  lemma TrimmedEndsKeepNonWs(s: string, a: nat, b: nat)
    requires a <= b <= |s|
    requires AllWs(s[..a]) && AllWs(s[b..])
    ensures NonWs(s[a..b]) == NonWs(s)
  {
    assert s == s[..a] + s[a..b] + s[b..];
    NonWsAppend(s[..a] + s[a..b], s[b..]);
    NonWsAppend(s[..a], s[a..b]);
    NonWsEmptyIff(s[..a]);
    NonWsEmptyIff(s[b..]);
  }

  lemma StripKeepsNonWs(s: string)
    ensures NonWs(Strip(s)) == NonWs(s)
  {
    var l := StripLeft(s);
    var r := StripRight(l);
    StripLeftShape(s);
    StripRightShape(l);
    assert s[|s| - |l|..|s|] == l && s[|s|..] == [];
    TrimmedEndsKeepNonWs(s, |s| - |l|, |s|);
    assert l[0..|r|] == r && l[..0] == [];
    TrimmedEndsKeepNonWs(l, 0, |r|);
  }

  lemma {:induction false} CollapseKeepsNonWs(s: string)
    decreases |s|
    ensures NonWs(Collapse(s)) == NonWs(s)
  {
    if s != [] {
      assert s == [s[0]] + s[1..];
      NonWsCons(s[0], s[1..]);
      if IsWs(s[0]) {
        var t := StripLeft(s[1..]);
        StripLeftShape(s[1..]);
        CollapseKeepsNonWs(t);
        var u := s[1..];
        assert u[|u| - |t|..|u|] == t && u[|u|..] == [];
        TrimmedEndsKeepNonWs(u, |u| - |t|, |u|);
        NonWsCons(' ', Collapse(t));
      } else {
        CollapseKeepsNonWs(s[1..]);
        NonWsCons(s[0], Collapse(s[1..]));
      }
    }
  }

  // ---------------------------------------------------------------------------
  // The shape of a normalised text

  lemma SliceSingleSpaced(s: string, a: nat, b: nat)
    requires a <= b <= |s| && SingleSpaced(s)
    ensures SingleSpaced(s[a..b])
  {
    var t := s[a..b];
    forall i | 0 <= i < |t| - 1 && IsWs(t[i]) ensures !IsWs(t[i + 1]) {
      assert t[i] == s[a + i] && t[i + 1] == s[a + i + 1];
    }
  }

  lemma StripEdgesTrimmed(s: string)
    requires SingleSpaced(s)
    ensures SingleSpaced(Strip(s)) && EdgesTrimmed(Strip(s))
  {
    var l := StripLeft(s);
    var r := StripRight(l);
    StripLeftShape(s);
    StripRightShape(l);
    SliceSingleSpaced(s, |s| - |l|, |s|);
    SliceSingleSpaced(l, 0, |r|);
    if r != [] {
      assert r[0] == l[0];
    }
  }

  /** Normalisation neither drops nor reorders nor invents any non-whitespace character. */
  lemma NormalizeKeepsNonWs(s: string)
    ensures NonWs(Normalize(s)) == NonWs(s)
  {
    StripKeepsNonWs(Collapse(s));
    CollapseKeepsNonWs(s);
  }

  lemma NormalNonWsEmpty(s: string)
    requires IsNormal(s)
    ensures s == [] <==> NonWs(s) == []
  {
    NonWsEmptyIff(s);
  }

  /** A normalised text is empty exactly when the input held only whitespace; this is
      the test the extractor uses to skip a paragraph. */
  lemma NormalizeEmptyIff(s: string)
    ensures Normalize(s) == [] <==> AllWs(s)
  {
    NormalizeKeepsNonWs(s);
    NormalNonWsEmpty(Normalize(s));
    NonWsEmptyIff(s);
  }

  lemma {:induction false} CollapseFixesSingleSpaced(s: string)
    requires SingleSpaced(s)
    decreases |s|
    ensures Collapse(s) == s
  {
    if s != [] {
      SliceSingleSpaced(s, 1, |s|);
      CollapseFixesSingleSpaced(s[1..]);
      if IsWs(s[0]) {
        assert StripLeft(s[1..]) == s[1..];
        assert [s[0]] == [' '];
      }
      assert s == [s[0]] + s[1..];
    }
  }

  /** A text that is already normal is left alone. */
  lemma NormalIsFixed(s: string)
    requires IsNormal(s)
    ensures Normalize(s) == s
  {
    CollapseFixesSingleSpaced(s);
  }

  /** Normalising twice gives what normalising once gave. */
  lemma NormalizeIdempotent(s: string)
    ensures Normalize(Normalize(s)) == Normalize(s)
  {
    NormalIsFixed(Normalize(s));
  }

  // ---------------------------------------------------------------------------
  // Joining normal texts

  /** Joining two non-empty normal texts with one space gives a normal text. */
  lemma JoinTwoNormal(a: string, b: string)
    requires IsNormal(a) && a != [] && IsNormal(b) && b != []
    ensures IsNormal(a + " " + b)
  {
    var j := a + " " + b;
    assert forall i :: 0 <= i < |a| ==> j[i] == a[i];
    assert j[|a|] == ' ';
    assert forall i :: |a| < i < |j| ==> j[i] == b[i - |a| - 1];
    assert j[0] == a[0] && j[|j| - 1] == b[|b| - 1];
  }

  /** Joining non-empty normal texts with single spaces gives a normal text, empty only
      when there was nothing to join. */
  lemma {:induction false} JoinNormal(xs: seq<string>)
    requires forall k :: 0 <= k < |xs| ==> IsNormal(xs[k]) && xs[k] != []
    ensures IsNormal(JoinSep(xs, " "))
    ensures JoinSep(xs, " ") == [] <==> xs == []
  {
    if |xs| > 1 {
      JoinNormal(xs[1..]);
      JoinTwoNormal(xs[0], JoinSep(xs[1..], " "));
    }
  }

  /** Normalising a single-space join of non-empty normal texts changes nothing: the second
      normalisation of a cell's text (prompt.py line 69) is redundant. */
  lemma NormalizeJoinOfNormal(xs: seq<string>)
    requires forall k :: 0 <= k < |xs| ==> IsNormal(xs[k]) && xs[k] != []
    ensures Normalize(JoinSep(xs, " ")) == JoinSep(xs, " ")
  {
    JoinNormal(xs);
    NormalIsFixed(JoinSep(xs, " "));
  }

  /** Joining with one more part at the end adds the separator and that part. */
  lemma {:induction false} JoinSepSnoc(xs: seq<string>, sep: string, x: string)
    ensures JoinSep(xs + [x], sep) == if xs == [] then x else JoinSep(xs, sep) + sep + x
  {
    if |xs| == 1 {
      assert xs + [x] == [xs[0], x];
    } else if |xs| > 1 {
      var rest := JoinSep(xs[1..], sep);
      assert JoinSep(xs[1..] + [x], sep) == rest + sep + x by {
        JoinSepSnoc(xs[1..], sep, x);
      }
      assert (xs + [x])[0] == xs[0] && (xs + [x])[1..] == xs[1..] + [x];
      assert JoinSep(xs + [x], sep) == xs[0] + sep + (rest + sep + x);
      assert xs[0] + sep + (rest + sep + x) == (xs[0] + sep + rest) + sep + x;
    }
  }

  // ---------------------------------------------------------------------------
  // Collapsing a word and a whitespace run

  /** A prefix without whitespace passes through the collapse unchanged. */
  lemma {:induction false} CollapseWordPrefix(a: string, t: string)
    requires forall i :: 0 <= i < |a| ==> !IsWs(a[i])
    ensures Collapse(a + t) == a + Collapse(t)
  {
    if a != [] {
      assert (a + t)[0] == a[0] && (a + t)[1..] == a[1..] + t;
      assert forall i :: 0 <= i < |a[1..]| ==> a[1..][i] == a[i + 1];
      CollapseWordPrefix(a[1..], t);
      assert Collapse(a + t) == [a[0]] + Collapse(a[1..] + t);
      assert [a[0]] + (a[1..] + Collapse(t)) == a + Collapse(t);
    } else {
      assert a + t == t;
    }
  }

  /** Stripping whitespace in front of a text that does not start with whitespace gives that text. */
  lemma {:induction false} StripLeftRun(u: string, t: string)
    requires AllWs(u) && (t == [] || !IsWs(t[0]))
    ensures StripLeft(u + t) == t
  {
    if u != [] {
      assert (u + t)[0] == u[0] && (u + t)[1..] == u[1..] + t;
      assert AllWs(u[1..]) by {
        forall i | 0 <= i < |u[1..]| ensures IsWs(u[1..][i]) { assert u[1..][i] == u[i + 1]; }
      }
      StripLeftRun(u[1..], t);
    } else {
      assert u + t == t;
    }
  }

  /** A non-empty whitespace run in front of a text that does not start with whitespace
      becomes one space. */
  lemma CollapseRunPrefix(u: string, t: string)
    requires u != [] && AllWs(u) && (t == [] || !IsWs(t[0]))
    ensures Collapse(u + t) == " " + Collapse(t)
  {
    assert (u + t)[0] == u[0] && (u + t)[1..] == u[1..] + t;
    assert AllWs(u[1..]) by {
      forall i | 0 <= i < |u[1..]| ensures IsWs(u[1..][i]) { assert u[1..][i] == u[i + 1]; }
    }
    StripLeftRun(u[1..], t);
  }
}
