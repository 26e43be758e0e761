/** What the extractor reads from one `w:p` element: its text (`get_text_from_paragraph`),
    its style identifier (`get_paragraph_style`) and the heading level that identifier
    names (`heading_level_from_style`). */
module Paragraph {
  import opened Wrappers
  import opened Text
  import opened Xml

  // ---------------------------------------------------------------------------
  // Text

  /** The `.text` values of the `w:t` elements `ts` that are present and non-empty, in order. */
  function RunTexts(ts: seq<Element>): (r: seq<string>)
    ensures |r| <= |ts|
    ensures forall k :: 0 <= k < |r| ==> r[k] != ""
  {
    if ts == [] then []
    else
      var last := ts[|ts| - 1];
      RunTexts(ts[..|ts| - 1]) + (if last.text.Some? && last.text.value != "" then [last.text.value] else [])
  }

  /** The text of paragraph `p`: every `w:t` below it, concatenated, then normalised. */
  function ParagraphText(p: Element): string {
    Normalize(JoinSep(RunTexts(Descendants(p, TagT)), ""))
  }

  /** `get_text_from_paragraph` (prompt.py lines 11-20). */
  method GetTextFromParagraph(p: Element) returns (text: string)
    ensures text == ParagraphText(p)
    ensures IsNormal(text)
    ensures text == "" <==> AllWs(JoinSep(RunTexts(Descendants(p, TagT)), ""))
  {
    var texts: seq<string> := [];
    var ts := Descendants(p, TagT);
    for k := 0 to |ts|
      invariant texts == RunTexts(ts[..k])
    {
      assert ts[..k + 1][..k] == ts[..k];
      var t := ts[k];
      if t.text.Some? && t.text.value != "" {
        texts := texts + [t.text.value];
      }
    }
    assert ts[..|ts|] == ts;
    var joined := JoinSep(texts, "");
    text := Normalize(joined);
    NormalizeEmptyIff(joined);
  }

  /** Every paragraph text is normal, and it is empty exactly when all of the paragraph's
      `w:t` text is whitespace. */
  lemma ParagraphTextIsNormal(p: Element)
    ensures IsNormal(ParagraphText(p))
    ensures ParagraphText(p) == "" <==> AllWs(JoinSep(RunTexts(Descendants(p, TagT)), ""))
  {
    NormalizeEmptyIff(JoinSep(RunTexts(Descendants(p, TagT)), ""));
  }

  // ---------------------------------------------------------------------------
  // Style

  /** `p`'s first `w:pPr` child has a first `w:pStyle` child whose `w:val` attribute is `v`. */
  ghost predicate StyleValue(p: Element, v: string) {
    exists i :: 0 <= i < |p.children| && IsFirstNamed(p.children, TagPPr, i) &&
      exists j :: 0 <= j < |p.children[i].children| && IsFirstNamed(p.children[i].children, TagPStyle, j) &&
        AttrVal in p.children[i].children[j].attrs && p.children[i].children[j].attrs[AttrVal] == v
  }

  /** `get_paragraph_style` (prompt.py lines 22-29): the `w:val` of the style chain when every
      link of it is present, otherwise the empty string. */
  function ParagraphStyle(p: Element): (style: string)
    ensures style == "" || StyleValue(p, style)
    ensures forall v :: StyleValue(p, v) ==> style == v
  {
    match FirstChild(p, TagPPr)
    case None => ""
    case Some(pPr) =>
      match FirstChild(pPr, TagPStyle)
      case None => ""
      case Some(pStyle) => if AttrVal in pStyle.attrs then pStyle.attrs[AttrVal] else ""
  }

  /** The three missing links of the style chain each give the empty style. */
  lemma MissingStyleLinkGivesEmpty(p: Element)
    ensures (forall i :: 0 <= i < |p.children| ==> p.children[i].tag != TagPPr) ==> ParagraphStyle(p) == ""
    ensures forall pPr ::
      (FirstChild(p, TagPPr) == Some(pPr) &&
       forall j :: 0 <= j < |pPr.children| ==> pPr.children[j].tag != TagPStyle)
      ==> ParagraphStyle(p) == ""
    ensures forall pPr, pStyle ::
      (FirstChild(p, TagPPr) == Some(pPr) && FirstChild(pPr, TagPStyle) == Some(pStyle) && AttrVal !in pStyle.attrs)
      ==> ParagraphStyle(p) == ""
  {
  }

  // ---------------------------------------------------------------------------
  // Heading level

  /** ASCII lower-casing of one character. */
  function LowerChar(c: char): (r: char)
    ensures 'A' <= c <= 'Z' ==> r as int == c as int + 32
    ensures !('A' <= c <= 'Z') ==> r == c
  {
    if 'A' <= c <= 'Z' then (c as int + 32) as char else c
  }

  predicate IsUpper(c: char) {
    'A' <= c <= 'Z'
  }

  /** `str.lower()` on the characters that decide a heading match: no upper-case ASCII letter
      is left, and every other character stays where it was. */
  function Lower(s: string): (r: string)
    ensures |r| == |s|
    ensures forall i :: 0 <= i < |r| ==> !IsUpper(r[i])
    ensures forall i :: 0 <= i < |s| && !IsUpper(s[i]) ==> r[i] == s[i]
  {
    seq(|s|, i requires 0 <= i < |s| => LowerChar(s[i]))
  }

  /** Lower-casing twice gives what lower-casing once gave. */
  lemma LowerIdempotent(s: string)
    ensures Lower(Lower(s)) == Lower(s)
  {
    assert forall i :: 0 <= i < |s| ==> Lower(Lower(s))[i] == Lower(s)[i];
  }

  /** `c` is the lower-case letter `lc`, or that letter in upper case. */
  predicate SameLetterIgnoringCase(c: char, lc: char) {
    c == lc || ('a' <= lc <= 'z' && c as int == lc as int - 32)
  }

  /** After lower-casing, a lower-case word occurs at `i` exactly when the original holds it
      there in any mix of cases: the test `"heading" in s` (prompt.py lines 34-35) accepts
      `Heading`, `HEADING` and `heading` alike. */
  lemma LowerOccursIgnoringCase(s: string, w: string, i: nat)
    requires forall k :: 0 <= k < |w| ==> 'a' <= w[k] <= 'z'
    requires i + |w| <= |s|
    ensures Lower(s)[i..i + |w|] == w <==> forall k :: 0 <= k < |w| ==> SameLetterIgnoringCase(s[i + k], w[k])
  {
    var l := Lower(s)[i..i + |w|];
    forall k | 0 <= k < |w| ensures l[k] == w[k] <==> SameLetterIgnoringCase(s[i + k], w[k]) {
      assert l[k] == LowerChar(s[i + k]);
    }
    if forall k :: 0 <= k < |w| ==> SameLetterIgnoringCase(s[i + k], w[k]) {
      assert forall k :: 0 <= k < |w| ==> l[k] == w[k];
    }
  }

  predicate IsDigit(c: char) {
    '0' <= c <= '9'
  }

  /** `sub` occurs in `s` starting at position `i`. */
  predicate OccursAt(s: string, sub: string, i: int) {
    0 <= i <= |s| - |sub| && s[i..i + |sub|] == sub
  }

  /** The substring test `sub in s`. */
  function Contains(s: string, sub: string): (b: bool)
    decreases |s|
    ensures b <==> exists i :: OccursAt(s, sub, i)
  {
    if |s| < |sub| then false
    else if s[..|sub|] == sub then assert OccursAt(s, sub, 0); true
    else
      var b := Contains(s[1..], sub);
      assert b <==> exists i :: OccursAt(s, sub, i) by {
        if b {
          var i :| OccursAt(s[1..], sub, i);
          assert s[1..][i..i + |sub|] == s[i + 1..i + 1 + |sub|];
          assert OccursAt(s, sub, i + 1);
        }
        if exists i :: OccursAt(s, sub, i) {
          var i :| OccursAt(s, sub, i);
          assert i != 0;
          assert s[1..][i - 1..i - 1 + |sub|] == s[i..i + |sub|];
          assert OccursAt(s[1..], sub, i - 1);
        }
      }
      b
  }

  /** The end of the whitespace run of `s` that starts at `j`. */
  function SkipWs(s: string, j: nat): (k: nat)
    requires j <= |s|
    decreases |s| - j
    ensures j <= k <= |s| && (k == |s| || !IsWs(s[k]))
    ensures forall m :: j <= m < k ==> IsWs(s[m])
  {
    if j < |s| && IsWs(s[j]) then SkipWs(s, j + 1) else j
  }

  /** The end of the digit run of `s` that starts at `j`. */
  function SkipDigits(s: string, j: nat): (k: nat)
    requires j <= |s|
    decreases |s| - j
    ensures j <= k <= |s| && (k == |s| || !IsDigit(s[k]))
    ensures forall m :: j <= m < k ==> IsDigit(s[m])
  {
    if j < |s| && IsDigit(s[j]) then SkipDigits(s, j + 1) else j
  }

  const HeadingWord := "heading"

  /** The pattern `heading\s*([0-9]+)` matches `s` at position `i`: since no digit is
      whitespace, `\s*` can only take the whole whitespace run after the word. */
  predicate MatchAt(s: string, i: nat) {
    && i + |HeadingWord| <= |s|
    && s[i..i + |HeadingWord|] == HeadingWord
    && SkipWs(s, i + |HeadingWord|) < |s|
    && IsDigit(s[SkipWs(s, i + |HeadingWord|)])
  }

  /** The match at `i` is the leftmost one, the one `re.search` reports. */
  predicate IsFirstMatch(s: string, i: nat) {
    MatchAt(s, i) && forall k :: 0 <= k < i ==> !MatchAt(s, k)
  }

  /** The digit run that `([0-9]+)` captures for the match at `i`. */
  function MatchDigits(s: string, i: nat): (ds: string)
    requires MatchAt(s, i)
    ensures ds != [] && forall m :: 0 <= m < |ds| ==> IsDigit(ds[m])
  {
    var k := SkipWs(s, i + |HeadingWord|);
    s[k..SkipDigits(s, k)]
  }

  /** CPython's default bound on the number of digits `int()` accepts from a decimal string
      (`sys.get_int_max_str_digits()`, Python 3.11 and later). */
  const IntMaxStrDigits := 4300

  /** `int(ds)` on a string of ASCII digits: `None` where CPython raises `ValueError` because
      the string has more digits than the bound. */
  function IntOfDigits(ds: string): Option<nat>
    requires forall m :: 0 <= m < |ds| ==> IsDigit(ds[m])
  {
    if |ds| > IntMaxStrDigits then None else Some(DecimalValue(ds))
  }

  /** The decimal value of a string of ASCII digits. */
  function DecimalValue(ds: string): (n: nat)
    requires forall m :: 0 <= m < |ds| ==> IsDigit(ds[m])
  {
    if ds == [] then 0
    else
      var d := ds[|ds| - 1];
      assert IsDigit(d);
      DecimalValue(ds[..|ds| - 1]) * 10 + (d as int - '0' as int)
  }

  /** `re.search(r"heading\s*([0-9]+)", s)` from position `from` on: the leftmost match. */
  function FindMatch(s: string, from: nat): (r: Option<nat>)
    decreases |s| - from
    ensures r.None? ==> forall k :: from <= k ==> !MatchAt(s, k)
    ensures r.Some? ==> from <= r.value && MatchAt(s, r.value) && forall k :: from <= k < r.value ==> !MatchAt(s, k)
  {
    if from + |HeadingWord| > |s| then None
    else if MatchAt(s, from) then Some(from)
    else FindMatch(s, from + 1)
  }

  /** `heading_level_from_style` (prompt.py lines 31-43). The `except` branch is taken when the
      captured digits are more than `int()` converts. */
  function HeadingLevel(style: string): (lvl: nat)
    ensures style == "" ==> lvl == 0
  {
    if style == "" then 0
    else
      var s := Lower(style);
      MatchIsOccurrence(s);
      if !Contains(s, HeadingWord) then 0
      else
        match FindMatch(s, 0)
        case None => 0
        case Some(i) =>
          assert IsFirstMatch(s, i);
          FirstMatchUnique(s, i);
          match IntOfDigits(MatchDigits(s, i))
          case None => 0
          case Some(n) => n
  }

  /** What `HeadingLevel` computes: no level without "heading" in the lower-cased style,
      otherwise the value of the digits after its first occurrence that is followed by a digit,
      unless there are more of them than `int()` converts. */
  lemma HeadingLevelMeaning(style: string)
    ensures !Contains(Lower(style), HeadingWord) ==> HeadingLevel(style) == 0
    ensures (forall i: nat :: !MatchAt(Lower(style), i)) ==> HeadingLevel(style) == 0
    ensures forall i: nat :: IsFirstMatch(Lower(style), i) && |MatchDigits(Lower(style), i)| <= IntMaxStrDigits ==>
      HeadingLevel(style) == DecimalValue(MatchDigits(Lower(style), i))
    ensures forall i: nat :: IsFirstMatch(Lower(style), i) && |MatchDigits(Lower(style), i)| > IntMaxStrDigits ==>
      HeadingLevel(style) == 0
  {
    var s := Lower(style);
    MatchIsOccurrence(s);
    if style != "" && Contains(s, HeadingWord) {
      match FindMatch(s, 0)
      case None =>
      case Some(i) =>
        FirstMatchUnique(s, i);
    }
  }

  lemma MatchIsOccurrence(s: string)
    ensures forall i: nat :: MatchAt(s, i) ==> OccursAt(s, HeadingWord, i)
  {
  }

  /** There is at most one leftmost match. */
  lemma FirstMatchUnique(s: string, i: nat)
    requires IsFirstMatch(s, i)
    ensures forall j: nat :: IsFirstMatch(s, j) ==> j == i
  {
  }

  /** `MatchAt` is the regular expression's own notion of a match: the word, any amount of
      whitespace (possibly none), then at least one digit. */
  lemma MatchAtIsRegexMatch(s: string, i: nat)
    ensures MatchAt(s, i) <==>
      (i + |HeadingWord| <= |s| && s[i..i + |HeadingWord|] == HeadingWord &&
       exists k :: i + |HeadingWord| <= k < |s| && AllWs(s[i + |HeadingWord|..k]) && IsDigit(s[k]))
  {
    if i + |HeadingWord| <= |s| && s[i..i + |HeadingWord|] == HeadingWord {
      var j := i + |HeadingWord|;
      if exists k :: j <= k < |s| && AllWs(s[j..k]) && IsDigit(s[k]) {
        var k :| j <= k < |s| && AllWs(s[j..k]) && IsDigit(s[k]);
        RunThenDigitIsSkip(s, j, k);
      }
      if MatchAt(s, i) {
        SkippedRunIsWs(s, j);
      }
    }
  }

  /** A whitespace run from `j` to `k` followed by a digit ends where `SkipWs` stops. */
  lemma RunThenDigitIsSkip(s: string, j: nat, k: nat)
    requires j <= k < |s| && AllWs(s[j..k]) && IsDigit(s[k])
    ensures SkipWs(s, j) == k
  {
    forall m | j <= m < k ensures IsWs(s[m]) { assert s[j..k][m - j] == s[m]; }
    assert !IsWs(s[k]);
  }

  /** What `SkipWs` skips is whitespace. */
  lemma SkippedRunIsWs(s: string, j: nat)
    requires j <= |s|
    ensures AllWs(s[j..SkipWs(s, j)])
  {
    var e := SkipWs(s, j);
    forall m | 0 <= m < |s[j..e]| ensures IsWs(s[j..e][m]) { assert s[j..e][m] == s[j + m]; }
  }

  /** A heading style names level zero exactly when its digits are all zeros ("Heading0"),
      which the extractor then treats as a non-heading. */
  lemma {:induction false} DecimalValueZeroIff(ds: string)
    requires forall m :: 0 <= m < |ds| ==> IsDigit(ds[m])
    ensures DecimalValue(ds) == 0 <==> forall m :: 0 <= m < |ds| ==> ds[m] == '0'
  {
    if ds != [] {
      var init := ds[..|ds| - 1];
      DecimalValueZeroIff(init);
      assert forall m :: 0 <= m < |init| ==> init[m] == ds[m];
    }
  }

  /** Worked example: the built-in heading style identifier. */
  lemma HeadingLevelExample()
    ensures HeadingLevel("Heading1") == 1
  {
    var s := Lower("Heading1");
    assert s == "heading1";
    assert MatchAt(s, 0);
    assert SkipWs(s, 7) == 7;
    assert SkipDigits(s, 7) == 8;
    assert s[7..8] == "1";
    assert DecimalValue("1") == 1;
  }

  lemma {:induction false} SkipDigitsToEnd(s: string, j: nat)
    requires j <= |s| && forall m :: j <= m < |s| ==> IsDigit(s[m])
    decreases |s| - j
    ensures SkipDigits(s, j) == |s|
  {
    if j < |s| {
      SkipDigitsToEnd(s, j + 1);
    }
  }

  /** Lower-casing leaves a string without upper-case ASCII letters unchanged. */
  lemma LowerFixesNoUpper(s: string)
    requires forall i :: 0 <= i < |s| ==> !IsUpper(s[i])
    ensures Lower(s) == s
  {
    assert forall i :: 0 <= i < |s| ==> Lower(s)[i] == s[i];
  }

  lemma HeadingThenDigitsNoUpper(ds: string)
    requires forall m :: 0 <= m < |ds| ==> IsDigit(ds[m])
    ensures forall i :: 0 <= i < |HeadingWord + ds| ==> !IsUpper((HeadingWord + ds)[i])
  {
    var style := HeadingWord + ds;
    forall i | 0 <= i < |style| ensures !IsUpper(style[i]) {
      if i >= |HeadingWord| {
        assert style[i] == ds[i - |HeadingWord|];
      }
    }
  }

  /** In `heading` followed by digits, the match is at the front and captures all the digits. */
  lemma HeadingThenDigitsMatch(ds: string)
    requires ds != [] && forall m :: 0 <= m < |ds| ==> IsDigit(ds[m])
    ensures IsFirstMatch(HeadingWord + ds, 0) && MatchDigits(HeadingWord + ds, 0) == ds
  {
    var s := HeadingWord + ds;
    var n := |HeadingWord|;
    assert s[0..n] == HeadingWord;
    assert s[n] == ds[0];
    assert SkipWs(s, n) == n;
    SkipDigitsToEnd(s, n);
    assert s[n..|s|] == ds;
  }

  /** The style `heading` followed by a string of digits names the level those digits spell
      while there are at most 4300 of them; with more, `int()` raises and the level is 0, so
      `heading` followed by 4301 ones names no heading. */
  lemma HeadingDigitsLevel(ds: string)
    requires ds != [] && forall m :: 0 <= m < |ds| ==> IsDigit(ds[m])
    ensures HeadingLevel(HeadingWord + ds) == if |ds| > IntMaxStrDigits then 0 else DecimalValue(ds)
  {
    HeadingThenDigitsNoUpper(ds);
    LowerFixesNoUpper(HeadingWord + ds);
    HeadingThenDigitsMatch(ds);
  }
}
