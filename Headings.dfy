/** The heading stack (`update_heading_stack`) and the breadcrumb drawn from it
    (`heading_path`). Position `k` of the stack holds the text of the open heading of
    level `k + 1`, or the empty string when no heading of that level is open. */
module Headings {
  import opened Text

  /** `stack` extended with empty strings to at least `n` entries (prompt.py lines 47-48). */
  function Pad(stack: seq<string>, n: nat): (r: seq<string>)
    decreases n - |stack|
  {
    if |stack| >= n then stack else Pad(stack + [""], n)
  }

  /** What `update_heading_stack(stack, level, text)` returns (prompt.py lines 45-51): exactly
      `level` entries, the last of them the new heading's text, so every deeper old entry is
      gone; `UpdatedShape` states the entries before it. */
  function Updated(stack: seq<string>, level: nat, text: string): (r: seq<string>)
    requires level >= 1
    ensures |r| == level
    ensures r[level - 1] == text
  {
    PadShape(stack, level);
    Pad(stack, level)[level - 1 := text][..level]
  }

  /** The entries of the updated stack below the new level keep the old entries where the old
      stack had them and are empty where it was shorter (prompt.py lines 47-51). */
  lemma UpdatedShape(stack: seq<string>, level: nat, text: string)
    requires level >= 1
    ensures forall i :: 0 <= i < level - 1 ==>
      Updated(stack, level, text)[i] == if i < |stack| then stack[i] else ""
  {
    PadShape(stack, level);
  }

  lemma {:induction false} PadShape(stack: seq<string>, n: nat)
    decreases n - |stack|
    ensures |Pad(stack, n)| == if |stack| >= n then |stack| else n
    ensures forall i :: 0 <= i < |Pad(stack, n)| ==> Pad(stack, n)[i] == if i < |stack| then stack[i] else ""
  {
    if |stack| < n {
      PadShape(stack + [""], n);
    }
  }

  /** `update_heading_stack` (prompt.py lines 45-51): the local list is extended in place, one
      of its positions is overwritten, and a copy of its first `level` entries is returned. */
  method UpdateHeadingStack(stack: seq<string>, level: nat, text: string) returns (r: seq<string>)
    requires level >= 1
    ensures |r| == level && r[level - 1] == text
    ensures forall i :: 0 <= i < level - 1 ==> r[i] == if i < |stack| then stack[i] else ""
    ensures r == Updated(stack, level, text)
  {
    var s := stack;
    while |s| < level
      invariant |stack| <= |s| && (|s| <= level || s == stack)
      invariant forall i :: 0 <= i < |s| ==> s[i] == if i < |stack| then stack[i] else ""
    {
      s := s + [""];
    }
    s := s[level - 1 := text];
    r := s[..level];
    UpdatedShape(stack, level, text);
  }

  // ---------------------------------------------------------------------------
  // The heading path

  const PathSep := " > "

  /** An entry that the path leaves out: empty, or whitespace only. */
  predicate Blank(e: string) {
    e == "" || Strip(e) == ""
  }

  /** The parts of the path: the non-blank entries, stripped, in stack order. */
  function PathParts(stack: seq<string>): (parts: seq<string>)
    ensures |parts| <= |stack|
  {
    if stack == [] then []
    else
      var e := stack[|stack| - 1];
      PathParts(stack[..|stack| - 1]) + (if Blank(e) then [] else [Strip(e)])
  }

  /** `heading_path` (prompt.py lines 53-55): empty exactly when every entry of the stack is
      blank. */
  function HeadingPath(stack: seq<string>): (path: string)
    ensures path == "" <==> forall i :: 0 <= i < |stack| ==> Blank(stack[i])
  {
    PathPartsTrimmed(stack);
    PathPartsEmptyIff(stack);
    JoinSep(PathParts(stack), PathSep)
  }

  lemma {:induction false} PathPartsTrimmed(stack: seq<string>)
    ensures forall k :: 0 <= k < |PathParts(stack)| ==>
      PathParts(stack)[k] != "" && EdgesTrimmed(PathParts(stack)[k])
  {
    if stack != [] {
      PathPartsTrimmed(stack[..|stack| - 1]);
    }
  }

  lemma {:induction false} PathPartsEmptyIff(stack: seq<string>)
    ensures PathParts(stack) == [] <==> forall i :: 0 <= i < |stack| ==> Blank(stack[i])
  {
    if stack != [] {
      var init := stack[..|stack| - 1];
      PathPartsEmptyIff(init);
      assert forall i :: 0 <= i < |init| ==> init[i] == stack[i];
    }
  }

  /** Pushing an entry onto the stack extends the path by that entry, stripped, unless the
      entry is blank, in which case the path is unchanged. */
  lemma HeadingPathAppend(stack: seq<string>, e: string)
    ensures HeadingPath(stack + [e]) ==
      if Blank(e) then HeadingPath(stack)
      else if HeadingPath(stack) == "" then Strip(e)
      else HeadingPath(stack) + PathSep + Strip(e)
  {
    assert (stack + [e])[..|stack|] == stack;
    var tail := if Blank(e) then [] else [Strip(e)];
    assert PathParts(stack + [e]) == PathParts(stack) + tail;
    assert PathParts(stack) + [] == PathParts(stack);
    PathPartsTrimmed(stack);
    JoinSepSnoc(PathParts(stack), PathSep, Strip(e));
  }

  /** Padding with empty entries leaves the path as it was. */
  lemma {:induction false} PadKeepsPath(stack: seq<string>, n: nat)
    decreases n - |stack|
    ensures HeadingPath(Pad(stack, n)) == HeadingPath(stack)
  {
    if |stack| < n {
      PadKeepsPath(stack + [""], n);
      HeadingPathAppend(stack, "");
    }
  }

  /** A heading's own block sees the path of the shallower headings still open, followed by
      its own text: the update happens before the block is emitted (prompt.py lines 99-106). */
  lemma HeadingPathAfterUpdate(stack: seq<string>, level: nat, text: string)
    requires level >= 1 && IsNormal(text) && text != ""
    ensures HeadingPath(Updated(stack, level, text)) ==
      var above := HeadingPath(stack[..if |stack| < level - 1 then |stack| else level - 1]);
      if above == "" then text else above + PathSep + text
  {
    var kept := stack[..if |stack| < level - 1 then |stack| else level - 1];
    var path := if HeadingPath(kept) == "" then text else HeadingPath(kept) + PathSep + text;
    assert Updated(stack, level, text) == Pad(kept, level - 1) + [text] by {
      UpdatedIsPaddedPrefix(stack, level, text);
    }
    assert HeadingPath(Pad(kept, level - 1) + [text]) == path by {
      PaddedPathAppend(kept, level - 1, text);
    }
  }

  lemma PaddedPathAppend(kept: seq<string>, n: nat, text: string)
    requires IsNormal(text) && text != ""
    ensures HeadingPath(Pad(kept, n) + [text]) ==
      if HeadingPath(kept) == "" then text else HeadingPath(kept) + PathSep + text
  {
    assert HeadingPath(Pad(kept, n)) == HeadingPath(kept) by { PadKeepsPath(kept, n); }
    NormalIsUnstripped(text);
    HeadingPathAppend(Pad(kept, n), text);
  }

  /** The updated stack is the entries kept below the new level, padded, then the new text. */
  lemma UpdatedIsPaddedPrefix(stack: seq<string>, level: nat, text: string)
    requires level >= 1
    ensures Updated(stack, level, text) ==
      Pad(stack[..if |stack| < level - 1 then |stack| else level - 1], level - 1) + [text]
  {
    var kept := stack[..if |stack| < level - 1 then |stack| else level - 1];
    PadShape(kept, level - 1);
    UpdatedShape(stack, level, text);
  }

  lemma NormalIsUnstripped(text: string)
    requires IsNormal(text) && text != ""
    ensures Strip(text) == text && !Blank(text)
  {
    NormalIsFixed(text);
    CollapseFixesSingleSpaced(text);
  }

  /** The heading events (1, "A"), (2, "B"), (1, "C"): the second level-1 heading discards
      the level-2 entry, and the path is "C". */
  lemma ShallowerHeadingTruncates()
    ensures Updated(Updated(Updated([], 1, "A"), 2, "B"), 1, "C") == ["C"]
    ensures HeadingPath(["C"]) == "C"
  {
    var a := Updated([], 1, "A");
    var b := Updated(a, 2, "B");
    var c := Updated(b, 1, "C");
    assert c == ["C"];
    assert Strip("C") == "C";
    HeadingPathAppend([], "C");
    assert [] + ["C"] == ["C"];
  }

  /** The heading events (1, "A"), (3, "B"): the stack has three entries, the middle one
      empty. */
  lemma SkippedLevelStack()
    ensures Updated(Updated([], 1, "A"), 3, "B") == ["A", "", "B"]
  {
    var a := Updated([], 1, "A");
    var b := Updated(a, 3, "B");
    UpdatedShape(a, 3, "B");
    assert b == ["A", "", "B"];
  }

  lemma PathOfA()
    ensures HeadingPath(["A"]) == "A"
  {
    assert Strip("A") == "A";
    HeadingPathAppend([], "A");
    assert [] + ["A"] == ["A"];
  }

  lemma PathOfAEmpty()
    ensures HeadingPath(["A", ""]) == "A"
  {
    PathOfA();
    HeadingPathAppend(["A"], "");
    assert ["A"] + [""] == ["A", ""];
  }

  /** The path of that stack leaves the empty level out; the empty stack has the empty path. */
  lemma SkippedLevelPath()
    ensures HeadingPath(["A", "", "B"]) == "A > B"
    ensures HeadingPath([]) == ""
  {
    PathOfAEmpty();
    assert Strip("B") == "B";
    HeadingPathAppend(["A", ""], "B");
    assert ["A", ""] + ["B"] == ["A", "", "B"];
  }
}
