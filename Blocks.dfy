/** `docx_to_blocks`: one forward walk over the direct children of `w:body` that emits a
    paragraph block for every paragraph with text and a table block for every table, each
    numbered from 1 and labelled with the heading path in force at that point. */
module Blocks {
  import opened Wrappers
  import opened Text
  import opened Xml
  import opened Paragraph
  import opened Headings
  import opened Tables

  /** The emitted records (the dictionaries built at prompt.py lines 103-109 and 114-119). */
  datatype Block =
    | ParagraphBlock(index: nat, headingPath: string, style: string, text: string)
    | TableBlock(index: nat, headingPath: string, rows: seq<seq<string>>)

  /** The walk's state between two children: the blocks so far, the heading stack and the
      index the next block will carry. */
  datatype Walk = Walk(blocks: seq<Block>, stack: seq<string>, next: nat)

  const Start := Walk([], [], 1)

  /** A paragraph whose style names a level above zero and whose text is not empty: the only
      kind of child that changes the heading stack (prompt.py line 99). */
  predicate IsHeading(c: Element) {
    c.tag == TagP && HeadingLevel(ParagraphStyle(c)) > 0 && ParagraphText(c) != ""
  }

  /** One iteration of the loop at prompt.py lines 91-120. */
  function Step(w: Walk, c: Element): Walk {
    if c.tag == TagP then
      var style := ParagraphStyle(c);
      var text := ParagraphText(c);
      var lvl := HeadingLevel(style);
      var stack := if lvl > 0 && text != "" then Updated(w.stack, lvl, text) else w.stack;
      if text != "" then Walk(w.blocks + [ParagraphBlock(w.next, HeadingPath(stack), style, text)], stack, w.next + 1)
      else Walk(w.blocks, stack, w.next)
    else if c.tag == TagTbl then
      Walk(w.blocks + [TableBlock(w.next, HeadingPath(w.stack), TableRows(c))], w.stack, w.next + 1)
    else
      w
  }

  /** One step appends at most one block, for a table or a paragraph with text, and leaves the
      earlier blocks alone; the counter moves with the blocks, and only a heading changes the
      stack. */
  lemma StepShape(w: Walk, c: Element)
    ensures |Step(w, c).blocks| == |w.blocks| + (if Emits(c) then 1 else 0)
    ensures Step(w, c).blocks[..|w.blocks|] == w.blocks
    ensures Step(w, c).next == w.next + (if Emits(c) then 1 else 0)
    ensures !IsHeading(c) ==> Step(w, c).stack == w.stack
  {
  }

  /** The state after walking the children `cs` from state `w`. */
  function WalkFrom(w: Walk, cs: seq<Element>): Walk {
    if cs == [] then w else Step(WalkFrom(w, cs[..|cs| - 1]), cs[|cs| - 1])
  }

  /** The blocks of the document whose root element is `root`: none without a `w:body`, and
      otherwise numbered 1, 2, ... in order. */
  function BodyBlocks(root: Element): (blocks: seq<Block>)
    ensures FirstChild(root, TagBody).None? ==> blocks == []
    ensures forall k :: 0 <= k < |blocks| ==> blocks[k].index == k + 1
  {
    match FirstChild(root, TagBody)
    case None => []
    case Some(body) => WalkIndexed(Start, body.children); WalkFrom(Start, body.children).blocks
  }

  /** `docx_to_blocks` (prompt.py lines 80-122) on the already parsed root element. */
  method DocxToBlocks(root: Element) returns (blocks: seq<Block>)
    ensures blocks == BodyBlocks(root)
    ensures forall k :: 0 <= k < |blocks| ==> blocks[k].index == k + 1
    ensures FirstChild(root, TagBody).None? ==> blocks == []
  {
    var body := FirstChild(root, TagBody);
    if body.None? {
      return [];
    }
    blocks := [];
    var hstack: seq<string> := [];
    var idx := 1;
    var children := body.value.children;
    for i := 0 to |children|
      invariant Walk(blocks, hstack, idx) == WalkFrom(Start, children[..i])
    {
      WalkFromStep(Start, children, i);
      var child := children[i];
      if child.tag == TagP {
        var style := ParagraphStyle(child);
        var text := GetTextFromParagraph(child);
        var lvl := HeadingLevel(style);
        if lvl > 0 && text != "" {
          hstack := UpdateHeadingStack(hstack, lvl, text);
        }
        if text != "" {
          blocks := blocks + [ParagraphBlock(idx, HeadingPath(hstack), style, text)];
          idx := idx + 1;
        }
      } else if child.tag == TagTbl {
        var rows := ParseTable(child);
        blocks := blocks + [TableBlock(idx, HeadingPath(hstack), rows)];
        idx := idx + 1;
      }
    }
    assert children[..|children|] == children;
    WalkIndexed(Start, children);
  }

  lemma WalkFromStep(w: Walk, cs: seq<Element>, i: nat)
    requires i < |cs|
    ensures WalkFrom(w, cs[..i + 1]) == Step(WalkFrom(w, cs[..i]), cs[i])
  {
    assert cs[..i + 1][..i] == cs[..i];
  }

  // ---------------------------------------------------------------------------
  // Indices

  /** The blocks so far carry the indices 1, 2, ... in order, and the counter is one past. */
  predicate Indexed(w: Walk) {
    w.next == |w.blocks| + 1 && forall k :: 0 <= k < |w.blocks| ==> w.blocks[k].index == k + 1
  }

  /** Every walk keeps the indices contiguous: the emitted indices are exactly 1..n in order. */
  lemma {:induction false} WalkIndexed(w: Walk, cs: seq<Element>)
    requires Indexed(w)
    ensures Indexed(WalkFrom(w, cs))
  {
    if cs != [] {
      WalkIndexed(w, cs[..|cs| - 1]);
    }
  }

  // ---------------------------------------------------------------------------
  // Which children emit which blocks

  /** A child that emits a block: every table, and every paragraph whose text is not empty. */
  predicate Emits(c: Element) {
    c.tag == TagTbl || (c.tag == TagP && ParagraphText(c) != "")
  }

  /** The children that emit a block, in order. */
  function Emitting(cs: seq<Element>): seq<Element> {
    if cs == [] then []
    else Emitting(cs[..|cs| - 1]) + (if Emits(cs[|cs| - 1]) then [cs[|cs| - 1]] else [])
  }

  /** Block `b` is the one child `c` gives rise to. */
  predicate Describes(b: Block, c: Element) {
    match b
    case ParagraphBlock(_, _, style, text) => c.tag == TagP && style == ParagraphStyle(c) && text == ParagraphText(c)
    case TableBlock(_, _, rows) => c.tag == TagTbl && rows == TableRows(c)
  }

  /** The walk appends exactly one block per emitting child, in the children's order, and
      leaves the earlier blocks alone; paragraphs without text and children other than
      `w:p` and `w:tbl` emit nothing. */
  lemma {:induction false} WalkEmitsInOrder(w: Walk, cs: seq<Element>)
    ensures |WalkFrom(w, cs).blocks| == |w.blocks| + |Emitting(cs)|
    ensures WalkFrom(w, cs).blocks[..|w.blocks|] == w.blocks
    ensures forall k :: 0 <= k < |Emitting(cs)| ==>
      Describes(WalkFrom(w, cs).blocks[|w.blocks| + k], Emitting(cs)[k])
  {
    if cs != [] {
      var init := cs[..|cs| - 1];
      var c := cs[|cs| - 1];
      WalkEmitsInOrder(w, init);
      var v := WalkFrom(w, init);
      assert v.blocks[..|w.blocks|] == w.blocks;
      if Emits(c) {
        assert Step(v, c).blocks == v.blocks + [Step(v, c).blocks[|v.blocks|]];
        assert Describes(Step(v, c).blocks[|v.blocks|], c);
      } else {
        assert Step(v, c).blocks == v.blocks;
      }
    }
  }

  // ---------------------------------------------------------------------------
  // The heading stack along the walk

  /** Every stack entry is either an unset level (the empty string) or the normal, non-empty
      text of a heading paragraph. */
  predicate StackWellFormed(stack: seq<string>) {
    forall i :: 0 <= i < |stack| ==> stack[i] == "" || (IsNormal(stack[i]) && stack[i] != "")
  }

  /** Only a heading changes the stack, and it keeps every entry `""` or a heading's text. */
  lemma StepKeepsStackWellFormed(w: Walk, c: Element)
    requires StackWellFormed(w.stack)
    ensures !IsHeading(c) ==> Step(w, c).stack == w.stack
    ensures IsHeading(c) ==> Step(w, c).stack == Updated(w.stack, HeadingLevel(ParagraphStyle(c)), ParagraphText(c))
    ensures StackWellFormed(Step(w, c).stack)
  {
    if IsHeading(c) {
      ParagraphTextIsNormal(c);
      UpdatedKeepsStackWellFormed(w.stack, HeadingLevel(ParagraphStyle(c)), ParagraphText(c));
    } else {
      assert Step(w, c).stack == w.stack;
    }
  }

  lemma UpdatedKeepsStackWellFormed(stack: seq<string>, level: nat, text: string)
    requires StackWellFormed(stack) && level >= 1 && IsNormal(text) && text != ""
    ensures StackWellFormed(Updated(stack, level, text))
  {
    UpdatedShape(stack, level, text);
  }

  /** From the empty stack, the walk only ever holds empty entries and heading texts. */
  lemma {:induction false} WalkKeepsStackWellFormed(w: Walk, cs: seq<Element>)
    requires StackWellFormed(w.stack)
    ensures StackWellFormed(WalkFrom(w, cs).stack)
  {
    if cs != [] {
      WalkKeepsStackWellFormed(w, cs[..|cs| - 1]);
      StepKeepsStackWellFormed(WalkFrom(w, cs[..|cs| - 1]), cs[|cs| - 1]);
    }
  }

  /** A run of children without a heading among them (tables, plain paragraphs, anything
      else) leaves the stack as it was, and every block it emits shows the path in force
      before the run: tables never change the heading path (prompt.py lines 112-118). */
  lemma {:induction false} NonHeadingsKeepStack(w: Walk, cs: seq<Element>)
    requires forall i :: 0 <= i < |cs| ==> !IsHeading(cs[i])
    ensures WalkFrom(w, cs).stack == w.stack
    ensures |WalkFrom(w, cs).blocks| >= |w.blocks|
    ensures forall k :: |w.blocks| <= k < |WalkFrom(w, cs).blocks| ==>
      WalkFrom(w, cs).blocks[k].headingPath == HeadingPath(w.stack)
  {
    if cs != [] {
      var init := cs[..|cs| - 1];
      NonHeadingsKeepStack(w, init);
      assert !IsHeading(cs[|cs| - 1]);
    }
  }

  /** A heading paragraph's own block already shows the heading's text at the end of its
      path, after the texts of the shallower headings still open (prompt.py lines 99-106). */
  lemma HeadingBlockShowsOwnText(w: Walk, c: Element)
    requires IsHeading(c)
    ensures
      var lvl := HeadingLevel(ParagraphStyle(c));
      var above := HeadingPath(w.stack[..if |w.stack| < lvl - 1 then |w.stack| else lvl - 1]);
      && Step(w, c).stack == Updated(w.stack, lvl, ParagraphText(c))
      && Step(w, c).blocks == w.blocks + [ParagraphBlock(w.next,
           if above == "" then ParagraphText(c) else above + PathSep + ParagraphText(c),
           ParagraphStyle(c), ParagraphText(c))]
  {
    ParagraphTextIsNormal(c);
    HeadingPathAfterUpdate(w.stack, HeadingLevel(ParagraphStyle(c)), ParagraphText(c));
  }
}
