/** Documents built from a heading, a plain paragraph, a 2x2 table and an empty paragraph,
    and what the extractor makes of them: three blocks, all under the heading's text. Because
    the heading updates the stack before its own block is built, that block's path already
    shows the heading. The worked instance is the heading "Intro" in style "Heading1", the
    paragraph "Hello   world" and the cells A, B, C, D. */
module Scenario {
  import opened Wrappers
  import opened Text
  import opened Xml
  import opened Paragraph
  import opened Headings
  import opened Tables
  import opened Blocks

  // ---------------------------------------------------------------------------
  // The document

  function TextRun(t: string): Element {
    Element(TagT, map[], Some(t), [])
  }

  function Run(t: string): Element {
    Element(W("r"), map[], None, [TextRun(t)])
  }

  function PlainPara(t: string): Element {
    Element(TagP, map[], None, [Run(t)])
  }

  function StyleProps(style: string): Element {
    Element(TagPPr, map[], None, [Element(TagPStyle, map[AttrVal := style], None, [])])
  }

  function StyledPara(style: string, t: string): Element {
    Element(TagP, map[], None, [StyleProps(style), Run(t)])
  }

  function Cell(t: string): Element {
    Element(TagTc, map[], None, [PlainPara(t)])
  }

  function Row(a: string, b: string): Element {
    Element(TagTr, map[], None, [Cell(a), Cell(b)])
  }

  function Grid(a: string, b: string, c: string, d: string): Element {
    Element(TagTbl, map[], None, [Row(a, b), Row(c, d)])
  }

  function EmptyPara(): Element {
    Element(TagP, map[], None, [])
  }

  /** A body holding a heading, a plain paragraph, a 2x2 table and an empty paragraph. */
  function Doc(style: string, title: string, raw: string, a: string, b: string, c: string, d: string): Element {
    Element(W("document"), map[], None, [Element(TagBody, map[], None,
      [StyledPara(style, title), PlainPara(raw), Grid(a, b, c, d), EmptyPara()])])
  }

  function Document(): Element {
    Doc("Heading1", "Intro", "Hello   world", "A", "B", "C", "D")
  }

  // ---------------------------------------------------------------------------
  // Reading each child

  lemma RunTextsOfRun(t: string)
    ensures DescendantsIn([Run(t)], TagT) == [TextRun(t)]
  {
    assert [Run(t)][1..] == [];
    assert [TextRun(t)][1..] == [];
    assert DescendantsIn([TextRun(t)], TagT) == [TextRun(t)];
    assert DescendantsIn(Run(t).children, TagT) == [TextRun(t)];
  }

  lemma RunTextsOfOne(t: string)
    ensures RunTexts([TextRun(t)]) == if t == "" then [] else [t]
  {
    assert [TextRun(t)][..0] == [];
  }

  lemma RunsOfPlain(t: string)
    ensures Descendants(PlainPara(t), TagT) == [TextRun(t)]
  {
    RunTextsOfRun(t);
  }

  /** The text of a paragraph with one run of already normal, non-empty text is that text. */
  lemma TextOfPlain(t: string)
    requires IsNormal(t) && t != ""
    ensures ParagraphText(PlainPara(t)) == t
  {
    RunsOfPlain(t);
    RunTextsOfOne(t);
    NormalIsFixed(t);
  }

  lemma StyleOfPlain(t: string)
    ensures ParagraphStyle(PlainPara(t)) == ""
  {
    assert Run(t).tag != TagPPr;
  }

  lemma RunsOfStyled(style: string, t: string)
    ensures Descendants(StyledPara(style, t), TagT) == [TextRun(t)]
  {
    var props := StyleProps(style);
    assert [props, Run(t)][1..] == [Run(t)];
    assert DescendantsIn(props.children, TagT) == [] by {
      assert props.children[0].children == [];
      assert props.children[1..] == [];
    }
    RunTextsOfRun(t);
  }

  lemma TextOfStyled(style: string, t: string)
    requires IsNormal(t) && t != ""
    ensures ParagraphText(StyledPara(style, t)) == t
  {
    RunsOfStyled(style, t);
    RunTextsOfOne(t);
    NormalIsFixed(t);
  }

  lemma StyleOfStyled(style: string, t: string)
    ensures ParagraphStyle(StyledPara(style, t)) == style
  {
    var props := StyleProps(style);
    assert FirstChild(StyledPara(style, t), TagPPr) == Some(props);
    assert FirstChild(props, TagPStyle) == Some(props.children[0]);
  }

  /** A stretch of text without whitespace. */
  predicate Word(a: string) {
    forall i :: 0 <= i < |a| ==> !IsWs(a[i])
  }

  lemma CollapseWord(b: string)
    requires Word(b)
    ensures Collapse(b) == b
  {
    CollapseWordPrefix(b, []);
    assert b + [] == b;
  }

  /** Two words around a run of whitespace collapse to the words around one space. */
  lemma CollapseGap(a: string, u: string, b: string)
    requires Word(a) && Word(b) && u != [] && AllWs(u)
    ensures Collapse(a + u + b) == a + " " + b
  {
    var t := u + b;
    assert a + u + b == a + t;
    assert Collapse(a + t) == a + Collapse(t) by { CollapseWordPrefix(a, t); }
    assert b == [] || !IsWs(b[0]);
    assert Collapse(t) == " " + Collapse(b) by { CollapseRunPrefix(u, b); }
    CollapseWord(b);
  }

  lemma CollapseHello()
    ensures Collapse("Hello   world") == "Hello world"
  {
    assert Word("Hello") && Word("world") && AllWs("   ");
    CollapseGap("Hello", "   ", "world");
    assert "Hello" + "   " + "world" == "Hello   world";
    assert "Hello" + " " + "world" == "Hello world";
  }

  lemma HelloWorld()
    ensures ParagraphText(PlainPara("Hello   world")) == "Hello world"
  {
    RunsOfPlain("Hello   world");
    RunTextsOfOne("Hello   world");
    CollapseHello();
    assert Strip("Hello world") == "Hello world";
  }

  lemma EmptyParaText()
    ensures ParagraphText(EmptyPara()) == ""
  {
  }

  lemma CellOf(t: string)
    requires IsNormal(t) && t != ""
    ensures CellText(Cell(t)) == t
  {
    TextOfPlain(t);
    assert [PlainPara(t)][1..] == [];
    assert DescendantsIn(PlainPara(t).children, TagP) == [] by {
      assert DescendantsIn(Run(t).children, TagP) == [] by {
        assert [TextRun(t)][1..] == [];
      }
      assert [Run(t)][1..] == [];
    }
    assert Descendants(Cell(t), TagP) == [PlainPara(t)];
    assert NonEmptyTexts([PlainPara(t)]) == [t];
    NormalIsFixed(t);
  }

  lemma CellsOfRow(a: string, b: string)
    ensures ChildrenNamed(Row(a, b), TagTc) == [Cell(a), Cell(b)]
  {
    assert Row(a, b).children[0].tag == TagTc && Row(a, b).children[1].tag == TagTc;
  }

  lemma RowOf(a: string, b: string)
    requires IsNormal(a) && a != "" && IsNormal(b) && b != ""
    ensures RowCells(Row(a, b)) == [a, b]
  {
    CellsOfRow(a, b);
    CellOf(a);
    CellOf(b);
  }

  lemma GridRows(a: string, b: string, c: string, d: string)
    requires IsNormal(a) && a != "" && IsNormal(b) && b != ""
    requires IsNormal(c) && c != "" && IsNormal(d) && d != ""
    ensures TableRows(Grid(a, b, c, d)) == [[a, b], [c, d]]
  {
    RowOf(a, b);
    RowOf(c, d);
    RowsOfGrid(a, b, c, d);
  }

  lemma RowsOfGrid(a: string, b: string, c: string, d: string)
    ensures ChildrenNamed(Grid(a, b, c, d), TagTr) == [Row(a, b), Row(c, d)]
  {
    var g := Grid(a, b, c, d);
    assert g.children[0].tag == TagTr && g.children[1].tag == TagTr;
  }

  // ---------------------------------------------------------------------------
  // The walk

  /** A heading paragraph opens its level and its own block shows the updated path. */
  lemma StepHeading(w: Walk, style: string, title: string)
    requires HeadingLevel(style) > 0 && IsNormal(title) && title != ""
    ensures
      var stack := Updated(w.stack, HeadingLevel(style), title);
      Step(w, StyledPara(style, title)) ==
        Walk(w.blocks + [ParagraphBlock(w.next, HeadingPath(stack), style, title)], stack, w.next + 1)
  {
    StyleOfStyled(style, title);
    TextOfStyled(style, title);
  }

  /** The first heading of a document is the whole path. */
  lemma FirstHeadingPath(level: nat, title: string)
    requires level >= 1 && IsNormal(title) && title != ""
    ensures HeadingPath(Updated([], level, title)) == title
  {
    HeadingPathAfterUpdate([], level, title);
    assert HeadingPath([]) == "";
  }

  /** A plain paragraph with text adds one block under the current path. */
  lemma StepPlain(w: Walk, raw: string)
    requires ParagraphText(PlainPara(raw)) != ""
    ensures Step(w, PlainPara(raw)) ==
      Walk(w.blocks + [ParagraphBlock(w.next, HeadingPath(w.stack), "", ParagraphText(PlainPara(raw)))], w.stack, w.next + 1)
  {
    StyleOfPlain(raw);
  }

  /** A table adds one block under the current path and leaves the stack alone. */
  lemma StepTable(w: Walk, tbl: Element)
    requires tbl.tag == TagTbl
    ensures Step(w, tbl) == Walk(w.blocks + [TableBlock(w.next, HeadingPath(w.stack), TableRows(tbl))], w.stack, w.next + 1)
  {
  }

  /** The empty paragraph emits no block and leaves the stack alone. */
  lemma StepEmpty(w: Walk)
    ensures Step(w, EmptyPara()) == w
  {
    EmptyParaText();
  }

  /** Walking one more child is one more step. */
  lemma WalkExtend(w: Walk, cs: seq<Element>, c: Element, v: Walk, u: Walk)
    requires WalkFrom(w, cs) == v && Step(v, c) == u
    ensures WalkFrom(w, cs + [c]) == u
  {
    assert (cs + [c])[..|cs|] == cs;
  }

  /** The blocks the worked walk produces, in terms of its inputs. */
  function Expected(style: string, title: string, raw: string, a: string, b: string, c: string, d: string): seq<Block> {
    [ParagraphBlock(1, title, style, title),
     ParagraphBlock(2, title, "", ParagraphText(PlainPara(raw))),
     TableBlock(3, title, [[a, b], [c, d]])]
  }

  /** The heading stack after the worked document's heading. */
  function DocStack(style: string, title: string): seq<string>
    requires HeadingLevel(style) > 0
  {
    Updated([], HeadingLevel(style), title)
  }

  lemma DocStep1(style: string, title: string, raw: string, a: string, b: string, c: string, d: string)
    requires HeadingLevel(style) > 0 && IsNormal(title) && title != ""
    ensures Step(Start, StyledPara(style, title)) == Walk(Expected(style, title, raw, a, b, c, d)[..1], DocStack(style, title), 2)
  {
    StepHeading(Start, style, title);
    FirstHeadingPath(HeadingLevel(style), title);
  }

  lemma DocStep2(style: string, title: string, raw: string, a: string, b: string, c: string, d: string)
    requires HeadingLevel(style) > 0 && IsNormal(title) && title != ""
    requires ParagraphText(PlainPara(raw)) != ""
    ensures Step(Walk(Expected(style, title, raw, a, b, c, d)[..1], DocStack(style, title), 2), PlainPara(raw)) ==
      Walk(Expected(style, title, raw, a, b, c, d)[..2], DocStack(style, title), 3)
  {
    var e := Expected(style, title, raw, a, b, c, d);
    var w := Walk(e[..1], DocStack(style, title), 2);
    assert HeadingPath(w.stack) == title by {
      FirstHeadingPath(HeadingLevel(style), title);
    }
    assert Step(w, PlainPara(raw)) == Walk(e[..1] + [e[1]], w.stack, 3) by {
      StepPlain(w, raw);
    }
    assert e[..2] == e[..1] + [e[1]];
  }

  lemma DocStep3(style: string, title: string, raw: string, a: string, b: string, c: string, d: string)
    requires HeadingLevel(style) > 0 && IsNormal(title) && title != ""
    requires IsNormal(a) && a != "" && IsNormal(b) && b != ""
    requires IsNormal(c) && c != "" && IsNormal(d) && d != ""
    ensures Step(Walk(Expected(style, title, raw, a, b, c, d)[..2], DocStack(style, title), 3), Grid(a, b, c, d)) ==
      Walk(Expected(style, title, raw, a, b, c, d), DocStack(style, title), 4)
  {
    var e := Expected(style, title, raw, a, b, c, d);
    StepTable(Walk(e[..2], DocStack(style, title), 3), Grid(a, b, c, d));
    GridRows(a, b, c, d);
    FirstHeadingPath(HeadingLevel(style), title);
    assert e == e[..2] + [e[2]];
  }

  lemma DocWalkOpening(style: string, title: string, raw: string, a: string, b: string, c: string, d: string)
    requires HeadingLevel(style) > 0 && IsNormal(title) && title != ""
    requires ParagraphText(PlainPara(raw)) != ""
    ensures WalkFrom(Start, [StyledPara(style, title), PlainPara(raw)]) ==
      Walk(Expected(style, title, raw, a, b, c, d)[..2], DocStack(style, title), 3)
  {
    var e := Expected(style, title, raw, a, b, c, d);
    DocStep1(style, title, raw, a, b, c, d);
    assert WalkFrom(Start, []) == Start;
    WalkExtend(Start, [], StyledPara(style, title), Start, Walk(e[..1], DocStack(style, title), 2));
    DocStep2(style, title, raw, a, b, c, d);
    WalkExtend(Start, [StyledPara(style, title)], PlainPara(raw), Walk(e[..1], DocStack(style, title), 2),
      Walk(e[..2], DocStack(style, title), 3));
  }

  lemma DocWalk(style: string, title: string, raw: string, a: string, b: string, c: string, d: string)
    requires HeadingLevel(style) > 0 && IsNormal(title) && title != ""
    requires ParagraphText(PlainPara(raw)) != ""
    requires IsNormal(a) && a != "" && IsNormal(b) && b != ""
    requires IsNormal(c) && c != "" && IsNormal(d) && d != ""
    ensures WalkFrom(Start, [StyledPara(style, title), PlainPara(raw), Grid(a, b, c, d), EmptyPara()]).blocks ==
      Expected(style, title, raw, a, b, c, d)
  {
    var e := Expected(style, title, raw, a, b, c, d);
    var stack := DocStack(style, title);
    var opening := [StyledPara(style, title), PlainPara(raw)];
    DocWalkOpening(style, title, raw, a, b, c, d);
    DocStep3(style, title, raw, a, b, c, d);
    WalkExtend(Start, opening, Grid(a, b, c, d), Walk(e[..2], stack, 3), Walk(e, stack, 4));
    StepEmpty(Walk(e, stack, 4));
    WalkExtend(Start, opening + [Grid(a, b, c, d)], EmptyPara(), Walk(e, stack, 4), Walk(e, stack, 4));
    FourChildren(opening[0], opening[1], Grid(a, b, c, d), EmptyPara());
  }

  lemma FourChildren(c0: Element, c1: Element, c2: Element, c3: Element)
    ensures [c0, c1] + [c2] + [c3] == [c0, c1, c2, c3]
  {
  }

  /** A document that opens with a heading, of any level, followed by a paragraph with text, a
      2x2 table and an empty paragraph gives three blocks numbered 1 to 3, all under the
      heading's text: the heading's own block already shows it, the table keeps it and the
      empty paragraph emits nothing. */
  lemma DocumentBlocks(style: string, title: string, raw: string, a: string, b: string, c: string, d: string)
    requires HeadingLevel(style) > 0 && IsNormal(title) && title != ""
    requires ParagraphText(PlainPara(raw)) != ""
    requires IsNormal(a) && a != "" && IsNormal(b) && b != ""
    requires IsNormal(c) && c != "" && IsNormal(d) && d != ""
    ensures BodyBlocks(Doc(style, title, raw, a, b, c, d)) == [
      ParagraphBlock(1, title, style, title),
      ParagraphBlock(2, title, "", ParagraphText(PlainPara(raw))),
      TableBlock(3, title, [[a, b], [c, d]])]
  {
    var cs := [StyledPara(style, title), PlainPara(raw), Grid(a, b, c, d), EmptyPara()];
    DocWalk(style, title, raw, a, b, c, d);
    assert FirstChild(Doc(style, title, raw, a, b, c, d), TagBody) == Some(Element(TagBody, map[], None, cs));
  }

  lemma NormalIntro()
    ensures IsNormal("Intro")
  {
  }

  lemma NormalLetter(t: string)
    requires |t| == 1 && !IsWs(t[0])
    ensures IsNormal(t)
  {
  }

  /** The worked document's inputs meet what the generic document needs. */
  lemma WorkedInputs()
    ensures HeadingLevel("Heading1") > 0 && IsNormal("Intro") && "Intro" != ""
    ensures ParagraphText(PlainPara("Hello   world")) == "Hello world"
    ensures IsNormal("A") && IsNormal("B") && IsNormal("C") && IsNormal("D")
  {
    HeadingLevelExample();
    NormalIntro();
    HelloWorld();
    NormalLetter("A");
    NormalLetter("B");
    NormalLetter("C");
    NormalLetter("D");
  }

  lemma WorkedWalk()
    ensures BodyBlocks(Document()) == [
      ParagraphBlock(1, "Intro", "Heading1", "Intro"),
      ParagraphBlock(2, "Intro", "", ParagraphText(PlainPara("Hello   world"))),
      TableBlock(3, "Intro", [["A", "B"], ["C", "D"]])]
  {
    WorkedInputs();
    DocumentBlocks("Heading1", "Intro", "Hello   world", "A", "B", "C", "D");
  }

  /** The worked document: a "Heading1" heading "Intro", then "Hello   world", then a table
      with cells A, B, C, D, then an empty paragraph. */
  lemma WorkedDocument()
    ensures BodyBlocks(Document()) == [
      ParagraphBlock(1, "Intro", "Heading1", "Intro"),
      ParagraphBlock(2, "Intro", "", "Hello world"),
      TableBlock(3, "Intro", [["A", "B"], ["C", "D"]])]
  {
    WorkedWalk();
    HelloWorld();
  }
}
