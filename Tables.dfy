/** `parse_table`: a `w:tbl` element as rows of cell texts. */
module Tables {
  import opened Text
  import opened Xml
  import opened Paragraph

  /** The texts of the paragraphs `ps` that are not empty, in order (prompt.py lines 64-67). */
  function NonEmptyTexts(ps: seq<Element>): (r: seq<string>)
    ensures |r| <= |ps|
  {
    if ps == [] then []
    else
      var t := ParagraphText(ps[|ps| - 1]);
      NonEmptyTexts(ps[..|ps| - 1]) + (if t != "" then [t] else [])
  }

  lemma NonEmptyTextsStep(ps: seq<Element>, k: nat)
    requires k < |ps|
    ensures NonEmptyTexts(ps[..k + 1]) ==
      NonEmptyTexts(ps[..k]) + (if ParagraphText(ps[k]) != "" then [ParagraphText(ps[k])] else [])
  {
    assert ps[..k + 1][..k] == ps[..k];
  }

  /** The text of cell `tc`: the non-empty texts of all paragraphs below it, joined by a space
      and normalised once more (prompt.py lines 63-69). */
  function CellText(tc: Element): string {
    Normalize(JoinSep(NonEmptyTexts(Descendants(tc, TagP)), " "))
  }

  /** One entry per direct `w:tc` child of row `tr`, in order (`RowCellsInOrder`). */
  function RowCells(tr: Element): seq<string>
  {
    var tcs := ChildrenNamed(tr, TagTc);
    seq(|tcs|, j requires 0 <= j < |tcs| => CellText(tcs[j]))
  }

  /** One row per direct `w:tr` child of `tbl`, in order (`TableRowsInOrder`). */
  function TableRows(tbl: Element): (rows: seq<seq<string>>)
  {
    var trs := ChildrenNamed(tbl, TagTr);
    seq(|trs|, i requires 0 <= i < |trs| => RowCells(trs[i]))
  }

  /** The innermost loop of `parse_table` (prompt.py lines 63-69): the text of one cell. */
  method ParseCell(tc: Element) returns (cellText: string)
    ensures cellText == CellText(tc)
  {
    var cellTexts: seq<string> := [];
    var ps := Descendants(tc, TagP);
    for k := 0 to |ps|
      invariant cellTexts == NonEmptyTexts(ps[..k])
    {
      NonEmptyTextsStep(ps, k);
      var t := GetTextFromParagraph(ps[k]);
      if t != "" {
        cellTexts := cellTexts + [t];
      }
    }
    assert ps[..|ps|] == ps;
    cellText := JoinSep(cellTexts, " ");
    cellText := Normalize(cellText);
  }

  /** The middle loop of `parse_table` (prompt.py lines 61-70): one row. */
  method ParseRow(tr: Element) returns (row: seq<string>)
    ensures row == RowCells(tr)
  {
    row := [];
    var tcs := ChildrenNamed(tr, TagTc);
    ghost var cells := RowCells(tr);
    for j := 0 to |tcs|
      invariant row == cells[..j]
    {
      var cellText := ParseCell(tcs[j]);
      assert cells[..j + 1] == cells[..j] + [cells[j]];
      row := row + [cellText];
    }
    assert cells[..|tcs|] == cells;
  }

  /** `parse_table` (prompt.py lines 57-72). Rows and cells come out in document order, one per
      `w:tr` and one per `w:tc` child, with no padding of short rows. */
  method ParseTable(tbl: Element) returns (rows: seq<seq<string>>)
    ensures |rows| == |ChildrenNamed(tbl, TagTr)|
    ensures forall i :: 0 <= i < |rows| ==>
      |rows[i]| == |ChildrenNamed(ChildrenNamed(tbl, TagTr)[i], TagTc)|
    ensures forall i, j :: 0 <= i < |rows| && 0 <= j < |rows[i]| ==>
      rows[i][j] == CellText(ChildrenNamed(ChildrenNamed(tbl, TagTr)[i], TagTc)[j])
    ensures rows == TableRows(tbl)
  {
    rows := [];
    var trs := ChildrenNamed(tbl, TagTr);
    for i := 0 to |trs|
      invariant |rows| == i
      invariant forall r :: 0 <= r < i ==> rows[r] == RowCells(trs[r])
    {
      var row := ParseRow(trs[i]);
      rows := rows + [row];
    }
    assert rows == TableRows(tbl);
  }

  lemma {:induction false} NonEmptyTextsNormal(ps: seq<Element>)
    ensures forall k :: 0 <= k < |NonEmptyTexts(ps)| ==>
      IsNormal(NonEmptyTexts(ps)[k]) && NonEmptyTexts(ps)[k] != ""
  {
    if ps != [] {
      NonEmptyTextsNormal(ps[..|ps| - 1]);
      ParagraphTextIsNormal(ps[|ps| - 1]);
    }
  }

  /** A cell's text is its paragraphs' non-empty texts joined by single spaces: the second
      normalisation at prompt.py line 69 never changes anything. The result is normal, and
      empty exactly when no paragraph in the cell has text. */
  lemma CellTextIsJoin(tc: Element)
    ensures CellText(tc) == JoinSep(NonEmptyTexts(Descendants(tc, TagP)), " ")
    ensures IsNormal(CellText(tc))
    ensures CellText(tc) == "" <==> NonEmptyTexts(Descendants(tc, TagP)) == []
  {
    var texts := NonEmptyTexts(Descendants(tc, TagP));
    NonEmptyTextsNormal(Descendants(tc, TagP));
    NormalizeJoinOfNormal(texts);
    JoinNormal(texts);
  }

  /** A row has one entry per direct `w:tc` child, in document order, and each entry is the
      text of that child (prompt.py lines 61-70). */
  lemma RowCellsInOrder(tr: Element)
    ensures exists p :: && TaggedAt(tr, TagTc, p) && |p| == |RowCells(tr)|
                        && forall k :: 0 <= k < |p| ==> RowCells(tr)[k] == CellText(tr.children[p[k]])
  {
    ChildrenNamedMapped(tr, TagTc, CellText, RowCells(tr));
  }

  /** A table has one row per direct `w:tr` child, in document order, and each row holds the
      cells of that child (prompt.py lines 57-72). */
  lemma TableRowsInOrder(tbl: Element)
    ensures exists p :: && TaggedAt(tbl, TagTr, p) && |p| == |TableRows(tbl)|
                        && forall k :: 0 <= k < |p| ==> TableRows(tbl)[k] == RowCells(tbl.children[p[k]])
  {
    ChildrenNamedMapped(tbl, TagTr, RowCells, TableRows(tbl));
  }
}
