# DOCX body-to-blocks extractor, modelled in Dafny

`prompt.py` turns the `w:body` of a WordprocessingML document (ECMA-376 Part 1) into a
flat list of blocks. It walks the body's direct children in order:

- a `w:p` paragraph whose normalised text is not empty becomes a paragraph block, with its
  style identifier and its text;
- each `w:tbl` table becomes a table block, holding its rows of cell texts;
- every other child is ignored.

Blocks are numbered from 1. Each block carries a heading path such as `"Intro > Scope"`.
The path comes from a heading stack: a paragraph whose style names a heading level
(`Heading1`, `heading 2`, ...) and whose text is not empty opens that level, clears all
deeper ones and keeps all shallower ones.

The model takes the tree that `xml.etree.ElementTree` would have built as a datatype. It
follows the source function by function:

| module | models |
|---|---|
| `Text` | `re.sub(r"\s+", " ", s).strip()`, `str.strip()`, `str.join` |
| `Xml` | elements, qualified names, `find("./x")`, `findall("./x")`, `findall(".//x")` |
| `Paragraph` | `get_text_from_paragraph`, `get_paragraph_style`, `heading_level_from_style` |
| `Headings` | `update_heading_stack`, `heading_path` |
| `Tables` | `parse_table` |
| `Blocks` | `docx_to_blocks` |
| `Scenario` | a family of small documents, and one worked document built from it |

The loops of the source are methods with loop invariants:
- `GetTextFromParagraph`;
- `UpdateHeadingStack`;
- `ParseCell`, `ParseRow` and `ParseTable`;
- `DocxToBlocks`.

Each method is proved equal to a specification function: `ParagraphText`, `Updated`,
`CellText`, `RowCells`, `TableRows` and `BodyBlocks`. The lemmas state what the source
promises about those functions.

No object in the core has fields that are updated in place. The heading stack and the
block list are local variables of `docx_to_blocks`. So all state is modelled as values.

A heading updates the stack (prompt.py lines 99-100) before its block is built (lines
102-109), so its own block's path already ends with its own text.
`Blocks.HeadingBlockShowsOwnText` states this for every heading, and
`Scenario.WorkedDocument` for the heading `"Intro"`, whose block has the path `"Intro"`.

## Model

| member | source | states |
|---|---|---|
| `Xml.FirstChild` | prompt.py:23-26 | `find("./name")` is None exactly when no direct child has the tag; otherwise it is a direct child with the tag, and no earlier child has it |
| `Xml.ChildrenNamed` | prompt.py:60-62 | `findall("./name")` returns only direct children with the tag, and it returns every one of them |
| `Xml.NamedPicksTagged` | prompt.py:60-62 | the filtered list is the elements at the positions of the tagged elements, in increasing order, each once |
| `Xml.ChildrenNamedInOrder` | prompt.py:60-62 | `findall("./name")` returns each direct child with the tag exactly once, in document order, and nothing else |
| `Xml.ChildrenNamedMapped` | prompt.py:60-70 | a list computed entry by entry from `findall("./name")` has one entry per direct child with the tag, in document order, computed from that child |
| `Xml.Descendants` | prompt.py:14-14 | `findall(".//name")` returns only elements with the tag, and every direct child with the tag is among them |
| `Xml.DescendantsInIff` | prompt.py:14-14 | an element is found in a forest exactly when it has the tag and lies in the forest at some depth |
| `Xml.DescendantsAtAnyDepth` | prompt.py:14-14 | `findall(".//name")` returns exactly the elements with the tag that lie below the element, at any depth |
| `Text.StripLeftShape` | prompt.py:19-19 | `lstrip` removes exactly a whitespace prefix, and what remains does not start with whitespace |
| `Text.StripRightShape` | prompt.py:19-19 | `rstrip` removes exactly a whitespace suffix, and what remains does not end with whitespace |
| `Text.Strip` | prompt.py:19-19 | `strip` never lengthens the text, and leaves no whitespace at either end |
| `Text.Collapse` | prompt.py:19-19 | `re.sub(r"\s+", " ", s)` never lengthens the text, and its result is empty exactly when the input is |
| `Text.CollapseShape` | prompt.py:19-19 | after `re.sub(r"\s+", " ", s)` every whitespace character is a plain space and no two touch; the result is empty only for empty input, and starts with whitespace exactly when the input does |
| `Text.CollapseKeepsNonWs` | prompt.py:19-19 | the collapse keeps every non-whitespace character, in order |
| `Text.StripKeepsNonWs` | prompt.py:19-19 | `strip` keeps every non-whitespace character, in order |
| `Text.Normalize` | prompt.py:19-19 | normalised text has no whitespace at either end, no two adjacent whitespace characters, and only plain spaces as whitespace |
| `Text.StripEdgesTrimmed` | prompt.py:19-19 | stripping a single-spaced text leaves it single-spaced, with no whitespace at either end |
| `Text.NormalizeKeepsNonWs` | prompt.py:19-19 | normalisation neither drops, nor reorders, nor invents a non-whitespace character |
| `Text.NormalizeEmptyIff` | prompt.py:19-19 | normalised text is empty exactly when the input is whitespace only |
| `Text.NormalIsFixed` | prompt.py:69-69 | normalising an already normal text changes nothing |
| `Text.NormalizeIdempotent` | prompt.py:19-19 | normalising twice gives the same result as normalising once |
| `Text.JoinSep` | prompt.py:55-55 | a join of non-empty parts is empty exactly when there are no parts |
| `Text.JoinTwoNormal` | prompt.py:68-68 | two non-empty normal texts joined by one space give a normal text |
| `Text.JoinNormal` | prompt.py:68-68 | a `" "`-join of non-empty normal texts is normal, and it is empty exactly when there are no texts |
| `Text.NormalizeJoinOfNormal` | prompt.py:68-69 | normalising such a join changes nothing |
| `Text.JoinSepSnoc` | prompt.py:55-55 | joining one more part adds the separator and that part at the end |
| `Paragraph.GetTextFromParagraph` | prompt.py:11-20 | the result is the normalised concatenation of the paragraph's non-empty `w:t` texts in document order; it is normal, and empty exactly when that concatenation is whitespace only |
| `Paragraph.ParagraphTextIsNormal` | prompt.py:17-19 | every paragraph text is normal, and empty exactly when its `w:t` text is whitespace only |
| `Paragraph.ParagraphStyle` | prompt.py:22-29 | the first `w:pPr` child, then its first `w:pStyle` child, then its `w:val` attribute: when all three exist the result is that value; otherwise it is `""` |
| `Paragraph.MissingStyleLinkGivesEmpty` | prompt.py:23-29 | a missing `w:pPr`, a missing `w:pStyle` or a missing `w:val` each gives `""` |
| `Paragraph.Lower` | prompt.py:34-34 | lower-casing keeps the length, leaves no upper-case ASCII letter, and leaves every character that is not one where it was |
| `Paragraph.LowerIdempotent` | prompt.py:34-34 | lower-casing twice gives what lower-casing once gave |
| `Paragraph.LowerOccursIgnoringCase` | prompt.py:34-35 | after lower-casing, a lower-case word occurs at a position exactly when the style holds it there in any mix of cases |
| `Paragraph.Contains` | prompt.py:35-35 | the substring test holds exactly when the word occurs at some position |
| `Paragraph.SkipWs` | prompt.py:37-37 | the `\s*` of the pattern takes the whole whitespace run after the word |
| `Paragraph.SkipDigits` | prompt.py:37-37 | the `[0-9]+` of the pattern takes the whole digit run |
| `Paragraph.MatchAtIsRegexMatch` | prompt.py:37-37 | a match at `i` is exactly: `heading` at `i`, then a whitespace run (possibly empty), then a digit |
| `Paragraph.MatchDigits` | prompt.py:37-41 | the group `([0-9]+)` captures a non-empty run of ASCII digits |
| `Paragraph.FindMatch` | prompt.py:37-39 | `re.search` reports the leftmost match, and None exactly when there is no match |
| `Paragraph.FirstMatchUnique` | prompt.py:37-37 | there is at most one leftmost match |
| `Paragraph.HeadingLevel` | prompt.py:32-33 | the empty style has level 0 |
| `Paragraph.HeadingLevelMeaning` | prompt.py:31-43 | the level is 0 for a style without `heading` and for a style without a match; otherwise it is the decimal value of the digits of the leftmost match, unless there are more than 4300 of them, when `int()` raises and the level is 0 |
| `Paragraph.DecimalValueZeroIff` | prompt.py:41-41 | the digits give 0 exactly when they are all `0`, so `Heading0` names no heading |
| `Paragraph.HeadingLevelExample` | prompt.py:31-41 | `Heading1` has level 1 |
| `Paragraph.HeadingDigitsLevel` | prompt.py:31-43 | `heading` followed by digits has the level the digits spell while there are at most 4300 of them, and level 0 with more |
| `Headings.PadShape` | prompt.py:47-48 | padding appends `""` up to the level and keeps the old entries |
| `Headings.Updated` | prompt.py:45-51 | the new stack has exactly `level` entries, so deeper entries are dropped, and the last one is the heading text |
| `Headings.UpdatedShape` | prompt.py:45-51 | the shallower entries of the new stack are the old entries, or `""` where the old stack was shorter |
| `Headings.UpdateHeadingStack` | prompt.py:45-51 | the loop, the assignment and the slice produce that stack |
| `Headings.UpdatedIsPaddedPrefix` | prompt.py:45-51 | the new stack is the kept shallower entries, padded with `""`, followed by the text |
| `Headings.PathPartsTrimmed` | prompt.py:54-54 | every part of the path is non-empty and stripped |
| `Headings.PathPartsEmptyIff` | prompt.py:54-54 | there are no parts exactly when every entry is empty or whitespace only |
| `Headings.HeadingPath` | prompt.py:53-55 | the path is `""` exactly when every entry is empty or whitespace only |
| `Headings.HeadingPathAppend` | prompt.py:53-55 | pushing an entry adds `" > "` and the stripped entry to the path; a blank entry leaves the path unchanged |
| `Headings.PadKeepsPath` | prompt.py:47-55 | the `""` entries added by padding never show in the path |
| `Headings.PaddedPathAppend` | prompt.py:47-55 | padding and then pushing a heading text gives the old path, `" > "` and the text (or just the text when the old path is empty) |
| `Headings.HeadingPathAfterUpdate` | prompt.py:99-106 | after a heading update the path is the path of the shallower entries kept, then `" > "`, then the heading text (or just the text when nothing is kept) |
| `Headings.ShallowerHeadingTruncates` | prompt.py:45-55 | headings (1,"A"), (2,"B"), (1,"C") leave the stack `["C"]` and the path `"C"` |
| `Headings.SkippedLevelStack` | prompt.py:45-51 | headings (1,"A"), (3,"B") leave the stack `["A","","B"]` |
| `Headings.SkippedLevelPath` | prompt.py:53-55 | `["A","","B"]` gives `"A > B"`, and the empty stack gives `""` |
| `Tables.ParseCell` | prompt.py:63-69 | the cell loop computes the cell text: the `" "`-join of the non-empty texts of all descendant `w:p`, normalised |
| `Tables.ParseRow` | prompt.py:61-70 | the row loop computes the row's cells |
| `Tables.ParseTable` | prompt.py:57-72 | one row per direct `w:tr` child and one cell per direct `w:tc` child of that row, in document order, with no padding; each cell is that cell's text |
| `Tables.NonEmptyTextsNormal` | prompt.py:64-67 | the texts collected for a cell are all normal and non-empty |
| `Tables.CellTextIsJoin` | prompt.py:63-69 | a cell's text is the `" "`-join of its paragraphs' non-empty texts, so the second normalisation is redundant; it is normal, and empty exactly when no paragraph in the cell has text |
| `Tables.RowCellsInOrder` | prompt.py:61-70 | a row has one entry per direct `w:tc` child, in document order, and each entry is that child's cell text |
| `Tables.TableRowsInOrder` | prompt.py:57-72 | a table has one row per direct `w:tr` child, in document order, and each row holds that child's cells |
| `Blocks.StepShape` | prompt.py:91-120 | one child appends one block when it is a table or a paragraph with text and none otherwise, leaves earlier blocks unchanged, moves the counter with the blocks, and changes the stack only when it is a heading |
| `Blocks.BodyBlocks` | prompt.py:82-122 | a root without a `w:body` child gives no blocks; otherwise block `k` has index `k + 1` |
| `Blocks.DocxToBlocks` | prompt.py:80-122 | the loop computes the blocks of the specification walk; indices are 1, 2, ... in order; a missing `w:body` gives `[]` |
| `Blocks.WalkIndexed` | prompt.py:88-120 | over any children, the indices stay contiguous from 1 and the counter stays one past the last block |
| `Blocks.WalkEmitsInOrder` | prompt.py:91-120 | for every table and every paragraph with text, exactly one block is added, in document order, and earlier blocks stay unchanged; empty paragraphs and other children add nothing |
| `Blocks.StepKeepsStackWellFormed` | prompt.py:98-100 | a child that is not a heading leaves the stack unchanged; a heading replaces it by the update for its level and text; either way every entry stays `""` or a normal non-empty heading text |
| `Blocks.UpdatedKeepsStackWellFormed` | prompt.py:99-100 | a heading update keeps that shape |
| `Blocks.WalkKeepsStackWellFormed` | prompt.py:87-120 | that shape holds along the whole walk |
| `Blocks.NonHeadingsKeepStack` | prompt.py:112-118 | tables, plain paragraphs and other children leave the stack unchanged, and every block they emit shows the path in force before them |
| `Blocks.HeadingBlockShowsOwnText` | prompt.py:98-109 | a heading's own block is built after the update, so its path ends with the heading's text |
| `Scenario.CollapseGap` | prompt.py:19-19 | two words around a whitespace run collapse to the two words around one space |
| `Scenario.HelloWorld` | prompt.py:11-20 | the paragraph `"Hello   world"` has the text `"Hello world"` |
| `Scenario.StyleOfStyled` | prompt.py:22-29 | a paragraph with a `w:pStyle` of value `v` has the style `v` |
| `Scenario.GridRows` | prompt.py:57-72 | a 2x2 table of normal cell texts reads as those rows |
| `Scenario.DocumentBlocks` | prompt.py:80-122 | heading, paragraph, table, empty paragraph give three blocks numbered 1-3, all under the heading's text; the empty paragraph gives none |
| `Scenario.WorkedDocument` | prompt.py:80-122 | the worked document gives `(1,"Intro","Heading1","Intro")`, `(2,"Intro","","Hello world")` and `(3,"Intro",[["A","B"],["C","D"]])` |

## Left out

- `load_document_xml_from_docx` (prompt.py:74-78): base64, ZIP and UTF-8 decoding are library calls.
- XML parsing with `ET.fromstring` (prompt.py:81) is a library call. Its output is the input `Xml.Element` value.
- The n8n host glue (prompt.py:124-143): reading `items[0]`, the `oldDoc` key check and packaging the result.
- new.js is not part of this model: it is host plumbing with no logic of its own.
- Element `tail` text (text after a child's closing tag) is not modelled. The extractor never reads it.
- `Text.IsWs` is a fixed set: the characters for which Python's `str.isspace` holds, which the `\s` of a str pattern also matches. The proofs need no more of it than that a space is whitespace and that a digit and a letter are not. The listed set is not checked against an interpreter.
- `Paragraph.Lower`: lower-cases ASCII letters only. Python's `str.lower` also lowers non-ASCII letters. Only two of them lower to ASCII: U+0130 gives `i` followed by U+0307, and U+212A gives `k`. Neither can complete `heading` followed by digits, so the heading level is the same.
- `Paragraph.HeadingLevel`: the `except` branch (prompt.py:42-43) is modelled for the one way `int()` fails on a run of ASCII digits: more digits than CPython's default bound of 4300 (Python 3.11 and later). A bound changed with `sys.set_int_max_str_digits` or the `PYTHONINTMAXSTRDIGITS` environment variable, and older interpreters without a bound, are not modelled. A level too large for the append loop of `update_heading_stack` (prompt.py:47-48) to finish in memory is unbounded in the model, because memory is not modelled.
- `Headings.UpdateHeadingStack`: the source extends and overwrites the caller's list in place before it returns a slice. The only caller rebinds its variable to the result at once, so the model works on values. The aliasing of that list is not modelled.
- `Xml.Descendants`: `Xml.DescendantsAtAnyDepth` states which elements the result holds, at any depth. That the result lists them in document order, each once, is given only by the definition (`Xml.DescendantsIn`, element before its children, children in order), not by a separate lemma.
- The dictionary shape of a block (`"type"`, `"index"` and the other keys) is modelled as the two constructors of `Blocks.Block`.
