/**
 * What the two formatters have in common: both lay out the same selected
 * lines of the same text (main.py:33 and main.py:60).
 */
module Formatters {
  import opened Wrappers
  import opened TextLines
  import opened DocxFormatter
  import opened PdfFormatter

  /**
   * The Word document and the PDF carry the same texts in the same order:
   * the selected lines, or the raw text alone when there are none.
   */
  lemma SameSelection(text: string)
    ensures BlockTexts(DocxPlan(text)) == RenderedTexts(PdfPlan(text))
    ensures |DocxPlan(text)| == |RenderedTexts(PdfPlan(text))| >= 1
  {
    DocxRendersSelection(text);
    PdfRendersSelection(text);
  }

  /**
   * A title and a body line separated by an empty line, as in
   * "Hello\n\nWorld": the empty line is dropped, the first line becomes the
   * title and the second the one body line.
   */
  lemma TitleBlankLineBody(title: string, body: string)
    requires Newline !in title && !IsBlank(title)
    requires Newline !in body && !IsBlank(body)
    ensures SelectLines(title + "\n\n" + body) == [title, body]
    ensures DocxPlan(title + "\n\n" + body) ==
      [Heading(title, TitleLevel), Paragraph(body, Some(BodySpaceAfter))]
    ensures PdfPlan(title + "\n\n" + body) ==
      Preamble() + TitleOps(title) + [MultiCell(FullWidth, LineHeight, body), Ln(BodyGap)]
  {
    var pieces := [title, [], body];
    assert Join(pieces[1..], Newline) == [Newline] + body;
    assert Join(pieces, Newline) == title + "\n\n" + body;
    SplitJoin(pieces, Newline);
    assert pieces[..2][..1] == [title];
    assert pieces[..2] == [title, []];
    assert [title][..0] == [];
    assert KeepNonBlank([title]) == [title];
    assert KeepNonBlank(pieces[..2]) == [title];
    assert KeepNonBlank(pieces) == [title, body];
    var lines := [title, body];
    assert lines[1..] == [body];
    assert [body][..0] == [];
    assert BodyOps([body]) == [MultiCell(FullWidth, LineHeight, body), Ln(BodyGap)];
  }

  /** The empty text: one empty paragraph, or one empty wrapping block in 12 pt. */
  lemma EmptyText()
    ensures DocxPlan("") == [Paragraph("", None)]
    ensures PdfPlan("") == Preamble() + [SetFont(BodyFont), MultiCell(FullWidth, LineHeight, "")]
  {
  }
}
