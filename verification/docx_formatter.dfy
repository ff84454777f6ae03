/**
 * create_formatted_docx (main.py:31-44): the text becomes a heading for its
 * first selected line and one spaced paragraph per further line, or a single
 * paragraph holding the raw text when no line is selected. The document is
 * modelled as the sequence of blocks it holds, not as the bytes
 * Document.save writes.
 */
module DocxFormatter {
  import opened Wrappers
  import opened TextLines

  /** English Metric Units per inch, the unit python-docx stores lengths in. */
  const EmuPerInch: nat := 914400
  /** Inches(0.15): int(0.15 * 914400), which is exactly 137160. */
  const BodySpaceAfter: nat := 137160
  /** The heading level the title gets. */
  const TitleLevel: nat := 1
  /** python-docx accepts heading levels 0 to 9. */
  const MaxHeadingLevel: nat := 9

  /** One block of the document body. */
  datatype Block =
    | Heading(text: string, level: nat)
    /** `spaceAfter` is the paragraph's space_after in EMU, None while unset. */
    | Paragraph(text: string, spaceAfter: Option<nat>)

  /** The python-docx Document, seen as the blocks it holds. */
  class Document {
    var blocks: seq<Block>

    /** Document(): a new document with an empty body. */
    constructor ()
      ensures blocks == []
    {
      blocks := [];
    }

    /** add_heading(text, level). */
    method AddHeading(text: string, level: nat)
      requires level <= MaxHeadingLevel
      modifies this
      ensures blocks == old(blocks) + [Heading(text, level)]
    {
      blocks := blocks + [Heading(text, level)];
    }

    /** add_paragraph(text): returns the position of the new paragraph. */
    method AddParagraph(text: string) returns (index: nat)
      modifies this
      ensures blocks == old(blocks) + [Paragraph(text, None)]
      ensures index == |old(blocks)| && blocks[index] == Paragraph(text, None)
    {
      index := |blocks|;
      blocks := blocks + [Paragraph(text, None)];
    }

    /** paragraph.paragraph_format.space_after = emu, on the paragraph at `index`. */
    method SetSpaceAfter(index: nat, emu: nat)
      requires index < |blocks| && blocks[index].Paragraph?
      modifies this
      ensures blocks == old(blocks)[index := Paragraph(old(blocks)[index].text, Some(emu))]
    {
      blocks := blocks[index := Paragraph(blocks[index].text, Some(emu))];
    }
  }

  /** One paragraph per body line, each with 0.15 in of space after it. */
  function BodyParagraphs(lines: seq<string>): (blocks: seq<Block>)
  {
    seq(|lines|, k requires 0 <= k < |lines| => Paragraph(lines[k], Some(BodySpaceAfter)))
  }

  /** The blocks create_formatted_docx puts in the document for `text`. */
  function DocxPlan(text: string): (blocks: seq<Block>)
  {
    var lines := SelectLines(text);
    if lines == [] then [Paragraph(text, None)]
    else [Heading(lines[0], TitleLevel)] + BodyParagraphs(lines[1..])
  }

  /** The texts of the blocks, in order. */
  function BlockTexts(blocks: seq<Block>): (texts: seq<string>)
    ensures |texts| == |blocks|
    ensures forall k :: 0 <= k < |blocks| ==> texts[k] == blocks[k].text
  {
    seq(|blocks|, k requires 0 <= k < |blocks| => blocks[k].text)
  }

  /** create_formatted_docx, up to Document.save: builds the document step by step. */
  method CreateFormattedDocx(text: string) returns (blocks: seq<Block>)
    ensures blocks == DocxPlan(text)
  {
    var document := new Document();
    var lines := SelectLines(text);
    if lines == [] {
      var _ := document.AddParagraph(text);
    } else {
      document.AddHeading(lines[0], TitleLevel);
      var body := lines[1..];
      for i := 0 to |body|
        invariant document.blocks == [Heading(lines[0], TitleLevel)] + BodyParagraphs(body[..i])
      {
        var index := document.AddParagraph(body[i]);
        document.SetSpaceAfter(index, BodySpaceAfter);
      }
      assert body[..|body|] == body;
    }
    blocks := document.blocks;
  }

  // ---------------------------------------------------------------------
  // What the plan promises.

  /** With no selected line, the document is one unspaced paragraph holding the raw text. */
  lemma DocxEmptyCase(text: string)
    requires IsBlank(text)
    ensures DocxPlan(text) == [Paragraph(text, None)]
  {
    SelectLinesEmpty(text);
  }

  /**
   * Otherwise there is one block per selected line: a level-1 heading for the
   * first, then a paragraph with 0.15 in after it for each further line, in order.
   */
  lemma DocxNonEmptyCase(text: string)
    requires !IsBlank(text)
    ensures var lines, blocks := SelectLines(text), DocxPlan(text);
      |lines| >= 1 && |blocks| == |lines| &&
      blocks[0] == Heading(lines[0], TitleLevel) &&
      forall k :: 1 <= k < |blocks| ==> blocks[k] == Paragraph(lines[k], Some(BodySpaceAfter))
  {
    SelectLinesEmpty(text);
  }

  /**
   * The heading is the only block without spacing and only the first block
   * is a heading; no block of a non-blank text is blank or spans two lines.
   */
  lemma DocxBlocksAreLines(text: string)
    requires !IsBlank(text)
    ensures var blocks := DocxPlan(text);
      forall k :: 0 <= k < |blocks| ==>
        (blocks[k].Heading? <==> k == 0) &&
        (blocks[k].Paragraph? ==> blocks[k].spaceAfter == Some(BodySpaceAfter)) &&
        !IsBlank(blocks[k].text) && Newline !in blocks[k].text
  {
    DocxNonEmptyCase(text);
  }

  /** The block texts are the selected lines, or the raw text when there are none. */
  lemma DocxRendersSelection(text: string)
    ensures BlockTexts(DocxPlan(text)) ==
      if SelectLines(text) == [] then [text] else SelectLines(text)
  {
  }
}
