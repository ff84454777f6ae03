/**
 * create_formatted_pdf (main.py:47-75): a bold 16 pt centered title for the
 * first selected line, then each further line in regular 12 pt followed by a
 * small gap; or the raw text in regular 12 pt when no line is selected. The
 * PDF is modelled as the sequence of drawing calls made on the FPDF object,
 * which also tracks the font currently selected.
 */
module PdfFormatter {
  import opened Wrappers
  import opened TextLines

  datatype FontStyle = Regular | Bold
  datatype Font = Font(family: string, style: FontStyle, size: nat)

  /** Where the position moves after a cell: right of it, to the next line, or below it. */
  datatype CellBreak = ToRight | NextLine | Below
  datatype Align = Left | Center | Right

  /** A call made on the FPDF object, in the order it is made. */
  datatype PdfOp =
    | AddPage
    | SetAutoPageBreak(auto: bool, margin: nat)
    | SetFont(font: Font)
    /** A width of 0 reaches the right margin. */
    | Cell(width: nat, height: nat, text: string, lineBreak: CellBreak, align: Align)
    | MultiCell(width: nat, height: nat, text: string)
    | Ln(height: nat)

  const Family: string := "Arial"
  const TitleFont: Font := Font(Family, Bold, 16)
  const BodyFont: Font := Font(Family, Regular, 12)
  const PageBreakMargin: nat := 15
  const FullWidth: nat := 0
  const LineHeight: nat := 10
  const TitleGap: nat := 10
  const BodyGap: nat := 5

  /** The font in effect after `ops`: the one the last SetFont selected, if any. */
  function CurrentFont(ops: seq<PdfOp>): Option<Font>
  {
    if ops == [] then None
    else if ops[|ops| - 1].SetFont? then Some(ops[|ops| - 1].font)
    else CurrentFont(ops[..|ops| - 1])
  }

  /**
   * No font is in effect before the first SetFont; after one, the font in
   * effect is the one selected by the last SetFont.
   */
  lemma {:induction false} CurrentFontIsLastSelected(ops: seq<PdfOp>)
    ensures CurrentFont(ops).None? <==> forall i :: 0 <= i < |ops| ==> !ops[i].SetFont?
    ensures CurrentFont(ops).Some? ==>
      exists i :: 0 <= i < |ops| && ops[i] == SetFont(CurrentFont(ops).value) &&
        (forall j :: i < j < |ops| ==> !ops[j].SetFont?)
  {
    if ops != [] {
      var n := |ops| - 1;
      CurrentFontIsLastSelected(ops[..n]);
      if !ops[n].SetFont? && CurrentFont(ops).Some? {
        var i :| 0 <= i < n && ops[..n][i] == SetFont(CurrentFont(ops).value) &&
          (forall j :: i < j < n ==> !ops[..n][j].SetFont?);
        assert ops[i] == ops[..n][i];
      }
    }
  }

  /** The FPDF object, seen as the calls made on it and its current font. */
  class Pdf {
    var ops: seq<PdfOp>
    var font: Option<Font>

    ghost predicate Valid()
      reads this
    {
      font == CurrentFont(ops)
    }

    /** FPDF(): no call made, no font selected. */
    constructor ()
      ensures Valid() && ops == [] && font == None
    {
      ops := [];
      font := None;
    }

    method AddPage()
      requires Valid()
      modifies this
      ensures Valid() && ops == old(ops) + [PdfOp.AddPage] && font == old(font)
    {
      ops := ops + [PdfOp.AddPage];
    }

    method SetAutoPageBreak(auto: bool, margin: nat)
      requires Valid()
      modifies this
      ensures Valid() && ops == old(ops) + [PdfOp.SetAutoPageBreak(auto, margin)] && font == old(font)
    {
      ops := ops + [PdfOp.SetAutoPageBreak(auto, margin)];
    }

    method SetFont(family: string, style: FontStyle, size: nat)
      requires Valid()
      modifies this
      ensures Valid() && ops == old(ops) + [PdfOp.SetFont(Font(family, style, size))]
      ensures font == Some(Font(family, style, size))
    {
      ops := ops + [PdfOp.SetFont(Font(family, style, size))];
      font := Some(Font(family, style, size));
    }

    /** cell(...): FPDF refuses to write text before a font is selected. */
    method Cell(width: nat, height: nat, text: string, lineBreak: CellBreak, align: Align)
      requires Valid() && font.Some?
      modifies this
      ensures Valid() && ops == old(ops) + [PdfOp.Cell(width, height, text, lineBreak, align)]
      ensures font == old(font)
    {
      ops := ops + [PdfOp.Cell(width, height, text, lineBreak, align)];
    }

    /** multi_cell(...): FPDF refuses to write text before a font is selected. */
    method MultiCell(width: nat, height: nat, text: string)
      requires Valid() && font.Some?
      modifies this
      ensures Valid() && ops == old(ops) + [PdfOp.MultiCell(width, height, text)] && font == old(font)
    {
      ops := ops + [PdfOp.MultiCell(width, height, text)];
    }

    method Ln(height: nat)
      requires Valid()
      modifies this
      ensures Valid() && ops == old(ops) + [PdfOp.Ln(height)] && font == old(font)
    {
      ops := ops + [PdfOp.Ln(height)];
    }
  }

  /** add_page() and set_auto_page_break(auto=True, margin=15). */
  function Preamble(): seq<PdfOp>
  {
    [AddPage, SetAutoPageBreak(true, PageBreakMargin)]
  }

  /** A wrapping block then a 5-unit gap for each body line, in order. */
  function BodyOps(lines: seq<string>): seq<PdfOp>
  {
    if lines == [] then []
    else
      var n := |lines| - 1;
      BodyOps(lines[..n]) + [MultiCell(FullWidth, LineHeight, lines[n]), Ln(BodyGap)]
  }

  /** Body line k is drawn by call 2k, and call 2k + 1 is the gap after it. */
  lemma {:induction false} BodyOpsAt(lines: seq<string>)
    ensures |BodyOps(lines)| == 2 * |lines|
    ensures forall k :: 0 <= k < |lines| ==>
      BodyOps(lines)[2 * k] == MultiCell(FullWidth, LineHeight, lines[k]) &&
      BodyOps(lines)[2 * k + 1] == Ln(BodyGap)
  {
    if lines != [] {
      var n := |lines| - 1;
      BodyOpsAt(lines[..n]);
      forall k | 0 <= k < n
        ensures BodyOps(lines)[2 * k] == MultiCell(FullWidth, LineHeight, lines[k])
        ensures BodyOps(lines)[2 * k + 1] == Ln(BodyGap)
      {
        assert lines[..n][k] == lines[k];
      }
    }
  }

  /** The body only draws wrapping blocks and gaps: it never changes the font. */
  lemma {:induction false} BodyOpsKinds(lines: seq<string>)
    ensures forall i :: 0 <= i < |BodyOps(lines)| ==> BodyOps(lines)[i].MultiCell? || BodyOps(lines)[i].Ln?
  {
    if lines != [] {
      BodyOpsKinds(lines[..|lines| - 1]);
    }
  }

  /** The title, the gap under it and the switch to the body font. */
  function TitleOps(title: string): seq<PdfOp>
  {
    [SetFont(TitleFont), Cell(FullWidth, LineHeight, title, NextLine, Center), Ln(TitleGap), SetFont(BodyFont)]
  }

  /** The calls create_formatted_pdf makes for `text`, after registering its fonts. */
  function PdfPlan(text: string): (ops: seq<PdfOp>)
  {
    var lines := SelectLines(text);
    Preamble() +
      if lines == [] then [SetFont(BodyFont), MultiCell(FullWidth, LineHeight, text)]
      else TitleOps(lines[0]) + BodyOps(lines[1..])
  }

  /** The texts written by Cell and MultiCell calls, in order. */
  function RenderedTexts(ops: seq<PdfOp>): seq<string>
  {
    if ops == [] then []
    else (if ops[0].Cell? || ops[0].MultiCell? then [ops[0].text] else []) + RenderedTexts(ops[1..])
  }

  /** create_formatted_pdf, up to pdf.output: draws the document call by call. */
  method CreateFormattedPdf(text: string) returns (ops: seq<PdfOp>)
    ensures ops == PdfPlan(text)
  {
    var pdf := new Pdf();
    pdf.AddPage();
    pdf.SetAutoPageBreak(true, PageBreakMargin);
    var lines := SelectLines(text);
    if lines == [] {
      pdf.SetFont(Family, Regular, 12);
      pdf.MultiCell(FullWidth, LineHeight, text);
    } else {
      pdf.SetFont(Family, Bold, 16);
      pdf.Cell(FullWidth, LineHeight, lines[0], NextLine, Center);
      pdf.Ln(TitleGap);
      pdf.SetFont(Family, Regular, 12);
      var body := lines[1..];
      ghost var head := Preamble() + TitleOps(lines[0]);
      for i := 0 to |body|
        invariant pdf.Valid() && pdf.font == Some(BodyFont)
        invariant pdf.ops == head + BodyOps(body[..i])
      {
        pdf.MultiCell(FullWidth, LineHeight, body[i]);
        pdf.Ln(BodyGap);
        assert body[..i + 1][..i] == body[..i];
      }
      assert body[..|body|] == body;
    }
    ops := pdf.ops;
  }

  // ---------------------------------------------------------------------
  // What the plan promises.

  /** With no selected line: regular 12 pt, then the raw text as one wrapping block. */
  lemma PdfEmptyCase(text: string)
    requires IsBlank(text)
    ensures PdfPlan(text) == Preamble() + [SetFont(BodyFont), MultiCell(FullWidth, LineHeight, text)]
  {
    SelectLinesEmpty(text);
  }

  /**
   * Otherwise: bold 16 pt, the first line in a centered full-width cell, one
   * 10-unit gap, regular 12 pt, and then each further line as a wrapping
   * block directly followed by a 5-unit gap, in order.
   */
  lemma PdfNonEmptyCase(text: string)
    requires !IsBlank(text)
    ensures var lines, ops := SelectLines(text), PdfPlan(text);
      |lines| >= 1 && |ops| == 6 + 2 * (|lines| - 1) &&
      ops[..6] == Preamble() + TitleOps(lines[0]) &&
      forall k :: 1 <= k < |lines| ==>
        ops[2 * k + 4] == MultiCell(FullWidth, LineHeight, lines[k]) && ops[2 * k + 5] == Ln(BodyGap)
  {
    SelectLinesEmpty(text);
    var lines := SelectLines(text);
    var body := BodyOps(lines[1..]);
    BodyOpsAt(lines[1..]);
    forall k | 1 <= k < |lines|
      ensures PdfPlan(text)[2 * k + 4] == MultiCell(FullWidth, LineHeight, lines[k])
      ensures PdfPlan(text)[2 * k + 5] == Ln(BodyGap)
    {
      assert PdfPlan(text)[2 * k + 4] == body[2 * (k - 1)];
      assert PdfPlan(text)[2 * k + 5] == body[2 * (k - 1) + 1];
    }
  }

  /** A font selected earlier stays in effect across calls that select none. */
  lemma {:induction false} CurrentFontKept(ops: seq<PdfOp>, more: seq<PdfOp>)
    requires forall i :: 0 <= i < |more| ==> !more[i].SetFont?
    ensures CurrentFont(ops + more) == CurrentFont(ops)
    decreases |more|
  {
    if more != [] {
      var n := |more| - 1;
      CurrentFontKept(ops, more[..n]);
      assert (ops + more)[..|ops + more| - 1] == ops + more[..n];
    } else {
      assert ops + more == ops;
    }
  }

  /**
   * Every call that writes text happens under the font the source selected
   * for it: the title cell under bold 16 pt, every wrapping block under
   * regular 12 pt.
   */
  lemma PdfFontDiscipline(text: string)
    ensures var ops := PdfPlan(text);
      forall i :: 0 <= i < |ops| ==>
        (ops[i].Cell? ==> CurrentFont(ops[..i]) == Some(TitleFont)) &&
        (ops[i].MultiCell? ==> CurrentFont(ops[..i]) == Some(BodyFont))
  {
    var lines := SelectLines(text);
    var ops := PdfPlan(text);
    if lines == [] {
      forall i | 0 <= i < |ops| && ops[i].MultiCell?
        ensures CurrentFont(ops[..i]) == Some(BodyFont)
      {
        assert ops[..i] == Preamble() + [SetFont(BodyFont)];
      }
    } else {
      var head := Preamble() + TitleOps(lines[0]);
      var body := BodyOps(lines[1..]);
      BodyOpsKinds(lines[1..]);
      assert ops == head + body;
      forall i | 0 <= i < |ops| && ops[i].MultiCell?
        ensures CurrentFont(ops[..i]) == Some(BodyFont)
      {
        assert ops[..i] == head + body[..i - |head|];
        CurrentFontKept(head, body[..i - |head|]);
      }
      forall i | 0 <= i < |ops| && ops[i].Cell?
        ensures CurrentFont(ops[..i]) == Some(TitleFont)
      {
        assert i < |head|;
        assert ops[..i] == Preamble() + [SetFont(TitleFont)];
      }
    }
  }

  /** The body blocks are exactly the lines given, in order. */
  lemma {:induction false} BodyRendersLines(lines: seq<string>)
    ensures RenderedTexts(BodyOps(lines)) == lines
  {
    if lines != [] {
      var n := |lines| - 1;
      var last := [MultiCell(FullWidth, LineHeight, lines[n]), Ln(BodyGap)];
      BodyRendersLines(lines[..n]);
      RenderedTextsAppend(BodyOps(lines[..n]), last);
      assert RenderedTexts(last) == [lines[n]] by {
        assert last[1..] == [Ln(BodyGap)];
        assert RenderedTexts([Ln(BodyGap)]) == [] by {
          assert [Ln(BodyGap)][1..] == [];
        }
      }
      assert lines[..n] + [lines[n]] == lines;
    }
  }

  /** RenderedTexts distributes over concatenation. */
  lemma {:induction false} RenderedTextsAppend(a: seq<PdfOp>, b: seq<PdfOp>)
    ensures RenderedTexts(a + b) == RenderedTexts(a) + RenderedTexts(b)
  {
    if a != [] {
      RenderedTextsAppend(a[1..], b);
      assert (a + b)[1..] == a[1..] + b;
    } else {
      assert a + b == b;
    }
  }

  /** Opening the page writes no text. */
  lemma PreambleRendersNothing()
    ensures RenderedTexts(Preamble()) == []
  {
  }

  /** The title calls write the title and nothing else. */
  lemma TitleRendersTitle(title: string)
    ensures RenderedTexts(TitleOps(title)) == [title]
  {
    var ops := TitleOps(title);
    assert ops[1..] == [Cell(FullWidth, LineHeight, title, NextLine, Center), Ln(TitleGap), SetFont(BodyFont)];
    assert ops[1..][1..] == [Ln(TitleGap), SetFont(BodyFont)];
    assert ops[1..][1..][1..] == [SetFont(BodyFont)];
    assert ops[1..][1..][1..][1..] == [];
    assert RenderedTexts(ops[1..][1..][1..]) == [];
    assert RenderedTexts(ops[1..][1..]) == [];
    assert RenderedTexts(ops[1..]) == [title];
  }

  /** The written texts are the selected lines, or the raw text when there are none. */
  lemma PdfRendersSelection(text: string)
    ensures RenderedTexts(PdfPlan(text)) ==
      if SelectLines(text) == [] then [text] else SelectLines(text)
  {
    var lines := SelectLines(text);
    PreambleRendersNothing();
    if lines == [] {
      var tail := [SetFont(BodyFont), MultiCell(FullWidth, LineHeight, text)];
      RenderedTextsAppend(Preamble(), tail);
      assert tail[1..] == [MultiCell(FullWidth, LineHeight, text)];
      assert tail[1..][1..] == [];
      assert RenderedTexts(tail[1..]) == [text];
    } else {
      TitleRendersTitle(lines[0]);
      assert PdfPlan(text) == Preamble() + TitleOps(lines[0]) + BodyOps(lines[1..]);
      RenderedTextsAppend(Preamble(), TitleOps(lines[0]));
      RenderedTextsAppend(Preamble() + TitleOps(lines[0]), BodyOps(lines[1..]));
      BodyRendersLines(lines[1..]);
      assert lines == [lines[0]] + lines[1..];
    }
  }
}
