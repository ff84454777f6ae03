# Text-to-document layout of the creative-AI backend

The backend turns generated prose into a Word document (`create_formatted_docx`)
or a PDF (`create_formatted_pdf`). Both formatters share one rule for picking
lines. The text is split on `'\n'`. Every piece whose `strip()` is empty is
dropped, and the rest keep their order. The first selected line becomes the
title and the others become body paragraphs. When no line survives, the raw
text is written as a single block.

This project models that rule in Dafny and proves what it promises.

- `text_lines.dfy` (module `TextLines`): Python's `str.strip()`,
  `str.split('\n')` and `'\n'.join`, plus the list comprehension that selects
  the lines. These are pure functions with lemmas: the split/join round trip,
  the selection being exactly the non-blank pieces in order, the empty
  selection, and `"\r\n"` endings.
- `docx_formatter.dfy` (module `DocxFormatter`): a `Document` class that holds
  its body as a sequence of blocks, where a block is `Heading` or `Paragraph`
  with an optional `space_after`. The method `CreateFormattedDocx` builds the
  document step by step, as the source does. Its loop is proved against the
  specification function `DocxPlan`.
- `pdf_formatter.dfy` (module `PdfFormatter`): a `Pdf` class that records the
  calls made on the FPDF object and the font currently selected. Its invariant
  ties that font to the last `SetFont` call. The method `CreateFormattedPdf` is
  proved against `PdfPlan`, and its loop keeps the regular 12 pt font in effect.
- `formatters.dfy` (module `Formatters`): the two documents carry the same
  texts. It also covers the scenarios `"Hello\n\nWorld"` (stated for any title
  and body line) and `""`.
- `wrappers.dfy`: the `Option` type.

Lengths are written out exactly. `Inches(0.15)` is 137160 English Metric Units,
which is `int(0.15 * 914400)`. The title heading has level 1. The PDF margin is
15, cells are 10 high, and the gaps are 10 after the title and 5 after each
body line. A cell width of 0 means "up to the right margin". `ln=True` on the
title cell is FPDF's break mode 1, which moves to the next line (`NextLine`).

Whitespace is the exact set that Python's `str.strip()` removes with no
argument: U+0009 to U+000D, U+001C to U+001F, U+0020, U+0085, U+00A0, U+1680,
U+2000 to U+200A, U+2028, U+2029, U+202F, U+205F and U+3000.

Both formatters are deterministic. `DocxPlan` and `PdfPlan` are functions of
the text, and each method's postcondition fixes its result to them.

## Model

| member | source | states |
|---|---|---|
| `TextLines.Strip` | main.py:33 | `strip()` returns the empty string exactly when the line is whitespace only; a non-empty result starts and ends with a non-whitespace character |
| `TextLines.TrimLeft` | main.py:33 | drops exactly the leading whitespace: the result is a suffix, everything removed is whitespace, and the result does not start with whitespace |
| `TextLines.TrimRight` | main.py:33 | drops exactly the trailing whitespace: the result is a prefix, everything removed is whitespace, and the result does not end with whitespace |
| `TextLines.Split` | main.py:33 | `text.split('\n')` always yields at least one piece and no piece contains `'\n'` |
| `TextLines.JoinSplit` | main.py:33 | joining the split pieces with `'\n'` gives back the input text |
| `TextLines.SplitJoin` | main.py:33 | splitting a `'\n'`-join of newline-free pieces gives back those pieces, so the split is the only such decomposition |
| `TextLines.KeepNonBlank` | main.py:33 | the comprehension keeps no more pieces than it is given, and every kept piece is non-blank and one of the pieces |
| `TextLines.KeptIndices` | main.py:33 | the positions of the kept pieces are strictly increasing and within the input |
| `TextLines.KeptAt` | main.py:33 | the k-th kept line is the piece at the k-th kept position (order is preserved) |
| `TextLines.KeptExactlyNonBlank` | main.py:33 | a piece is kept if and only if it is not whitespace-only |
| `TextLines.SelectLines` | main.py:60 | every selected line is free of `'\n'` and has a non-whitespace character |
| `TextLines.SelectLinesEmpty` | main.py:34 | no line is selected if and only if the whole text is whitespace only (including `""`) |
| `TextLines.CrlfLinesKeepCarriageReturn` | main.py:33 | for a text with `"\r\n"` line endings, each selected line keeps its trailing `'\r'`, and the empty piece after the last ending is dropped |
| `DocxFormatter.Document.constructor` | main.py:32 | a new document has an empty body |
| `DocxFormatter.Document.AddHeading` | main.py:37 | `add_heading` appends a heading with the given text and level |
| `DocxFormatter.Document.AddParagraph` | main.py:39 | `add_paragraph` appends an unspaced paragraph and returns its position |
| `DocxFormatter.Document.SetSpaceAfter` | main.py:40 | setting `space_after` changes that paragraph's spacing and nothing else |
| `DocxFormatter.CreateFormattedDocx` | main.py:31-44 | building the document call by call yields exactly `DocxPlan(text)` |
| `DocxFormatter.DocxEmptyCase` | main.py:34-35 | for a whitespace-only text, the document is one unspaced paragraph holding the raw text |
| `DocxFormatter.DocxNonEmptyCase` | main.py:36-40 | otherwise there is one block per selected line: a level-1 heading with the first line, then paragraphs with the following lines in order, each with 0.15 in after it |
| `DocxFormatter.DocxBlocksAreLines` | main.py:37-40 | only the first block is a heading, every paragraph has the 0.15 in spacing, and no block is blank or spans lines |
| `DocxFormatter.DocxRendersSelection` | main.py:33-40 | the block texts are the selected lines, or only the raw text when none are selected |
| `PdfFormatter.CurrentFontIsLastSelected` | main.py:63-69 | there is no current font before any `set_font`; after one, the current font is the one the last `set_font` chose |
| `PdfFormatter.Pdf.constructor` | main.py:49 | a new FPDF object has made no call and has no font selected |
| `PdfFormatter.Pdf.AddPage` | main.py:58 | `add_page` is recorded and leaves the font unchanged |
| `PdfFormatter.Pdf.SetAutoPageBreak` | main.py:59 | `set_auto_page_break` is recorded and leaves the font unchanged |
| `PdfFormatter.Pdf.SetFont` | main.py:66 | `set_font` is recorded and makes its font the current one |
| `PdfFormatter.Pdf.Cell` | main.py:67 | `cell` needs a font to be selected, is recorded, and leaves the font unchanged |
| `PdfFormatter.Pdf.MultiCell` | main.py:71 | `multi_cell` needs a font to be selected, is recorded, and leaves the font unchanged |
| `PdfFormatter.Pdf.Ln` | main.py:72 | `ln` is recorded and leaves the font unchanged |
| `PdfFormatter.BodyOpsAt` | main.py:70-72 | body line k is drawn by call 2k as a full-width wrapping block, and call 2k+1 is `ln(5)` |
| `PdfFormatter.BodyOpsKinds` | main.py:70-72 | the body loop only draws wrapping blocks and gaps, so it never changes the font |
| `PdfFormatter.CreateFormattedPdf` | main.py:47-75 | drawing the document call by call yields exactly `PdfPlan(text)`; the loop invariant keeps the current font at regular 12 pt |
| `PdfFormatter.PdfEmptyCase` | main.py:62-64 | for a whitespace-only text: regular 12 pt, then the raw text as one wrapping block |
| `PdfFormatter.PdfNonEmptyCase` | main.py:65-72 | otherwise: bold 16 pt, the first line in a centred full-width cell, one `ln(10)`, regular 12 pt, then each further line in order as a wrapping block directly followed by `ln(5)` |
| `PdfFormatter.CurrentFontKept` | main.py:69-72 | calls that select no font leave the current font as it was |
| `PdfFormatter.PdfFontDiscipline` | main.py:63-72 | the title cell is drawn under bold 16 pt, and every wrapping block under regular 12 pt |
| `PdfFormatter.BodyRendersLines` | main.py:70-72 | the body loop writes exactly the body lines, in order |
| `PdfFormatter.PreambleRendersNothing` | main.py:58-59 | opening the page writes no text |
| `PdfFormatter.TitleRendersTitle` | main.py:66-69 | the title calls write the title and nothing else |
| `PdfFormatter.PdfRendersSelection` | main.py:60-72 | the written texts are the selected lines, or only the raw text when none are selected |
| `Formatters.SameSelection` | main.py:31-75 | the Word document and the PDF carry the same texts in the same order, and at least one |
| `Formatters.TitleBlankLineBody` | main.py:33-40 | for "title, empty line, body" (as in `"Hello\n\nWorld"`), the selection is `[title, body]`, the Word document is a heading plus one spaced paragraph, and the PDF is the title calls plus one body block and its gap |
| `Formatters.EmptyText` | main.py:62-64 | for `""`, the Word document is one empty paragraph and the PDF is regular 12 pt plus one empty wrapping block |

## Left out

- Byte output: `Document.save` (main.py:41-43) and `pdf.output` (main.py:74) belong to python-docx and FPDF. The model stops at the blocks and the calls that drive them.
- Font registration: `pdf.add_font` for `fonts/arial.ttf` and `fonts/arialbd.ttf` (main.py:52-56) is file I/O. Its only failure mode is a missing or unreadable file, which the source does not catch.
- Page geometry: automatic page breaking, line wrapping and cell positions are computed inside FPDF. Only the numbers the source passes are recorded.
- Server plumbing: the FastAPI app, the CORS middleware, the request models, the health route and the `StreamingResponse` endpoints with their headers (main.py:14-29 and main.py:77-80, 97-107).
- Text generation: the Groq client call in `generate_text` (main.py:82-95) is a network call. Its `(dict, status)` error returns are framework behaviour.
- Lone surrogates: a Python `str` may hold them, but a Dafny `char` is a Unicode scalar value, so texts containing them are not modelled.
- PdfFormatter.Pdf.Cell: its requirement that a font is selected stands for FPDF's "no font set" error. The source never triggers that error, so the error path is not modelled.
- PdfFormatter.Pdf.MultiCell: it has the same font requirement, for the same reason.
