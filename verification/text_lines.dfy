/**
 * Line selection shared by both formatters: the text is split on '\n' and
 * every piece whose strip() is empty is dropped, keeping the order of the
 * remaining pieces (main.py:33 and main.py:60).
 */
module TextLines {

  const Newline: char := '\n'

  /** The characters Python's str.strip() removes when given no argument. */
  predicate IsWhitespace(c: char) {
    ('\t' <= c <= '\r') || ('\U{1C}' <= c <= '\U{1F}') || c == ' ' ||
    c == '\U{85}' || c == '\U{A0}' || c == '\U{1680}' ||
    ('\U{2000}' <= c <= '\U{200A}') || c == '\U{2028}' || c == '\U{2029}' ||
    c == '\U{202F}' || c == '\U{205F}' || c == '\U{3000}'
  }

  /** A string made of whitespace only (the empty string included). */
  predicate IsBlank(s: string) {
    forall i :: 0 <= i < |s| ==> IsWhitespace(s[i])
  }

  /** Drops the leading whitespace: what remains is a suffix of `s`. */
  function TrimLeft(s: string): (r: string)
    ensures |r| <= |s| && r == s[|s| - |r|..]
    ensures forall i :: 0 <= i < |s| - |r| ==> IsWhitespace(s[i])
    ensures r != [] ==> !IsWhitespace(r[0])
    decreases |s|
  {
    if s != [] && IsWhitespace(s[0]) then TrimLeft(s[1..]) else s
  }

  /** Drops the trailing whitespace: what remains is a prefix of `s`. */
  function TrimRight(s: string): (r: string)
    ensures |r| <= |s| && r == s[..|r|]
    ensures forall i :: |r| <= i < |s| ==> IsWhitespace(s[i])
    ensures r != [] ==> !IsWhitespace(r[|r| - 1])
    decreases |s|
  {
    if s != [] && IsWhitespace(s[|s| - 1]) then TrimRight(s[..|s| - 1]) else s
  }

  /** Python's str.strip(): the string is empty exactly when `s` is blank. */
  function Strip(s: string): (r: string)
    ensures r == [] <==> IsBlank(s)
    ensures r != [] ==> !IsWhitespace(r[0]) && !IsWhitespace(r[|r| - 1])
  {
    TrimRight(TrimLeft(s))
  }

  /** Python's str.split(sep) with a one-character separator: always at least one piece. */
  function Split(s: string, sep: char): (pieces: seq<string>)
    ensures |pieces| >= 1
    ensures forall k :: 0 <= k < |pieces| ==> sep !in pieces[k]
    decreases |s|
  {
    if s == [] then [[]]
    else
      var rest := Split(s[1..], sep);
      if s[0] == sep then [[]] + rest
      else [[s[0]] + rest[0]] + rest[1..]
  }

  /** Python's sep.join(pieces). */
  function Join(pieces: seq<string>, sep: char): string
  {
    if pieces == [] then []
    else if |pieces| == 1 then pieces[0]
    else pieces[0] + [sep] + Join(pieces[1..], sep)
  }

  /**
   * The list comprehension `[p for p in pieces if p.strip()]`, built front to
   * back one piece at a time. By Strip's contract a piece passes `if p.strip()`
   * exactly when it is not blank.
   */
  function KeepNonBlank(pieces: seq<string>): (kept: seq<string>)
    ensures |kept| <= |pieces|
    ensures forall k :: 0 <= k < |kept| ==> !IsBlank(kept[k]) && kept[k] in pieces
  {
    if pieces == [] then []
    else
      var n := |pieces| - 1;
      KeepNonBlank(pieces[..n]) + (if !IsBlank(pieces[n]) then [pieces[n]] else [])
  }

  /** The positions in `pieces` of the pieces KeepNonBlank keeps, in increasing order. */
  function KeptIndices(pieces: seq<string>): (idx: seq<nat>)
    ensures |idx| == |KeepNonBlank(pieces)|
    ensures forall k :: 0 <= k < |idx| ==> idx[k] < |pieces|
    ensures forall k, l :: 0 <= k < l < |idx| ==> idx[k] < idx[l]
  {
    if pieces == [] then []
    else
      var n := |pieces| - 1;
      KeptIndices(pieces[..n]) + (if !IsBlank(pieces[n]) then [n] else [])
  }

  /** The k-th kept piece is the piece at the k-th kept position. */
  lemma {:induction false} KeptAt(pieces: seq<string>)
    ensures forall k :: 0 <= k < |KeptIndices(pieces)| ==>
      KeepNonBlank(pieces)[k] == pieces[KeptIndices(pieces)[k]]
  {
    if pieces != [] {
      var n := |pieces| - 1;
      var front := pieces[..n];
      KeptAt(front);
      var idx, kept := KeptIndices(pieces), KeepNonBlank(pieces);
      var idx0, kept0 := KeptIndices(front), KeepNonBlank(front);
      forall k | 0 <= k < |idx| ensures kept[k] == pieces[idx[k]] {
        if k < |idx0| {
          assert kept[k] == kept0[k] && idx[k] == idx0[k];
          assert front[idx0[k]] == pieces[idx0[k]];
        }
      }
    }
  }

  /** A position is kept exactly when the piece there is not blank. */
  lemma {:induction false} KeptExactlyNonBlank(pieces: seq<string>)
    ensures forall j :: 0 <= j < |pieces| ==> (j in KeptIndices(pieces) <==> !IsBlank(pieces[j]))
  {
    if pieces != [] {
      var n := |pieces| - 1;
      var front := pieces[..n];
      KeptExactlyNonBlank(front);
      var idx, idx0 := KeptIndices(pieces), KeptIndices(front);
      forall j | 0 <= j < |pieces| ensures j in idx <==> !IsBlank(pieces[j]) {
        if j < n {
          assert pieces[j] == front[j];
          assert j in idx <==> j in idx0;
        } else {
          assert j !in idx0;
        }
      }
    }
  }

  /** The lines both formatters lay out: `[line for line in text.split('\n') if line.strip()]`. */
  function SelectLines(text: string): (lines: seq<string>)
    ensures forall k :: 0 <= k < |lines| ==> Newline !in lines[k] && !IsBlank(lines[k])
  {
    KeepNonBlank(Split(text, Newline))
  }

  // ---------------------------------------------------------------------
  // Split and Join are inverse to each other.

  /** Joining the pieces of a split gives back the text. */
  lemma {:induction false} JoinSplit(s: string, sep: char)
    ensures Join(Split(s, sep), sep) == s
    decreases |s|
  {
    if s != [] {
      var rest := Split(s[1..], sep);
      JoinSplit(s[1..], sep);
      if s[0] == sep {
        assert Split(s, sep) == [[]] + rest;
        assert Join(Split(s, sep), sep) == [] + [sep] + Join(rest, sep);
        assert s == [s[0]] + s[1..];
      } else {
        var pieces := Split(s, sep);
        assert pieces == [[s[0]] + rest[0]] + rest[1..];
        if |rest| == 1 {
          assert Join(pieces, sep) == [s[0]] + rest[0];
        } else {
          assert pieces[1..] == rest[1..];
          assert Join(rest, sep) == rest[0] + [sep] + Join(rest[1..], sep);
          assert Join(pieces, sep) == [s[0]] + rest[0] + [sep] + Join(rest[1..], sep);
        }
        assert s == [s[0]] + s[1..];
      }
    }
  }

  /** Splitting a text whose first separator follows `a` puts `a` in front of the first piece. */
  lemma {:induction false} SplitAfterPrefix(a: string, b: string, sep: char)
    requires sep !in a
    ensures Split(a + b, sep) == [a + Split(b, sep)[0]] + Split(b, sep)[1..]
    decreases |a|
  {
    if a != [] {
      SplitAfterPrefix(a[1..], b, sep);
      assert (a + b)[1..] == a[1..] + b;
      assert (a + b)[0] == a[0];
      assert [a[0]] + (a[1..] + Split(b, sep)[0]) == a + Split(b, sep)[0];
    } else {
      assert a + b == b;
      assert a + Split(b, sep)[0] == Split(b, sep)[0];
      assert Split(b, sep) == [Split(b, sep)[0]] + Split(b, sep)[1..];
    }
  }

  /** Splitting a join of separator-free pieces gives the pieces back. */
  lemma {:induction false} SplitJoin(pieces: seq<string>, sep: char)
    requires |pieces| >= 1
    requires forall k :: 0 <= k < |pieces| ==> sep !in pieces[k]
    ensures Split(Join(pieces, sep), sep) == pieces
  {
    if |pieces| == 1 {
      SplitAfterPrefix(pieces[0], [], sep);
      assert pieces[0] + [] == pieces[0];
    } else {
      var tail := Join(pieces[1..], sep);
      SplitJoin(pieces[1..], sep);
      SplitAfterPrefix(pieces[0], [sep] + tail, sep);
      assert Join(pieces, sep) == pieces[0] + ([sep] + tail);
      assert Split([sep] + tail, sep) == [[]] + Split(tail, sep) by {
        assert ([sep] + tail)[1..] == tail;
      }
      assert pieces[0] + [] == pieces[0];
      assert pieces == [pieces[0]] + pieces[1..];
    }
  }

  // ---------------------------------------------------------------------
  // Blank texts and the empty selection.

  /** Every piece of a blank text is blank. */
  lemma {:induction false} SplitBlank(s: string, sep: char)
    requires IsBlank(s)
    ensures forall k :: 0 <= k < |Split(s, sep)| ==> IsBlank(Split(s, sep)[k])
    decreases |s|
  {
    if s != [] {
      SplitBlank(s[1..], sep);
      var rest := Split(s[1..], sep);
      if s[0] != sep {
        var first := [s[0]] + rest[0];
        assert IsBlank(first) by {
          forall i | 0 <= i < |first| ensures IsWhitespace(first[i]) {
            if i > 0 { assert first[i] == rest[0][i - 1]; }
          }
        }
      }
    }
  }

  /** A join of blank pieces with a whitespace separator is blank. */
  lemma {:induction false} JoinBlank(pieces: seq<string>, sep: char)
    requires IsWhitespace(sep)
    requires forall k :: 0 <= k < |pieces| ==> IsBlank(pieces[k])
    ensures IsBlank(Join(pieces, sep))
  {
    if |pieces| > 1 {
      JoinBlank(pieces[1..], sep);
      var a, b := pieces[0] + [sep], Join(pieces[1..], sep);
      forall i | 0 <= i < |a + b| ensures IsWhitespace((a + b)[i]) {
        if i < |pieces[0]| {
          assert (a + b)[i] == pieces[0][i];
        } else if i > |pieces[0]| {
          assert (a + b)[i] == b[i - |a|];
        }
      }
    }
  }

  /** Nothing is kept of pieces that are all blank. */
  lemma {:induction false} KeepNoneOfBlank(pieces: seq<string>)
    requires forall k :: 0 <= k < |pieces| ==> IsBlank(pieces[k])
    ensures KeepNonBlank(pieces) == []
  {
    if pieces != [] {
      KeepNoneOfBlank(pieces[..|pieces| - 1]);
    }
  }

  /** No line is selected exactly when the whole text is blank. */
  lemma SelectLinesEmpty(text: string)
    ensures SelectLines(text) == [] <==> IsBlank(text)
  {
    var pieces := Split(text, Newline);
    if IsBlank(text) {
      SplitBlank(text, Newline);
      KeepNoneOfBlank(pieces);
    } else {
      JoinSplit(text, Newline);
      if forall k :: 0 <= k < |pieces| ==> IsBlank(pieces[k]) {
        JoinBlank(pieces, Newline);
      }
      var k :| 0 <= k < |pieces| && !IsBlank(pieces[k]);
      KeptExactlyNonBlank(pieces);
      assert k in KeptIndices(pieces);
    }
  }

  // ---------------------------------------------------------------------
  // Texts with Windows line endings.

  /** A text whose every line ends with "\r\n". */
  function CrlfText(lines: seq<string>): string
  {
    if lines == [] then [] else lines[0] + "\r\n" + CrlfText(lines[1..])
  }

  /** KeepNonBlank distributes over concatenation. */
  lemma {:induction false} KeepNonBlankAppend(a: seq<string>, b: seq<string>)
    ensures KeepNonBlank(a + b) == KeepNonBlank(a) + KeepNonBlank(b)
    decreases |b|
  {
    if b != [] {
      var n := |b| - 1;
      KeepNonBlankAppend(a, b[..n]);
      assert (a + b)[..|a + b| - 1] == a + b[..n];
      assert (a + b)[|a + b| - 1] == b[n];
    } else {
      assert a + b == a;
    }
  }

  /** Splitting a text after a first line ended by "\r\n" keeps the '\r' on that line. */
  lemma CrlfSplitStep(line: string, rest: string)
    requires Newline !in line
    ensures Split(line + "\r\n" + rest, Newline) == [line + "\r"] + Split(rest, Newline)
  {
    var first := line + "\r";
    assert line + "\r\n" + rest == first + ("\n" + rest);
    SplitAfterPrefix(first, "\n" + rest, Newline);
    assert ("\n" + rest)[1..] == rest;
    assert Split("\n" + rest, Newline) == [[]] + Split(rest, Newline);
    assert first + [] == first;
  }

  /**
   * In a text with "\r\n" line endings the '\r' stays at the end of every
   * selected line, and the empty piece after the final "\r\n" is dropped.
   */
  lemma {:induction false} CrlfLinesKeepCarriageReturn(lines: seq<string>)
    requires forall k :: 0 <= k < |lines| ==> Newline !in lines[k] && !IsBlank(lines[k])
    ensures SelectLines(CrlfText(lines)) == seq(|lines|, k requires 0 <= k < |lines| => lines[k] + "\r")
  {
    if lines == [] {
      assert Split([], Newline) == [[]];
      assert KeepNonBlank([[]]) == KeepNonBlank([]) + [];
    } else {
      var line, rest := lines[0] + "\r", lines[1..];
      CrlfLinesKeepCarriageReturn(rest);
      assert !IsBlank(line) by {
        var i :| 0 <= i < |lines[0]| && !IsWhitespace(lines[0][i]);
        assert line[i] == lines[0][i];
      }
      CrlfSplitStep(lines[0], CrlfText(rest));
      KeepNonBlankAppend([line], Split(CrlfText(rest), Newline));
      assert KeepNonBlank([line]) == KeepNonBlank([]) + [line];
    }
  }
}
