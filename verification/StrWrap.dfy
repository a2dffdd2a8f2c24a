/** Wrapping text: a growing output buffer, and the lines it is filled with. */
module StrWrap {
  import opened ShellLex

  // ----- the words of a text -------------------------------------------------------------------

  /** A word, and how many newlines are in the blanks before it. */
  datatype Tok = Tok(newlines: nat, word: string)

  datatype Scan = Scan(toks: seq<Tok>, newlines: nat, inWord: bool)

  function ScanChar(s: Scan, c: char): Scan
    requires s.inWord ==> s.toks != []
  {
    if IsSpace(c) then Scan(s.toks, (if s.inWord then 0 else s.newlines) + (if c == '\n' then 1 else 0), false)
    else if s.inWord then
      var last := |s.toks| - 1;
      Scan(s.toks[..last] + [s.toks[last].(word := s.toks[last].word + [c])], 0, true)
    else Scan(s.toks + [Tok(s.newlines, [c])], 0, true)
  }

  function ScanText(text: string): (s: Scan)
    ensures s.inWord ==> s.toks != []
    ensures forall k :: 0 <= k < |s.toks| ==> s.toks[k].word != ""
  {
    if text == "" then Scan([], 0, false) else ScanChar(ScanText(text[..|text| - 1]), text[|text| - 1])
  }

  function WordsOf(toks: seq<Tok>): seq<string> {
    if toks == [] then [] else WordsOf(toks[..|toks| - 1]) + [toks[|toks| - 1].word]
  }

  /** The words of a text. */
  function Words(text: string): seq<string> { WordsOf(ScanText(text).toks) }

  // ----- lines -----------------------------------------------------------------------------------

  /** A line of words, with an empty line before it or not. */
  datatype Line = Line(para: bool, words: seq<string>)

  datatype Layout = Layout(lines: seq<Line>, newPara: bool)

  /** The columns that words take on a line. */
  function Width(words: seq<string>): nat {
    if words == [] then 0
    else Width(words[..|words| - 1]) + |words[|words| - 1]| + if |words| > 1 then 1 else 0
  }

  /** A gap of two newlines, once there are two lines, asks for an empty line at the next break. */
  function Paragraph(l: Layout, newlines: nat): Layout {
    Layout(l.lines, l.newPara || (|l.lines| > 1 && newlines >= 2))
  }

  /** Placing a word, on the last line if it fits. */
  function Place(l: Layout, word: string, maxCols: nat, startOff: nat): Layout {
    if l.lines == [] then Layout([Line(false, [word])], l.newPara)
    else
      var last := l.lines[|l.lines| - 1];
      if startOff + Width(last.words) + |word| + 1 > maxCols then
        Layout(l.lines + [Line(l.newPara, [word])], false)
      else Layout(l.lines[..|l.lines| - 1] + [last.(words := last.words + [word])], l.newPara)
  }

  function PlaceAll(toks: seq<Tok>, maxCols: nat, startOff: nat): Layout {
    if toks == [] then Layout([], false)
    else
      var tok := toks[|toks| - 1];
      Place(Paragraph(PlaceAll(toks[..|toks| - 1], maxCols, startOff), tok.newlines), tok.word, maxCols, startOff)
  }

  /** The lines of a wrapped text. */
  function LinesOf(text: string, maxCols: nat, startOff: nat): seq<Line> {
    PlaceAll(ScanText(text).toks, maxCols, startOff).lines
  }

  function LineText(words: seq<string>): string {
    if words == [] then ""
    else if |words| == 1 then words[0]
    else LineText(words[..|words| - 1]) + " " + words[|words| - 1]
  }

  function Spaces(n: nat): string { if n == 0 then "" else Spaces(n - 1) + " " }

  function Break(para: bool, startOff: nat): string { "\n" + (if para then "\n" else "") + Spaces(startOff) }

  function Render(lines: seq<Line>, startOff: nat): string {
    if lines == [] then ""
    else
      var last := lines[|lines| - 1];
      Render(lines[..|lines| - 1], startOff)
      + (if |lines| > 1 then Break(last.para, startOff) else "") + LineText(last.words)
  }

  lemma SpacesLength(n: nat)
    ensures |Spaces(n)| == n && forall k :: 0 <= k < n ==> Spaces(n)[k] == ' '
  {
  }

  lemma RenderBreak(lines: seq<Line>, line: Line, startOff: nat)
    requires lines != []
    ensures Render(lines + [line], startOff)
         == Render(lines, startOff) + Break(line.para, startOff) + LineText(line.words)
  {
    assert (lines + [line])[..|lines|] == lines;
  }

  lemma RenderJoin(lines: seq<Line>, word: string, startOff: nat)
    requires lines != [] && lines[|lines| - 1].words != []
    ensures
      var last := lines[|lines| - 1];
      Render(lines[..|lines| - 1] + [last.(words := last.words + [word])], startOff)
      == Render(lines, startOff) + " " + word
  {
    var front, last := lines[..|lines| - 1], lines[|lines| - 1];
    var words := last.words + [word];
    assert (front + [last.(words := words)])[..|front|] == front;
    assert words[..|last.words|] == last.words;
    var gap := if |lines| > 1 then Break(last.para, startOff) else "";
    assert Render(front, startOff) + gap + (LineText(last.words) + " " + word)
           == Render(front, startOff) + gap + LineText(last.words) + " " + word;
  }

  lemma WidthOne(word: string)
    ensures Width([word]) == |word|
  {
    assert [word][..0] == [];
    assert Width([]) == 0;
  }

  lemma WidthMore(words: seq<string>, word: string)
    requires words != []
    ensures Width(words + [word]) == Width(words) + |word| + 1
  {
    assert (words + [word])[..|words|] == words;
  }

  // ----- the output buffer -------------------------------------------------------------------------

  /** A buffer holds a text and its terminator. */
  ghost predicate Buffer(output: array?<char>, size: nat, len: nat, text: string)
    reads output
  {
    && len == |text|
    && (output == null ==> text == "" && size == 0)
    && (output != null ==> len < size == output.Length && output[..len] == text && output[len] == '\0')
  }

  /** Formatting text into the buffer, with its terminator. */
  method Format(output: array<char>, len: nat, text: string) returns (end: nat)
    requires len + |text| < output.Length
    modifies output
    ensures end == len + |text|
    ensures output[..end] == old(output[..len]) + text && output[end] == '\0'
  {
    var k := 0;
    while k < |text|
      invariant 0 <= k <= |text|
      invariant output[..len + k] == old(output[..len]) + text[..k]
    {
      output[len + k] := text[k];
      k := k + 1;
    }
    end := len + |text|;
    output[end] := '\0';
  }

  /** A size got by doubling a first one. */
  predicate Doubled(first: nat, size: nat) {
    size == first || (first < size && size % 2 == 0 && Doubled(first, size / 2))
  }

  /** Making room for a word, an offset and a margin: the size is doubled, at least once, and no more than needed. */
  method Grow(output: array?<char>, len: nat, size: nat, need: nat, ghost text: string)
    returns (grown: array<char>, newSize: nat)
    requires Buffer(output, size, len, text)
    ensures Buffer(grown, newSize, len, text) || (output == null && fresh(grown) && grown.Length == newSize)
    ensures len + need <= newSize == grown.Length
    ensures
      if output != null && size - len >= need then grown == output && newSize == size
      else
        var first := if size == 0 then 256 else size * 2;
        fresh(grown) && Doubled(first, newSize) && (newSize == first || newSize / 2 < len + need)
  {
    if output != null && size - len >= need {
      return output, size;
    }
    newSize := if size == 0 then 256 else size * 2;
    ghost var first := newSize;
    while newSize < len + need
      invariant newSize > len && newSize > 0
      invariant first <= newSize && Doubled(first, newSize) && (newSize == first || newSize / 2 < len + need)
      decreases len + need - newSize
    {
      newSize := newSize * 2;
    }
    grown := new char[newSize](_ => '\0');
    var k := 0;
    while k < len
      invariant 0 <= k <= len
      invariant output != null || len == 0
      invariant output != null ==> grown[..k] == output[..k] && Buffer(output, size, len, text)
      invariant forall i :: k <= i < newSize ==> grown[i] == '\0'
    {
      grown[k] := output[k];
      k := k + 1;
    }
  }

  /** The state of the wrapper. The output buffer is allocated with the first word. */
  class WrapState {
    const startOff: nat
    const maxCols: nat
    var lineNo: nat
    var lineLength: nat
    var newPara: bool
    var output: array?<char>
    var len: nat
    var size: nat

    constructor (maxCols: nat, startOff: nat)
      ensures Holds(Layout([], false)) && output == null
      ensures this.maxCols == maxCols && this.startOff == startOff
    {
      this.maxCols, this.startOff := maxCols, startOff;
      lineNo, lineLength, newPara, output, len, size := 0, startOff, false, null, 0, 0;
    }

    /** The variables are those of a layout, and the buffer holds its text. */
    ghost predicate Holds(l: Layout)
      reads this, output
    {
      && Counters(l, startOff, lineNo, lineLength, newPara)
      && (output == null <==> l.lines == [])
      && Buffer(output, size, len, Render(l.lines, startOff))
    }

    /** An empty line is wanted before the next line. */
    method AskParagraph(newlines: nat, ghost l: Layout)
      requires Holds(l)
      modifies this`newPara
      ensures Holds(Paragraph(l, newlines))
    {
      if lineNo != 0 && newlines >= 2 {
        newPara := true;
      }
    }

    /** Starting a new line, with the padding of the offset. */
    method StartLine(buffer: array<char>)
      requires buffer == output && len + startOff + 2 < buffer.Length
      modifies this`len, this`lineLength, this`lineNo, this`newPara, buffer
      ensures len == old(len) + |Break(old(newPara), startOff)| <= old(len) + startOff + 2
      ensures buffer[..len] == old(buffer[..len]) + Break(old(newPara), startOff)
      ensures lineLength == startOff && lineNo == old(lineNo) + 1 && !newPara
    {
      hide Break;
      BreakLength(newPara, startOff);
      len := Format(buffer, len, Break(newPara, startOff));
      lineLength := startOff;
      lineNo := lineNo + 1;
      newPara := false;
    }

    /** Appending a word, after a space or on a new line. */
    method AppendToken(token: string, ghost l: Layout)
      requires Holds(l) && token != ""
      modifies this, output
      ensures Holds(Place(l, token, maxCols, startOff))
      ensures output != null && (output == old(output) || fresh(output))
    {
      hide Render, Buffer, Place, Counters, Break;
      ghost var text := Render(l.lines, startOff);
      ghost var para := newPara;
      Placed(l, token, maxCols, startOff, lineNo, lineLength, newPara);
      var written := lineLength - startOff;
      var grown, newSize := Grow(output, len, size, |token| + startOff + 5, text);
      BufferText(output, grown, newSize, len, size, text);
      output, size := grown, newSize;
      var broken := lineLength + |token| + 1 > maxCols && written > 0;
      if broken {
        StartLine(grown);
        written := 0;
      }
      ghost var head := text + if broken then Break(para, startOff) else "";
      assert grown[..len] == head;
      var piece := (if written > 0 then " " else "") + token;
      len := Format(grown, len, piece);
      lineLength := lineLength + |token| + if written > 0 then 1 else 0;
      assert grown[..len] == head + piece;
      BufferIs(grown, size, len, Render(Place(l, token, maxCols, startOff).lines, startOff));
    }
  }

  ghost predicate Counters(l: Layout, startOff: nat, lineNo: nat, lineLength: nat, newPara: bool) {
    && newPara == l.newPara
    && lineNo == (if l.lines == [] then 0 else |l.lines| - 1)
    && lineLength == startOff + (if l.lines == [] then 0 else Width(l.lines[|l.lines| - 1].words))
    && (l.lines != [] ==> l.lines[|l.lines| - 1].words != [] && Width(l.lines[|l.lines| - 1].words) > 0)
  }

  lemma BreakLength(para: bool, startOff: nat)
    ensures |Break(para, startOff)| <= startOff + 2
  {
    SpacesLength(startOff);
  }

  lemma BufferText(output: array?<char>, grown: array<char>, newSize: nat, len: nat, size: nat, text: string)
    requires Buffer(output, size, len, text)
    requires Buffer(grown, newSize, len, text) || (output == null && grown.Length == newSize)
    requires len < newSize == grown.Length
    ensures grown[..len] == text && len == |text|
  {
  }

  lemma BufferIs(output: array<char>, size: nat, len: nat, text: string)
    requires size == output.Length && len < size && output[..len] == text && output[len] == '\0'
    ensures Buffer(output, size, len, text)
  {
  }

  /** What appending a word does to the counters and to the text. */
  lemma Placed(l: Layout, word: string, maxCols: nat, startOff: nat, lineNo: nat, lineLength: nat, newPara: bool)
    requires Counters(l, startOff, lineNo, lineLength, newPara) && word != ""
    ensures
      var broken := lineLength + |word| + 1 > maxCols && lineLength > startOff;
      var spaced := !broken && lineLength > startOff;
      var after := Place(l, word, maxCols, startOff);
      && Counters(after, startOff, lineNo + (if broken then 1 else 0),
                  (if broken then startOff else lineLength) + |word| + (if spaced then 1 else 0),
                  newPara && !broken)
      && after.lines != [] && lineLength >= startOff
      && Render(after.lines, startOff) ==
         Render(l.lines, startOff) + (if broken then Break(newPara, startOff) else "")
         + ((if spaced then " " else "") + word)
  {
    hide Render, Width, Spaces, Break;
    WidthOne(word);
    if l.lines == [] {
      RenderOne(word, startOff);
    } else {
      var last := l.lines[|l.lines| - 1];
      RenderBreak(l.lines, Line(l.newPara, [word]), startOff);
      RenderJoin(l.lines, word, startOff);
      WidthMore(last.words, word);
    }
  }

  lemma RenderOne(word: string, startOff: nat)
    ensures Render([Line(false, [word])], startOff) == word && Render([], startOff) == ""
  {
    assert [Line(false, [word])][..0] == [];
    assert Render([], startOff) == "";
  }

  // ----- scanning the text ---------------------------------------------------------------------------

  lemma ScanNext(text: string, pos: nat)
    requires pos < |text|
    ensures ScanText(text[..pos + 1]) == ScanChar(ScanText(text[..pos]), text[pos])
  {
    assert text[..pos + 1][..pos] == text[..pos];
  }

  /** Between words: no word, or a word that a blank or the end of the text closes. */
  predicate AtGap(text: string, pos: nat) {
    pos <= |text| && (ScanText(text[..pos]).inWord ==> pos == |text| || IsSpace(text[pos]))
  }

  method SkipBlanks(text: string, start: nat) returns (pos: nat, newlines: nat)
    requires AtGap(text, start) && start < |text| && (start == 0 || ScanText(text[..start]).inWord)
    ensures start <= pos <= |text| && (pos < |text| ==> !IsSpace(text[pos]))
    ensures ScanText(text[..pos]) == Scan(ScanText(text[..start]).toks, newlines, false)
  {
    hide ScanText;
    pos, newlines := start, 0;
    ScanStart(text);
    while pos < |text| && IsSpace(text[pos])
      invariant start <= pos <= |text|
      invariant
        ScanText(text[..pos]) ==
        if pos == start then ScanText(text[..start]) else Scan(ScanText(text[..start]).toks, newlines, false)
      invariant pos == start ==> newlines == 0
    {
      ScanNext(text, pos);
      if text[pos] == '\n' {
        newlines := newlines + 1;
      }
      pos := pos + 1;
    }
  }

  lemma ScanStart(text: string)
    ensures ScanText(text[..0]) == Scan([], 0, false)
  {
  }

  method SkipWord(text: string, start: nat) returns (pos: nat)
    requires start <= |text| && !ScanText(text[..start]).inWord
    ensures start <= pos <= |text| && (pos == |text| || IsSpace(text[pos]))
    ensures pos == start ==> start == |text| || IsSpace(text[start])
    ensures pos > start ==>
      var before := ScanText(text[..start]);
      ScanText(text[..pos]) == Scan(before.toks + [Tok(before.newlines, text[start..pos])], 0, true)
  {
    hide ScanText;
    pos := start;
    ghost var before := ScanText(text[..start]);
    while pos < |text| && !IsSpace(text[pos])
      invariant start <= pos <= |text|
      invariant
        ScanText(text[..pos]) ==
        if pos == start then before else Scan(before.toks + [Tok(before.newlines, text[start..pos])], 0, true)
    {
      ScanNext(text, pos);
      WordMore(before, text, start, pos);
      pos := pos + 1;
    }
  }

  lemma WordMore(before: Scan, text: string, start: nat, pos: nat)
    requires start <= pos < |text| && !before.inWord && !IsSpace(text[pos])
    ensures
      ScanChar(if pos == start then before else Scan(before.toks + [Tok(before.newlines, text[start..pos])], 0, true),
               text[pos])
      == Scan(before.toks + [Tok(before.newlines, text[start..pos + 1])], 0, true)
  {
    var word := Tok(before.newlines, text[start..pos]);
    assert (before.toks + [word])[..|before.toks|] == before.toks;
    assert text[start..pos + 1] == text[start..pos] + [text[pos]];
    assert pos == start ==> text[start..pos + 1] == [text[pos]];
  }

  lemma PlacedAll(toks: seq<Tok>, tok: Tok, maxCols: nat, startOff: nat)
    ensures
      PlaceAll(toks + [tok], maxCols, startOff) ==
      Place(Paragraph(PlaceAll(toks, maxCols, startOff), tok.newlines), tok.word, maxCols, startOff)
  {
    assert (toks + [tok])[..|toks|] == toks;
  }

  // ----- wrapping --------------------------------------------------------------------------------------

  method Wrap(text: string, maxCols: nat, startOff: nat) returns (out: array<char>, len: nat)
    ensures fresh(out) && Buffer(out, out.Length, len, Render(LinesOf(text, maxCols, startOff), startOff))
  {
    hide ScanText, PlaceAll, Place, Render, Buffer, Counters;
    var state := new WrapState(maxCols, startOff);
    var pos := 0;
    ghost var l := Layout([], false);
    ScanStart(text);
    PlacedNone(maxCols, startOff);
    while pos < |text|
      invariant AtGap(text, pos) && (pos == 0 || pos == |text| || ScanText(text[..pos]).inWord)
      invariant fresh(state) && (state.output != null ==> fresh(state.output))
      invariant state.maxCols == maxCols && state.startOff == startOff && state.Holds(l)
      invariant l.lines == PlaceAll(ScanText(text[..pos]).toks, maxCols, startOff).lines
      invariant pos < |text| ==> l == PlaceAll(ScanText(text[..pos]).toks, maxCols, startOff)
    {
      var newlines;
      ghost var toks := ScanText(text[..pos]).toks;
      pos, newlines := SkipBlanks(text, pos);
      state.AskParagraph(newlines, l);
      l := Paragraph(l, newlines);
      var start := pos;
      pos := SkipWord(text, pos);
      if pos > start {
        state.AppendToken(text[start..pos], l);
        l := Place(l, text[start..pos], maxCols, startOff);
        PlacedAll(toks, Tok(newlines, text[start..pos]), maxCols, startOff);
      }
    }
    assert text[..pos] == text;
    len := state.len;
    if state.output == null {
      out := new char[1](_ => '\0');
      EmptyOutput(out, state.size, len, Render(l.lines, startOff));
    } else {
      out := state.output;
      OutputSize(out, state.size, len, Render(l.lines, startOff));
    }
  }

  lemma PlacedNone(maxCols: nat, startOff: nat)
    ensures PlaceAll([], maxCols, startOff) == Layout([], false)
  {
  }

  lemma EmptyOutput(out: array<char>, size: nat, len: nat, text: string)
    requires out.Length == 1 && out[0] == '\0' && Buffer(null, size, len, text)
    ensures Buffer(out, 1, len, text)
  {
  }

  lemma OutputSize(out: array<char>, size: nat, len: nat, text: string)
    requires Buffer(out, size, len, text)
    ensures size == out.Length
  {
  }

  // ----- what the wrapped text is -------------------------------------------------------------------

  /** A word has no blanks in it. */
  ghost predicate Solid(word: string) {
    word != "" && forall k :: 0 <= k < |word| ==> !IsSpace(word[k])
  }

  ghost predicate SolidLines(lines: seq<Line>) {
    forall k :: 0 <= k < |lines| ==>
      lines[k].words != [] && forall w :: 0 <= w < |lines[k].words| ==> Solid(lines[k].words[w])
  }

  lemma {:induction false} ScannedSolid(text: string)
    ensures forall k :: 0 <= k < |ScanText(text).toks| ==> Solid(ScanText(text).toks[k].word)
    decreases |text|
  {
    if text != "" {
      ScannedSolid(text[..|text| - 1]);
    }
  }

  lemma PlaceSolid(l: Layout, word: string, maxCols: nat, startOff: nat)
    requires SolidLines(l.lines) && Solid(word)
    ensures SolidLines(Place(l, word, maxCols, startOff).lines)
  {
    hide Width, Solid;
  }

  lemma {:induction false} PlacedSolid(toks: seq<Tok>, maxCols: nat, startOff: nat)
    requires forall k :: 0 <= k < |toks| ==> Solid(toks[k].word)
    ensures SolidLines(PlaceAll(toks, maxCols, startOff).lines)
    decreases |toks|
  {
    hide Place, Solid;
    if toks != [] {
      var front, tok := toks[..|toks| - 1], toks[|toks| - 1];
      PlacedSolid(front, maxCols, startOff);
      PlaceSolid(Paragraph(PlaceAll(front, maxCols, startOff), tok.newlines), tok.word, maxCols, startOff);
    }
  }

  /** All the words of the lines, in order. */
  function Flat(lines: seq<Line>): seq<string> {
    if lines == [] then [] else Flat(lines[..|lines| - 1]) + lines[|lines| - 1].words
  }

  lemma FlatMore(lines: seq<Line>, line: Line)
    ensures Flat(lines + [line]) == Flat(lines) + line.words
  {
    assert (lines + [line])[..|lines|] == lines;
  }

  lemma PlaceFlat(l: Layout, word: string, maxCols: nat, startOff: nat)
    ensures Flat(Place(l, word, maxCols, startOff).lines) == Flat(l.lines) + [word]
  {
    hide Width, Flat;
    if l.lines == [] {
      assert [] + [Line(false, [word])] == [Line(false, [word])];
      FlatMore([], Line(false, [word]));
    } else {
      var front, last := l.lines[..|l.lines| - 1], l.lines[|l.lines| - 1];
      FlatMore(l.lines, Line(l.newPara, [word]));
      FlatMore(front, last.(words := last.words + [word]));
      assert l.lines == front + [last];
      FlatMore(front, last);
    }
  }

  lemma {:induction false} PlacedFlat(toks: seq<Tok>, maxCols: nat, startOff: nat)
    ensures Flat(PlaceAll(toks, maxCols, startOff).lines) == WordsOf(toks)
    decreases |toks|
  {
    hide Place, Flat;
    if toks == [] {
      FlatNone();
    } else {
      var front, tok := toks[..|toks| - 1], toks[|toks| - 1];
      PlacedFlat(front, maxCols, startOff);
      PlaceFlat(Paragraph(PlaceAll(front, maxCols, startOff), tok.newlines), tok.word, maxCols, startOff);
    }
  }

  lemma FlatNone()
    ensures Flat([]) == []
  {
  }

  // ----- the words of the output ----------------------------------------------------------------------

  lemma {:induction false} ScanBlanks(text: string, blanks: string)
    requires forall k :: 0 <= k < |blanks| ==> IsSpace(blanks[k])
    ensures ScanText(text + blanks).toks == ScanText(text).toks
    ensures blanks != "" ==> !ScanText(text + blanks).inWord
    decreases |blanks|
  {
    if blanks == "" {
      assert text + blanks == text;
    } else {
      var front := blanks[..|blanks| - 1];
      ScanBlanks(text, front);
      assert (text + blanks)[..|text + blanks| - 1] == text + front;
    }
  }

  lemma {:induction false} ScanWord(text: string, word: string)
    requires Solid(word) && !ScanText(text).inWord
    ensures
      ScanText(text + word) == Scan(ScanText(text).toks + [Tok(ScanText(text).newlines, word)], 0, true)
    decreases |word|
  {
    var front, c := word[..|word| - 1], word[|word| - 1];
    assert (text + word)[..|text + word| - 1] == text + front;
    if front == "" {
      assert text + front == text;
      assert word == [c];
    } else {
      ScanWord(text, front);
      var before := ScanText(text);
      assert (before.toks + [Tok(before.newlines, front)])[..|before.toks|] == before.toks;
      assert word == front + [c];
    }
  }

  lemma WordsMore(toks: seq<Tok>, tok: Tok)
    ensures WordsOf(toks + [tok]) == WordsOf(toks) + [tok.word]
  {
    assert (toks + [tok])[..|toks|] == toks;
  }

  /** Text, blanks and a word: the word comes last. */
  lemma WordsGap(text: string, blanks: string, word: string)
    requires forall k :: 0 <= k < |blanks| ==> IsSpace(blanks[k])
    requires Solid(word) && (blanks == "" ==> text == "")
    ensures Words(text + blanks + word) == Words(text) + [word]
  {
    hide ScanText, WordsOf;
    ScanBlanks(text, blanks);
    if text == "" && blanks == "" {
      ScanStart("");
      assert ""[..0] == "" && text + blanks == "";
    }
    ScanWord(text + blanks, word);
    WordsMore(ScanText(text + blanks).toks, Tok(ScanText(text + blanks).newlines, word));
  }

  lemma {:induction false} LineWords(text: string, blanks: string, words: seq<string>)
    requires forall k :: 0 <= k < |blanks| ==> IsSpace(blanks[k])
    requires forall w :: 0 <= w < |words| ==> Solid(words[w])
    requires words != [] && (blanks == "" ==> text == "")
    ensures Words(text + blanks + LineText(words)) == Words(text) + words
    decreases |words|
  {
    hide Words, Solid, IsSpace;
    var last := words[|words| - 1];
    if |words| == 1 {
      WordsGap(text, blanks, last);
      assert words == [last];
    } else {
      var front := words[..|words| - 1];
      LineWords(text, blanks, front);
      var before := text + blanks + LineText(front);
      BlankSpace();
      WordsGap(before, " ", last);
      assert before + " " + last == text + blanks + (LineText(front) + " " + last);
      assert Words(text) + front + [last] == Words(text) + words;
    }
  }

  lemma BlankSpace()
    ensures IsSpace(" "[0]) && IsSpace('\n')
  {
  }

  lemma BreakBlank(para: bool, startOff: nat)
    ensures Break(para, startOff) != ""
    ensures forall k :: 0 <= k < |Break(para, startOff)| ==> IsSpace(Break(para, startOff)[k])
  {
    SpacesLength(startOff);
  }

  lemma {:induction false} RenderWords(lines: seq<Line>, startOff: nat)
    requires SolidLines(lines)
    ensures Words(Render(lines, startOff)) == Flat(lines)
    decreases |lines|
  {
    hide Words, Solid, Break, LineText;
    if lines == [] {
      NoWords();
    } else {
      var front, last := lines[..|lines| - 1], lines[|lines| - 1];
      RenderWords(front, startOff);
      var gap := if |lines| > 1 then Break(last.para, startOff) else "";
      BreakBlank(last.para, startOff);
      LineWords(Render(front, startOff), gap, last.words);
    }
  }

  lemma NoWords()
    ensures Words("") == []
  {
  }

  /** Wrapping keeps the sequence of words. */
  lemma WrapKeepsWords(text: string, maxCols: nat, startOff: nat)
    ensures Words(Render(LinesOf(text, maxCols, startOff), startOff)) == Words(text)
  {
    hide ScanText, PlaceAll, Flat, WordsOf, Render;
    var toks := ScanText(text).toks;
    ScannedSolid(text);
    PlacedSolid(toks, maxCols, startOff);
    PlacedFlat(toks, maxCols, startOff);
    RenderWords(LinesOf(text, maxCols, startOff), startOff);
  }

  // ----- the width of lines -----------------------------------------------------------------------------

  /** Lines with several words fit, and a line ends only where a space and the next word do not. */
  ghost predicate Filled(lines: seq<Line>, maxCols: nat, startOff: nat) {
    && (forall k :: 0 <= k < |lines| && |lines[k].words| > 1 ==> startOff + Width(lines[k].words) <= maxCols)
    && (forall k :: 0 < k < |lines| && lines[k].words != [] ==>
          startOff + Width(lines[k - 1].words) + 1 + |lines[k].words[0]| > maxCols)
  }

  lemma PlaceFills(l: Layout, word: string, maxCols: nat, startOff: nat)
    requires Filled(l.lines, maxCols, startOff) && SolidLines(l.lines)
    ensures Filled(Place(l, word, maxCols, startOff).lines, maxCols, startOff)
  {
    hide Width, Solid;
    if l.lines != [] {
      WidthMore(l.lines[|l.lines| - 1].words, word);
    }
  }

  lemma {:induction false} PlacedFills(toks: seq<Tok>, maxCols: nat, startOff: nat)
    requires forall k :: 0 <= k < |toks| ==> Solid(toks[k].word)
    ensures Filled(PlaceAll(toks, maxCols, startOff).lines, maxCols, startOff)
    decreases |toks|
  {
    hide Place, Solid, Filled;
    if toks == [] {
      FilledNone(maxCols, startOff);
    } else {
      var front, tok := toks[..|toks| - 1], toks[|toks| - 1];
      PlacedFills(front, maxCols, startOff);
      PlacedSolid(front, maxCols, startOff);
      PlaceFills(Paragraph(PlaceAll(front, maxCols, startOff), tok.newlines), tok.word, maxCols, startOff);
    }
  }

  lemma FilledNone(maxCols: nat, startOff: nat)
    ensures Filled([], maxCols, startOff)
  {
  }

  lemma {:induction false} TextWidth(words: seq<string>)
    ensures |LineText(words)| == Width(words)
    decreases |words|
  {
    if |words| == 1 {
      WidthOne(words[0]);
      assert words == [words[0]];
    } else if words != [] {
      TextWidth(words[..|words| - 1]);
    }
  }

  /** Lines split at newlines. */
  function Split(text: string): (lines: seq<string>)
    ensures lines != []
  {
    if text == "" then [""]
    else
      var before, c := Split(text[..|text| - 1]), text[|text| - 1];
      if c == '\n' then before + [""] else before[..|before| - 1] + [before[|before| - 1] + [c]]
  }

  /** The lines of the output as printed, with the padding. */
  function Printed(lines: seq<Line>, startOff: nat): seq<string> {
    if lines == [] then [""]
    else
      var last := lines[|lines| - 1];
      if |lines| == 1 then [LineText(last.words)]
      else
        Printed(lines[..|lines| - 1], startOff) + (if last.para then [""] else [])
        + [Spaces(startOff) + LineText(last.words)]
  }

  predicate OneLine(text: string) { forall k :: 0 <= k < |text| ==> text[k] != '\n' }

  /** Lines with text appended to the last one. */
  function Extend(lines: seq<string>, more: string): seq<string>
    requires lines != []
  {
    lines[..|lines| - 1] + [lines[|lines| - 1] + more]
  }

  lemma ExtendTwice(lines: seq<string>, a: string, b: string)
    requires lines != []
    ensures Extend(lines, "") == lines && Extend(Extend(lines, a), b) == Extend(lines, a + b)
  {
    var last := |lines| - 1;
    assert lines[last] + "" == lines[last];
    assert lines[last] + a + b == lines[last] + (a + b);
    assert Extend(lines, a)[..last] == lines[..last];
  }

  lemma SplitChar(text: string, c: char)
    requires c != '\n'
    ensures Split(text + [c]) == Extend(Split(text), [c])
  {
    assert (text + [c])[..|text|] == text;
  }

  lemma {:induction false} SplitMore(text: string, more: string)
    requires OneLine(more)
    ensures Split(text + more) == Extend(Split(text), more)
    decreases |more|
  {
    hide Split, Extend;
    if more == "" {
      assert text + more == text;
      ExtendTwice(Split(text), "", "");
    } else {
      var front, c := more[..|more| - 1], more[|more| - 1];
      SplitMore(text, front);
      SplitChar(text + front, c);
      ExtendTwice(Split(text), front, [c]);
      assert text + front + [c] == text + more;
      assert front + [c] == more;
    }
  }

  lemma SplitNewline(text: string)
    ensures Split(text + "\n") == Split(text) + [""]
  {
    assert (text + "\n")[..|text|] == text;
  }

  lemma {:induction false} LineTextOneLine(words: seq<string>)
    requires forall w :: 0 <= w < |words| ==> Solid(words[w])
    ensures OneLine(LineText(words))
    decreases |words|
  {
    if |words| == 1 {
      assert Solid(words[0]);
    } else if words != [] {
      LineTextOneLine(words[..|words| - 1]);
      assert Solid(words[|words| - 1]);
    }
  }

  lemma {:induction false} SplitRender(lines: seq<Line>, startOff: nat)
    requires SolidLines(lines)
    ensures Split(Render(lines, startOff)) == Printed(lines, startOff)
    decreases |lines|
  {
    hide Split, Solid, LineText, Spaces;
    SplitEmpty();
    if lines != [] {
      var front, last := lines[..|lines| - 1], lines[|lines| - 1];
      SplitRender(front, startOff);
      LineTextOneLine(last.words);
      if front == [] {
        SplitMore("", LineText(last.words));
        assert "" + LineText(last.words) == LineText(last.words);
        assert "" + "" + LineText(last.words) == LineText(last.words);
      } else {
        SplitLine(Render(front, startOff), last, startOff);
      }
    }
  }

  lemma SplitEmpty()
    ensures Split("") == [""]
  {
  }

  lemma SplitLine(text: string, line: Line, startOff: nat)
    requires OneLine(LineText(line.words))
    ensures
      Split(text + Break(line.para, startOff) + LineText(line.words)) ==
      Split(text) + (if line.para then [""] else []) + [Spaces(startOff) + LineText(line.words)]
  {
    hide Split, LineText;
    SpacesLength(startOff);
    var newline := if line.para then text + "\n" + "\n" else text + "\n";
    SplitNewline(text);
    SplitNewline(text + "\n");
    var more := Spaces(startOff) + LineText(line.words);
    SplitMore(newline, more);
    assert "" + more == more;
    assert newline + more == text + Break(line.para, startOff) + LineText(line.words);
  }

  /** A printed line with more than one word fits in the columns, counting the offset of the first line. */
  lemma {:induction false} PrintedFits(lines: seq<Line>, maxCols: nat, startOff: nat, k: nat)
    requires SolidLines(lines) && Filled(lines, maxCols, startOff) && k < |Printed(lines, startOff)|
    requires |Words(Printed(lines, startOff)[k])| > 1
    ensures |Printed(lines, startOff)[k]| + (if k == 0 then startOff else 0) <= maxCols
    decreases |lines|
  {
    hide Words, Solid, LineText, Width;
    NoWords();
    if lines != [] {
      var front, last := lines[..|lines| - 1], lines[|lines| - 1];
      var text := LineText(last.words);
      TextWidth(last.words);
      PaddedWords(last.words, startOff);
      SpacesLength(startOff);
      if |lines| > 1 && k < |Printed(front, startOff)| {
        PrintedFits(front, maxCols, startOff, k);
      } else if |lines| > 1 {
        PrintedSome(front, startOff);
      }
    }
  }

  lemma PrintedSome(lines: seq<Line>, startOff: nat)
    ensures Printed(lines, startOff) != []
  {
  }

  lemma PaddedWords(words: seq<string>, startOff: nat)
    requires words != [] && forall w :: 0 <= w < |words| ==> Solid(words[w])
    ensures Words(LineText(words)) == words && Words(Spaces(startOff) + LineText(words)) == words
  {
    hide Words, Solid, LineText;
    NoWords();
    SpacesLength(startOff);
    LineWords("", "", words);
    LineWords("", Spaces(startOff), words);
    assert "" + "" + LineText(words) == LineText(words);
    assert "" + Spaces(startOff) + LineText(words) == Spaces(startOff) + LineText(words);
  }

  /** Every line of the output that holds several words is within the columns. */
  lemma WrapFits(text: string, maxCols: nat, startOff: nat, k: nat)
    requires k < |Split(Render(LinesOf(text, maxCols, startOff), startOff))|
    requires |Words(Split(Render(LinesOf(text, maxCols, startOff), startOff))[k])| > 1
    ensures
      |Split(Render(LinesOf(text, maxCols, startOff), startOff))[k]| + (if k == 0 then startOff else 0) <= maxCols
  {
    hide ScanText, PlaceAll, Words, Split, Render, Printed;
    var toks := ScanText(text).toks;
    ScannedSolid(text);
    PlacedSolid(toks, maxCols, startOff);
    PlacedFills(toks, maxCols, startOff);
    SplitRender(LinesOf(text, maxCols, startOff), startOff);
    PrintedFits(LinesOf(text, maxCols, startOff), maxCols, startOff, k);
  }
}
