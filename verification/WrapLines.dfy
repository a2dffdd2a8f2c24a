/**
 The lines of a wrapped text as they are printed: how each line looks, and
 before which lines there is an empty one, told from the text.
 */
module WrapLines {
  import ShellLex
  import opened StrWrap

  // ----- the gaps of a text ---------------------------------------------------------------------------

  function Newlines(s: string): nat {
    if s == "" then 0 else Newlines(s[..|s| - 1]) + if s[|s| - 1] == '\n' then 1 else 0
  }

  /** The longest run of blanks that ends at b starts at a. */
  predicate Gap(text: string, a: nat, b: nat) {
    && a <= b <= |text| && (forall i :: a <= i < b ==> ShellLex.IsSpace(text[i]))
    && (a > 0 ==> !ShellLex.IsSpace(text[a - 1]))
  }

  /** Word m of the text stands at b, after a gap from a with so many newlines. */
  predicate Stands(text: string, m: nat, word: string, newlines: nat, a: nat, b: nat) {
    && Gap(text, a, b) && (a == b ==> a == 0)
    && b + |word| <= |text| && text[b..b + |word|] == word
    && (b + |word| < |text| ==> ShellLex.IsSpace(text[b + |word|]))
    && |Words(text[..a])| == m && Newlines(text[a..b]) == newlines
  }

  lemma NewlinesMore(s: string, c: char)
    ensures Newlines(s + [c]) == Newlines(s) + if c == '\n' then 1 else 0
  {
    assert (s + [c])[..|s|] == s;
  }

  lemma {:induction false} WordsCount(toks: seq<Tok>)
    ensures |WordsOf(toks)| == |toks|
    decreases |toks|
  {
    if toks != [] {
      WordsCount(toks[..|toks| - 1]);
    }
  }

  /** After some blanks: where they start, and how many newlines are among them. */
  lemma {:induction false} ScanGap(text: string) returns (a: nat)
    requires !ScanText(text).inWord
    ensures a <= |text| && Gap(text, a, |text|) && Newlines(text[a..]) == ScanText(text).newlines
    ensures ScanText(text[..a]).toks == ScanText(text).toks && (a == |text| ==> a == 0)
    decreases |text|
  {
    hide ScanText, Newlines, Gap;
    NoScan("");
    if text == "" {
      a := 0;
      NoGap(text);
    } else {
      var front, c := text[..|text| - 1], text[|text| - 1];
      ScanSplit(text);
      if ScanText(front).inWord {
        a := |front|;
        InWordEnds(front);
        NoNewlines();
        assert text[a..] == [] + [c] && text[..a] == front;
        NewlinesMore([], c);
        GapStarts(text);
      } else {
        a := ScanGap(front);
        assert text[a..] == front[a..] + [c] && text[..a] == front[..a];
        NewlinesMore(front[a..], c);
        GapGrows(text, a);
      }
    }
  }

  lemma NoNewlines()
    ensures Newlines([]) == 0
  {
  }

  lemma NoGap(text: string)
    requires text == ""
    ensures Gap(text, 0, 0) && Newlines(text[0..]) == 0
  {
  }

  lemma GapStarts(text: string)
    requires text != "" && ShellLex.IsSpace(text[|text| - 1])
    requires |text| > 1 ==> !ShellLex.IsSpace(text[..|text| - 1][|text| - 2])
    ensures Gap(text, |text| - 1, |text|)
  {
  }

  lemma GapGrows(text: string, a: nat)
    requires text != "" && Gap(text[..|text| - 1], a, |text| - 1) && ShellLex.IsSpace(text[|text| - 1])
    ensures Gap(text, a, |text|)
  {
    var front := text[..|text| - 1];
    forall i | a <= i < |text|
      ensures ShellLex.IsSpace(text[i])
    {
      assert i < |front| ==> text[i] == front[i];
    }
  }

  lemma {:induction false} InWordEnds(text: string)
    requires ScanText(text).inWord
    ensures text != "" && !ShellLex.IsSpace(text[|text| - 1])
  {
  }

  lemma ScanSplit(text: string)
    requires text != ""
    ensures ScanText(text) == ScanChar(ScanText(text[..|text| - 1]), text[|text| - 1])
  {
  }

  lemma NoScan(text: string)
    requires text == ""
    ensures ScanText(text) == Scan([], 0, false)
  {
  }

  /** The word that the text ends with, and what is before it. */
  lemma {:induction false} ScanLast(text: string) returns (b: nat)
    requires ScanText(text).inWord
    ensures
      var s := ScanText(text);
      var before := ScanText(text[..if b <= |text| then b else 0]);
      && b < |text| && Solid(text[b..]) && s.toks[|s.toks| - 1].word == text[b..] && !before.inWord
      && before.newlines == s.toks[|s.toks| - 1].newlines && before.toks == s.toks[..|s.toks| - 1]
    decreases |text|
  {
    hide ScanText;
    NoScan("");
    InWordEnds(text);
    ScanSplit(text);
    var front, c := text[..|text| - 1], text[|text| - 1];
    if ScanText(front).inWord {
      b := ScanLast(front);
      assert text[b..] == front[b..] + [c] && text[..b] == front[..b];
    } else {
      b := |front|;
      assert text[b..] == [c] && text[..b] == front;
    }
  }

  lemma {:induction false} LastStands(text: string) returns (a: nat, b: nat)
    requires ScanText(text).inWord
    ensures
      var s := ScanText(text);
      var last := |s.toks| - 1;
      Stands(text, last, s.toks[last].word, s.toks[last].newlines, a, b) && b + |s.toks[last].word| == |text|
  {
    hide ScanText, Newlines, Solid;
    var s := ScanText(text);
    b := ScanLast(text);
    a := ScanGap(text[..b]);
    assert text[..b][..a] == text[..a] && text[..b][a..] == text[a..b];
    assert text[b..b + |text[b..]|] == text[b..];
    WordsCount(s.toks[..|s.toks| - 1]);
    GapWithin(text, a, b);
  }

  /** Every word that was scanned stands in the text, after a gap with its newlines. */
  lemma {:induction false} ScannedAt(text: string, m: nat) returns (a: nat, b: nat)
    requires m < |ScanText(text).toks|
    ensures
      var s := ScanText(text);
      && Stands(text, m, s.toks[m].word, s.toks[m].newlines, a, b)
      && (b + |s.toks[m].word| == |text| ==> s.inWord && m == |s.toks| - 1)
    decreases |text|
  {
    hide ScanText, Stands;
    var s := ScanText(text);
    if s.inWord && m == |s.toks| - 1 {
      a, b := LastStands(text);
    } else {
      ScannedBefore(text, m);
      a, b := ScannedAt(text[..|text| - 1], m);
      StandsStill(text, m, s.toks[m], a, b);
      StandsWithin(text[..|text| - 1], m, s.toks[m], a, b);
    }
  }

  lemma StandsWithin(text: string, m: nat, tok: Tok, a: nat, b: nat)
    requires Stands(text, m, tok.word, tok.newlines, a, b)
    ensures b + |tok.word| <= |text|
  {
  }

  lemma GapWithin(text: string, a: nat, b: nat)
    requires b <= |text| && Gap(text[..b], a, b)
    ensures Gap(text, a, b)
  {
    forall i | a <= i < b
      ensures ShellLex.IsSpace(text[i])
    {
      assert text[..b][i] == text[i];
    }
  }

  /** A word that is over was scanned without the last character. */
  lemma ScannedBefore(text: string, m: nat)
    requires m < |ScanText(text).toks| && !(ScanText(text).inWord && m == |ScanText(text).toks| - 1)
    ensures
      var front := text[..|text| - 1];
      && text != "" && m < |ScanText(front).toks| && ScanText(front).toks[m] == ScanText(text).toks[m]
      && (ScanText(front).inWord && m == |ScanText(front).toks| - 1 ==> ShellLex.IsSpace(text[|text| - 1]))
  {
  }

  lemma {:induction false} StandsStill(text: string, m: nat, tok: Tok, a: nat, b: nat)
    requires text != "" && Stands(text[..|text| - 1], m, tok.word, tok.newlines, a, b)
    requires b + |tok.word| == |text| - 1 ==> ShellLex.IsSpace(text[|text| - 1])
    ensures Stands(text, m, tok.word, tok.newlines, a, b)
  {
    hide Words, Newlines;
    var front := text[..|text| - 1];
    assert front[..a] == text[..a] && front[a..b] == text[a..b];
    assert front[b..b + |tok.word|] == text[b..b + |tok.word|];
    GapOfFront(front, a, b);
    TakeTake(text, b);
    GapWithin(text, a, b);
    if b + |tok.word| < |front| {
      assert text[b + |tok.word|] == front[b + |tok.word|];
    }
  }

  lemma TakeTake(text: string, b: nat)
    requires b < |text|
    ensures text[..|text| - 1][..b] == text[..b]
  {
  }

  lemma GapOfFront(text: string, a: nat, b: nat)
    requires Gap(text, a, b)
    ensures Gap(text[..b], a, b)
  {
  }

  // ----- empty lines in the layout ------------------------------------------------------------------------

  /** The number of the first word of a line. */
  function First(lines: seq<Line>, n: nat): nat
    requires n <= |lines|
  {
    |Flat(lines[..n])|
  }

  /** A gap of two newlines or more, before one of the words after a up to b. */
  ghost predicate Wide(toks: seq<Tok>, a: nat, b: nat) {
    exists m :: a < m <= b && m < |toks| && toks[m].newlines >= 2
  }

  /** An empty line is before a line, from the third on, for a wide gap since the start of the previous one. */
  ghost predicate ParaIs(lines: seq<Line>, toks: seq<Tok>, n: nat)
    requires n < |lines|
  {
    lines[n].para <==> n >= 2 && Wide(toks, First(lines, n - 1), First(lines, n))
  }

  ghost predicate ParasAre(l: Layout, toks: seq<Tok>) {
    && |Flat(l.lines)| == |toks|
    && (forall n :: 0 <= n < |l.lines| ==> ParaIs(l.lines, toks, n))
    && (l.newPara <==> |l.lines| > 1 && Wide(toks, First(l.lines, |l.lines| - 1), |toks|))
  }

  lemma WideMore(toks: seq<Tok>, tok: Tok, a: nat, b: nat)
    ensures b < |toks| ==> (Wide(toks + [tok], a, b) <==> Wide(toks, a, b))
    ensures a < |toks| <= b ==> (Wide(toks + [tok], a, b) <==> Wide(toks, a, |toks|) || tok.newlines >= 2)
    ensures |toks| <= a ==> !Wide(toks + [tok], a, b)
  {
    if m :| a < m <= |toks| && m < |toks| && toks[m].newlines >= 2 {
      assert (toks + [tok])[m] == toks[m];
    }
    if m :| a < m <= b && m < |toks| && toks[m].newlines >= 2 {
      assert (toks + [tok])[m] == toks[m];
    }
    if a < |toks| <= b && tok.newlines >= 2 {
      assert (toks + [tok])[|toks|] == tok;
    }
    if m :| a < m <= b && m < |toks| + 1 && (toks + [tok])[m].newlines >= 2 {
      if m < |toks| {
        assert toks[m] == (toks + [tok])[m];
      }
    }
  }

  /** Lines in front keep their first words. */
  lemma FirstKept(lines: seq<Line>, more: seq<Line>, n: nat)
    requires n <= |lines| && n <= |more| && lines[..n] == more[..n]
    ensures First(more, n) == First(lines, n)
  {
  }

  lemma {:induction false} FirstInLine(lines: seq<Line>, n: nat)
    requires n < |lines| && lines[n].words != []
    ensures First(lines, n) < First(lines, n + 1)
  {
    assert lines[..n + 1] == lines[..n] + [lines[n]];
    FlatMore(lines[..n], lines[n]);
  }

  lemma {:induction false} FirstGrows(lines: seq<Line>, n: nat, k: nat)
    requires n <= k <= |lines|
    ensures First(lines, n) <= First(lines, k)
    decreases k
  {
    if n < k {
      FirstGrows(lines, n, k - 1);
      assert lines[..k] == lines[..k - 1] + [lines[k - 1]];
      FlatMore(lines[..k - 1], lines[k - 1]);
    }
  }

  /** The lines that were there keep their empty lines. */
  lemma {:induction false} ParasKept(l: Layout, toks: seq<Tok>, tok: Tok, lines: seq<Line>, n: nat)
    requires ParasAre(l, toks) && SolidLines(l.lines) && n < |l.lines| <= |lines|
    requires lines[..n] == l.lines[..n] && (n > 0 ==> lines[..n - 1] == l.lines[..n - 1])
    requires lines[n].para == l.lines[n].para
    ensures ParaIs(lines, toks + [tok], n)
  {
    assert ParaIs(l.lines, toks, n);
    hide Flat, Wide, Solid;
    if n >= 2 {
      FirstInLine(l.lines, n);
      FirstGrows(l.lines, n + 1, |l.lines|);
      assert l.lines[..|l.lines|] == l.lines;
      assert First(lines, n - 1) == First(l.lines, n - 1) && First(lines, n) == First(l.lines, n);
      WideMore(toks, tok, First(l.lines, n - 1), First(l.lines, n));
    }
  }

  lemma ParasCount(l: Layout, toks: seq<Tok>)
    requires ParasAre(l, toks)
    ensures |Flat(l.lines)| == |toks|
  {
  }

  lemma ParasFront(l: Layout, toks: seq<Tok>, tok: Tok, lines: seq<Line>)
    requires ParasAre(l, toks) && SolidLines(l.lines) && 0 < |l.lines| <= |lines|
    requires
      var last := |l.lines| - 1;
      lines[..last] == l.lines[..last] && lines[last].para == l.lines[last].para
    ensures forall n :: 0 <= n < |l.lines| ==> ParaIs(lines, toks + [tok], n)
  {
    hide ParaIs, ParasAre, SolidLines;
    forall n | 0 <= n < |l.lines|
      ensures ParaIs(lines, toks + [tok], n)
    {
      SameFront(lines, l.lines, n);
      ParasKept(l, toks, tok, lines, n);
    }
  }

  lemma SameFront(a: seq<Line>, b: seq<Line>, n: nat)
    requires n < |b| <= |a| && a[..|b| - 1] == b[..|b| - 1]
    ensures a[..n] == b[..n] && (n > 0 ==> a[..n - 1] == b[..n - 1])
    ensures n < |b| - 1 ==> a[n] == b[n]
  {
    if n < |b| - 1 {
      assert a[n] == a[..|b| - 1][n];
    }
    assert a[..n] == a[..|b| - 1][..n];
    if n > 0 {
      assert a[..n - 1] == a[..|b| - 1][..n - 1];
    }
  }

  lemma {:induction false} WideNow(l: Layout, toks: seq<Tok>, tok: Tok)
    requires ParasAre(l, toks) && SolidLines(l.lines) && l.lines != []
    ensures
      var p := Paragraph(l, tok.newlines);
      var start := First(l.lines, |l.lines| - 1);
      start < |toks| && (p.newPara <==> |l.lines| > 1 && Wide(toks + [tok], start, |toks|))
  {
    hide Flat, Wide, Solid;
    var size := |l.lines|;
    assert l.lines[..size] == l.lines;
    FirstInLine(l.lines, size - 1);
    WideMore(toks, tok, First(l.lines, size - 1), |toks|);
  }

  lemma {:induction false} ParasBreak(l: Layout, toks: seq<Tok>, tok: Tok)
    requires ParasAre(l, toks) && SolidLines(l.lines) && l.lines != []
    ensures
      var p := Paragraph(l, tok.newlines);
      ParasAre(Layout(l.lines + [Line(p.newPara, [tok.word])], false), toks + [tok])
  {
    WideNow(l, toks, tok);
    var p, size := Paragraph(l, tok.newlines), |l.lines|;
    var lines := l.lines + [Line(p.newPara, [tok.word])];
    ParasCount(l, toks);
    hide Flat, Wide, Solid, Paragraph, ParasAre, SolidLines;
    FlatMore(l.lines, lines[size]);
    WideMore(toks, tok, |toks|, |toks| + 1);
    assert lines[..size] == l.lines && lines[..size - 1] == l.lines[..size - 1];
    ParasFront(l, toks, tok, lines);
    assert First(lines, size) == |toks| && First(lines, size - 1) == First(l.lines, size - 1);
    ParasMade(Layout(lines, false), toks + [tok]);
  }

  /** The three parts together. */
  lemma ParasMade(l: Layout, toks: seq<Tok>)
    requires l.lines != [] && |Flat(l.lines)| == |toks|
    requires forall n :: 0 <= n < |l.lines| - 1 ==> ParaIs(l.lines, toks, n)
    requires ParaIs(l.lines, toks, |l.lines| - 1)
    requires l.newPara <==> |l.lines| > 1 && Wide(toks, First(l.lines, |l.lines| - 1), |toks|)
    ensures ParasAre(l, toks)
  {
  }

  lemma JoinCount(front: seq<Line>, last: Line, word: string)
    ensures |Flat(front + [last.(words := last.words + [word])])| == |Flat(front + [last])| + 1
  {
    hide Flat;
    FlatMore(front, last);
    FlatMore(front, last.(words := last.words + [word]));
  }

  lemma {:induction false} ParasJoin(l: Layout, toks: seq<Tok>, tok: Tok)
    requires ParasAre(l, toks) && SolidLines(l.lines) && l.lines != []
    ensures
      var p, size := Paragraph(l, tok.newlines), |l.lines|;
      var last := l.lines[size - 1];
      ParasAre(Layout(l.lines[..size - 1] + [last.(words := last.words + [tok.word])], p.newPara), toks + [tok])
  {
    WideNow(l, toks, tok);
    var p, size := Paragraph(l, tok.newlines), |l.lines|;
    var front, last := l.lines[..size - 1], l.lines[size - 1];
    var lines := front + [last.(words := last.words + [tok.word])];
    ParasCount(l, toks);
    hide Flat, Wide, Solid, Paragraph, ParasAre, SolidLines, ParaIs;
    assert l.lines == front + [last] && lines[..size - 1] == front;
    JoinCount(front, last, tok.word);
    WideEnd(toks + [tok], First(l.lines, size - 1), |toks|);
    ParasFront(l, toks, tok, lines);
    FirstKept(l.lines, lines, size - 1);
    hide First;
    ParasMade(Layout(lines, p.newPara), toks + [tok]);
  }

  lemma {:induction false} ParasStep(l: Layout, toks: seq<Tok>, tok: Tok, maxCols: nat, startOff: nat)
    requires ParasAre(l, toks) && SolidLines(l.lines)
    ensures ParasAre(Place(Paragraph(l, tok.newlines), tok.word, maxCols, startOff), toks + [tok])
  {
    hide Width, ParasAre, SolidLines;
    if l.lines == [] {
      NoneYet(l, toks);
      FirstLine(tok);
      assert toks + [tok] == [tok];
    } else {
      ParasBreak(l, toks, tok);
      ParasJoin(l, toks, tok);
    }
  }

  lemma NoneYet(l: Layout, toks: seq<Tok>)
    requires ParasAre(l, toks) && l.lines == []
    ensures toks == [] && !l.newPara
  {
  }

  /** Up to the last word or up to one more is the same. */
  lemma WideEnd(toks: seq<Tok>, a: nat, last: nat)
    requires |toks| == last + 1
    ensures Wide(toks, a, last) <==> Wide(toks, a, last + 1)
  {
  }

  lemma FirstLine(tok: Tok)
    ensures ParasAre(Layout([Line(false, [tok.word])], false), [tok])
  {
    var line := Line(false, [tok.word]);
    FlatMore([], line);
    assert [] + [line] == [line];
  }

  lemma {:induction false} PlacedParas(toks: seq<Tok>, maxCols: nat, startOff: nat)
    requires forall k :: 0 <= k < |toks| ==> Solid(toks[k].word)
    ensures ParasAre(PlaceAll(toks, maxCols, startOff), toks)
    decreases |toks|
  {
    hide Place, Solid, ParasAre;
    if toks == [] {
      NoParas();
    } else {
      var front, tok := toks[..|toks| - 1], toks[|toks| - 1];
      PlacedParas(front, maxCols, startOff);
      PlacedSolid(front, maxCols, startOff);
      ParasStep(PlaceAll(front, maxCols, startOff), front, tok, maxCols, startOff);
      assert toks == front + [tok];
    }
  }

  lemma NoParas()
    ensures ParasAre(Layout([], false), [])
  {
  }

  // ----- the lines as printed -----------------------------------------------------------------------------

  /** The number of words on these lines. */
  function RowWords(rows: seq<string>): nat {
    if rows == [] then 0 else RowWords(rows[..|rows| - 1]) + |Words(rows[|rows| - 1])|
  }

  lemma {:induction false} RowWordsMore(rows: seq<string>, row: string)
    ensures RowWords(rows + [row]) == RowWords(rows) + |Words(row)|
  {
    assert (rows + [row])[..|rows|] == rows;
  }

  function RowOf(line: Line, first: bool, startOff: nat): string {
    (if first then "" else Spaces(startOff)) + LineText(line.words)
  }

  /** Printing one more line. */
  lemma {:induction false} PrintedNext(lines: seq<Line>, n: nat, startOff: nat)
    requires 0 < n < |lines|
    ensures Printed(lines[..n + 1], startOff)
         == Printed(lines[..n], startOff) + (if lines[n].para then [""] else []) + [RowOf(lines[n], false, startOff)]
  {
    assert lines[..n + 1][..n] == lines[..n] && lines[..n + 1][n] == lines[n];
  }

  lemma {:induction false} PrintedFirst(lines: seq<Line>, startOff: nat)
    requires lines != []
    ensures Printed(lines[..1], startOff) == [RowOf(lines[0], true, startOff)]
  {
    assert lines[..1] == [lines[0]] && "" + LineText(lines[0].words) == LineText(lines[0].words);
  }

  /** Where a line of words is printed. */
  function At(lines: seq<Line>, n: nat, startOff: nat): int
    requires n < |lines|
  {
    |Printed(lines[..n + 1], startOff)| - 1
  }

  lemma {:induction false} RowHasWords(lines: seq<Line>, n: nat, first: bool, startOff: nat)
    requires SolidLines(lines) && n < |lines|
    ensures Words(RowOf(lines[n], first, startOff)) == lines[n].words != []
  {
    PaddedWords(lines[n].words, startOff);
    assert "" + LineText(lines[n].words) == LineText(lines[n].words);
  }

  /** The rows up to a line: its own comes last, and the words before it are those of the lines before. */
  lemma {:induction false} RowsUpTo(lines: seq<Line>, n: nat, startOff: nat)
    requires SolidLines(lines) && n < |lines|
    ensures
      var rows := Printed(lines[..n + 1], startOff);
      && rows != [] && (|rows| - 1 == 0 <==> n == 0)
      && rows[|rows| - 1] == RowOf(lines[n], n == 0, startOff)
      && RowWords(rows[..|rows| - 1]) == First(lines, n) && RowWords(rows) == First(lines, n + 1)
    decreases n
  {
    hide Words, Printed, Solid, RowOf, Flat;
    var rows := Printed(lines[..n + 1], startOff);
    RowHasWords(lines, n, n == 0, startOff);
    assert lines[..n + 1] == lines[..n] + [lines[n]];
    FlatMore(lines[..n], lines[n]);
    if n == 0 {
      PrintedFirst(lines, startOff);
      NothingFirst(lines);
      RowWordsMore([], rows[0]);
      assert [] + rows == rows && rows[..0] == [];
    } else {
      RowsUpTo(lines, n - 1, startOff);
      PrintedNext(lines, n, startOff);
      var before := Printed(lines[..n], startOff);
      assert lines[..n - 1 + 1] == lines[..n];
      NoWords();
      RowWordsMore(before, "");
      var blank := if lines[n].para then before + [""] else before;
      assert rows == blank + [RowOf(lines[n], false, startOff)];
      assert rows[..|rows| - 1] == blank;
      RowWordsMore(blank, RowOf(lines[n], false, startOff));
    }
  }

  lemma NothingFirst(lines: seq<Line>)
    ensures First(lines, 0) == 0 && RowWords([]) == 0
  {
    assert lines[..0] == [];
  }

  /** Rows up to an earlier line come first. */
  lemma {:induction false} RowsBefore(lines: seq<Line>, n: nat, k: nat, startOff: nat)
    requires 0 < n <= k <= |lines|
    ensures Printed(lines[..n], startOff) <= Printed(lines[..k], startOff)
    ensures n < k ==> |Printed(lines[..n], startOff)| < |Printed(lines[..k], startOff)|
    decreases k
  {
    hide Printed;
    if n < k {
      RowsBefore(lines, n, k - 1, startOff);
      PrintedNext(lines, k - 1, startOff);
    }
  }

  /** A row with words is that of a line. */
  lemma {:induction false} LineOfRow(lines: seq<Line>, k: nat, startOff: nat, r: nat) returns (n: nat)
    requires SolidLines(lines) && 0 < k <= |lines| && r < |Printed(lines[..k], startOff)|
    requires Words(Printed(lines[..k], startOff)[r]) != []
    ensures n < k && r == At(lines, n, startOff)
    decreases k
  {
    hide Words, Printed, Solid;
    NoWords();
    if k == 1 {
      PrintedFirst(lines, startOff);
      n := 0;
    } else {
      PrintedNext(lines, k - 1, startOff);
      var before := Printed(lines[..k - 1], startOff);
      if r < |before| {
        n := LineOfRow(lines, k - 1, startOff, r);
      } else {
        n := k - 1;
        assert lines[..n + 1] == lines[..k];
      }
    }
  }

  /** A row is empty, or the padding and words with one space between them. */
  lemma {:induction false} RowShape(lines: seq<Line>, k: nat, startOff: nat, r: nat)
    requires SolidLines(lines) && 0 < k <= |lines| && r < |Printed(lines[..k], startOff)|
    ensures
      var row := Printed(lines[..k], startOff)[r];
      row == "" || (Words(row) != [] && row == (if r == 0 then "" else Spaces(startOff)) + LineText(Words(row)))
    decreases k
  {
    hide Words, Printed, Solid, LineText, Spaces;
    if k == 1 {
      PrintedFirst(lines, startOff);
      RowHasWords(lines, 0, true, startOff);
    } else {
      PrintedNext(lines, k - 1, startOff);
      RowsUpTo(lines, k - 2, startOff);
      assert lines[..k - 2 + 1] == lines[..k - 1];
      RowHasWords(lines, k - 1, false, startOff);
      if r < |Printed(lines[..k - 1], startOff)| {
        RowShape(lines, k - 1, startOff, r);
      }
    }
  }

  /** The rows of the wrapped text. */
  function Rows(text: string, maxCols: nat, startOff: nat): seq<string> {
    Split(Render(LinesOf(text, maxCols, startOff), startOff))
  }

  lemma RowsArePrinted(text: string, maxCols: nat, startOff: nat)
    ensures
      var lines := LinesOf(text, maxCols, startOff);
      && SolidLines(lines) && ParasAre(PlaceAll(ScanText(text).toks, maxCols, startOff), ScanText(text).toks)
      && Rows(text, maxCols, startOff) == Printed(lines, startOff) && lines[..|lines|] == lines
  {
    hide ScanText, PlaceAll, Split, Render, Printed, Solid, ParasAre;
    ScannedSolid(text);
    PlacedSolid(ScanText(text).toks, maxCols, startOff);
    PlacedParas(ScanText(text).toks, maxCols, startOff);
    SplitRender(LinesOf(text, maxCols, startOff), startOff);
  }

  /** Every row of the output is empty, or the padding, but for the first, and words with one space between them. */
  lemma RowIsPadded(text: string, maxCols: nat, startOff: nat, r: nat)
    requires r < |Rows(text, maxCols, startOff)|
    ensures
      var row := Rows(text, maxCols, startOff)[r];
      row == "" || (Words(row) != [] && row == (if r == 0 then "" else Spaces(startOff)) + LineText(Words(row)))
  {
    RowsArePrinted(text, maxCols, startOff);
    var lines := LinesOf(text, maxCols, startOff);
    hide Words, Solid, LineText, Spaces, Rows, LinesOf;
    if lines != [] {
      RowShape(lines, |lines|, startOff, r);
    }
  }

  /**
   Two rows of words with none between them: there is one empty row between them
   if the first of them is not the first row of all and a gap after its first
   word, up to the first word of the other, is wide; otherwise there is none.
   */
  lemma EmptyRowIff(text: string, maxCols: nat, startOff: nat, p: nat, r: nat)
    requires p < r < |Rows(text, maxCols, startOff)|
    requires
      var rows := Rows(text, maxCols, startOff);
      Words(rows[p]) != [] && Words(rows[r]) != [] && forall q :: p < q < r ==> Words(rows[q]) == []
    ensures
      var rows := Rows(text, maxCols, startOff);
      var wide := p > 0 && Wide(ScanText(text).toks, RowWords(rows[..p]), RowWords(rows[..r]));
      r == if wide then p + 2 else p + 1
  {
    RowsArePrinted(text, maxCols, startOff);
    hide Words, Solid, Rows, LinesOf, Printed, ParasAre, ScanText, Wide, RowWords, PlaceAll;
    EmptyPrinted(PlaceAll(ScanText(text).toks, maxCols, startOff), ScanText(text).toks, startOff, p, r) by {
      assert PlaceAll(ScanText(text).toks, maxCols, startOff).lines == LinesOf(text, maxCols, startOff) by {
        LinesAre(text, maxCols, startOff);
      }
    }
    LinesAre(text, maxCols, startOff);
  }

  lemma LinesAre(text: string, maxCols: nat, startOff: nat)
    ensures PlaceAll(ScanText(text).toks, maxCols, startOff).lines == LinesOf(text, maxCols, startOff)
  {
  }

  lemma EmptyPrinted(l: Layout, toks: seq<Tok>, startOff: nat, p: nat, r: nat)
    requires SolidLines(l.lines) && ParasAre(l, toks) && p < r < |Printed(l.lines, startOff)|
    requires
      var rows := Printed(l.lines, startOff);
      Words(rows[p]) != [] && Words(rows[r]) != [] && forall q :: p < q < r ==> Words(rows[q]) == []
    ensures
      var rows := Printed(l.lines, startOff);
      var wide := p > 0 && Wide(toks, RowWords(rows[..p]), RowWords(rows[..r]));
      r == if wide then p + 2 else p + 1
  {
    var lines := l.lines;
    assert forall n :: 0 <= n < |lines| ==> ParaIs(lines, toks, n);
    hide Words, Solid, Printed, ParaIs, ParasAre, First, Wide, RowWords, Flat;
    assert lines[..|lines|] == lines;
    assert lines != [] by { NoRows(lines, startOff, r); }
    var n := LineOfRow(lines, |lines|, startOff, p);
    var k := LineOfRow(lines, |lines|, startOff, r);
    NextLine(lines, startOff, n, k);
    RowsAt(lines, startOff, n);
    RowsAt(lines, startOff, k);
    LineAfter(lines, toks, startOff, n);
  }

  lemma NoRows(lines: seq<Line>, startOff: nat, r: nat)
    requires 0 < r < |Printed(lines, startOff)|
    ensures lines != []
  {
  }

  /** The line whose row comes next. */
  lemma {:induction false} NextLine(lines: seq<Line>, startOff: nat, n: nat, k: nat)
    requires SolidLines(lines) && n < |lines| && k < |lines| && lines[..|lines|] == lines
    requires 0 <= At(lines, n, startOff) < At(lines, k, startOff) < |Printed(lines, startOff)|
    requires forall q ::
      At(lines, n, startOff) < q < At(lines, k, startOff) ==> Words(Printed(lines, startOff)[q]) == []
    ensures k == n + 1
  {
    hide Words, Printed, Solid;
    if k <= n {
      RowsBefore(lines, k + 1, n + 1, startOff);
    } else if k > n + 1 {
      RowsBefore(lines, n + 1, n + 2, startOff);
      RowsBefore(lines, n + 2, k + 1, startOff);
      RowsBefore(lines, n + 2, |lines|, startOff);
      RowsUpTo(lines, n + 1, startOff);
      RowHasWords(lines, n + 1, false, startOff);
    }
  }

  /** The words before the row of a line. */
  lemma {:induction false} RowsAt(lines: seq<Line>, startOff: nat, n: nat)
    requires SolidLines(lines) && n < |lines| && lines[..|lines|] == lines
    ensures
      var q := At(lines, n, startOff);
      && 0 <= q < |Printed(lines, startOff)| && (q == 0 <==> n == 0)
      && RowWords(Printed(lines, startOff)[..q]) == First(lines, n)
  {
    hide Words, Printed, Solid, First, RowWords;
    RowsUpTo(lines, n, startOff);
    RowsBefore(lines, n + 1, |lines|, startOff);
    var rows, q := Printed(lines[..n + 1], startOff), At(lines, n, startOff);
    assert Printed(lines, startOff)[..q] == rows[..|rows| - 1];
  }

  lemma {:induction false} LineAfter(lines: seq<Line>, toks: seq<Tok>, startOff: nat, n: nat)
    requires n + 1 < |lines| && ParaIs(lines, toks, n + 1)
    ensures
      At(lines, n + 1, startOff) ==
      At(lines, n, startOff) + if n > 0 && Wide(toks, First(lines, n), First(lines, n + 1)) then 2 else 1
  {
    hide Printed, First, Wide;
    PrintedNext(lines, n + 1, startOff);
  }
}
