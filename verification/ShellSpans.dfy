/**
 What the spans recorded by the shell lexer mean: they are ordered and apart,
 what is outside them is blank or comment, and each one lexes to its own word.
 */
module ShellSpans {
  import opened Prelude
  import opened ShellLex

  /** Inside a word. */
  predicate Open(state: State) { !state.Start? && !state.InComment? }

  // ----- where words come from -----------------------------------------------------------------

  lemma StepWords(l: Lexer, c: char, i: nat, size: nat)
    requires Step(l, c, i, size).Some?
    ensures
      var m := Step(l, c, i, size).value;
      (l.state.InWord? && IsSpace(c) && m == Push(l, i)) || m.words == l.words
  {
  }

  lemma RunLast(s: string, size: nat, junk: string)
    requires s != "" && Run(s, size, junk).Some?
    ensures
      && Run(s[..|s| - 1], size, junk).Some?
      && Step(Run(s[..|s| - 1], size, junk).value, s[|s| - 1], |s| - 1, size) == Run(s, size, junk)
  {
  }

  /** Every word but the last was pushed at a space, with the lexer inside it. */
  lemma {:induction false} PushedAt(s: string, size: nat, junk: string, k: nat)
    requires Run(s, size, junk).Some? && k < |Run(s, size, junk).value.words|
    ensures
      var words := Run(s, size, junk).value.words;
      var end := words[k].end;
      && end < |s|
      && var p := Run(s[..end], size, junk);
      && p.Some? && p.value.state.InWord? && p.value.words == words[..k]
      && words[k] == Word(p.value.text, p.value.argStart, end)
    decreases |s|
  {
    hide Run, Step;
    NoWordsYet(size, junk);
    var s' := s[..|s| - 1];
    RunLast(s, size, junk);
    var l := Run(s', size, junk).value;
    StepWords(l, s[|s| - 1], |s| - 1, size);
    if k < |l.words| {
      PushedAt(s', size, junk, k);
      assert s'[..l.words[k].end] == s[..l.words[k].end];
      assert Run(s, size, junk).value.words[..k] == l.words[..k];
    }
  }

  lemma NoWordsYet(size: nat, junk: string)
    ensures Run("", size, junk) == Some(Init(junk))
  {
  }

  // ----- ordering ------------------------------------------------------------------------------

  ghost predicate Ordered(words: seq<Word>, limit: nat) {
    && (forall k :: 0 <= k < |words| ==> words[k].start < words[k].end < limit)
    && (forall k :: 0 < k < |words| ==> words[k - 1].end < words[k].start)
  }

  ghost predicate InOrder(l: Lexer, n: nat) {
    && Ordered(l.words, n)
    && (Open(l.state) ==> l.argStart < n && (l.words != [] ==> l.words[|l.words| - 1].end < l.argStart))
    && (l.trailing && n > 0 ==> l.argStart == n - 1)
    && (!Open(l.state) ==> l.t == 0 && l.quote == '\0')
  }

  lemma OrderedPush(l: Lexer, i: nat)
    requires Ordered(l.words, i) && l.argStart < i
    requires l.words != [] ==> l.words[|l.words| - 1].end < l.argStart
    ensures Ordered(Push(l, i).words, i + 1)
  {
  }

  lemma OrderedWiden(words: seq<Word>, i: nat)
    requires Ordered(words, i)
    ensures Ordered(words, i + 1)
    ensures words != [] ==> words[|words| - 1].end < i
  {
  }

  lemma StepInOrder(l: Lexer, c: char, i: nat, size: nat)
    requires InOrder(l, i) && Step(l, c, i, size).Some?
    requires l.state.Start? || !l.trailing
    ensures InOrder(Step(l, c, i, size).value, i + 1)
    ensures var m := Step(l, c, i, size).value; m.state.Start? || !m.trailing
  {
    hide Ordered;
    OrderedWiden(l.words, i);
    if l.state.InWord? {
      OrderedPush(l, i);
    }
  }

  lemma {:induction false} RunInOrder(s: string, size: nat, junk: string)
    requires Run(s, size, junk).Some?
    ensures var l := Run(s, size, junk).value; InOrder(l, |s|) && (l.state.Start? || !l.trailing)
    decreases |s|
  {
    hide Step, Run;
    NoWordsYet(size, junk);
    if s != "" {
      RunLast(s, size, junk);
      RunInOrder(s[..|s| - 1], size, junk);
      StepInOrder(Run(s[..|s| - 1], size, junk).value, s[|s| - 1], |s| - 1, size);
    }
  }

  /** The words the lexer returns, spans in order; only the word for trailing blanks reaches past the end. */
  lemma SpansInOrder(str: string, flags: Flags, size: nat, junk: string, k: nat)
    requires Lex(str, flags, size, junk).Words? && k < |Lex(str, flags, size, junk).words|
    ensures
      var words := Lex(str, flags, size, junk).words;
      && (k > 0 ==> words[k - 1].end < words[k].start)
      && (words[k].start < words[k].end <= |str|
          || (k == |words| - 1 && flags.trailsp && words[k].text == ""
              && (words[k].start, words[k].end) == (if str == "" then (1, 1) else (|str|, |str| + 1))))
  {
    RunInOrder(str, size, junk);
  }

  // ----- a word lexes alone as it does in its string ---------------------------------------------

  /** The lexer for the word that l is in, started on the word alone. */
  function Alone(l: Lexer, junk: string): Lexer {
    Lexer(l.state, l.t, if l.t > 0 then l.text else junk, l.quote, 0, false, [])
  }

  lemma FirstAlone(l: Lexer, c: char, i: nat, size: nat, junk: string)
    requires l.state.Start? && l.t == 0 && l.quote == '\0'
    requires Step(l, c, i, size).Some? && Open(Step(l, c, i, size).value.state)
    ensures
      var m := Step(l, c, i, size).value;
      m.argStart == i && Step(Init(junk), c, 0, size) == Some(Alone(m, junk))
  {
  }

  lemma NextAlone(l: Lexer, c: char, i: nat, j: nat, size: nat, junk: string)
    requires Open(l.state) && Step(l, c, i, size).Some? && Open(Step(l, c, i, size).value.state)
    ensures
      var m := Step(l, c, i, size).value;
      m.argStart == l.argStart && Step(Alone(l, junk), c, j, size) == Some(Alone(m, junk))
  {
  }

  lemma CommentStays(l: Lexer, c: char, i: nat, size: nat)
    requires l.state.InComment?
    ensures Step(l, c, i, size).Some? && !Open(Step(l, c, i, size).value.state)
  {
  }

  lemma {:induction false} RunAlone(s: string, size: nat, junk: string, junk2: string)
    requires Run(s, size, junk).Some? && Open(Run(s, size, junk).value.state)
    ensures
      var l := Run(s, size, junk).value;
      l.argStart < |s| && Run(s[l.argStart..], size, junk2) == Some(Alone(l, junk2))
    decreases |s|
  {
    hide Run, Step, InOrder;
    NoWordsYet(size, junk);
    var s', c, i := s[..|s| - 1], s[|s| - 1], |s| - 1;
    RunLast(s, size, junk);
    RunInOrder(s, size, junk);
    RunInOrder(s', size, junk);
    var l, m := Run(s', size, junk).value, Run(s, size, junk).value;
    if Open(l.state) {
      RunAlone(s', size, junk, junk2);
      NextAlone(l, c, i, |s[l.argStart..]| - 1, size, junk2);
      assert s[l.argStart..][..|s[l.argStart..]| - 1] == s'[l.argStart..];
      RunSnoc(s[l.argStart..], size, junk2);
    } else if l.state.Start? {
      ClosedLexer(l, |s'|);
      FirstAlone(l, c, i, size, junk2);
      assert s[i..] == [c] && [c][..0] == "";
      NoWordsYet(size, junk2);
      RunSnoc([c], size, junk2);
    } else {
      CommentStays(l, c, i, size);
    }
  }

  lemma ClosedLexer(l: Lexer, n: nat)
    requires InOrder(l, n) && !Open(l.state)
    ensures l.t == 0 && l.quote == '\0'
  {
  }

  lemma RunSnoc(s: string, size: nat, junk: string)
    requires s != ""
    ensures
      Run(s, size, junk) ==
      match Run(s[..|s| - 1], size, junk)
      case None => None
      case Some(l) => Step(l, s[|s| - 1], |s| - 1, size)
  {
  }

  // ----- words without text ----------------------------------------------------------------------

  predicate IsQuote(c: char) { c == '"' || c == '\'' }

  /** Only pairs of quotes with nothing inside. */
  predicate EmptyQuotes(s: string) {
    s == ""
    || (|s| > 1 && IsQuote(s[|s| - 1]) && s[|s| - 1] == s[|s| - 2] && EmptyQuotes(s[..|s| - 2]))
  }

  lemma {:induction false} EmptyRun(q: string, size: nat, junk: string)
    requires EmptyQuotes(q) && q != ""
    ensures
      Run(q, size, junk).Some?
      && var m := Run(q, size, junk).value;
         m.state.InWord? && m.t == 0 && m.words == [] && !m.trailing
  {
    var q1, q2 := q[..|q| - 1], q[..|q| - 2];
    assert q1[..|q1| - 1] == q2;
    if q2 != "" {
      EmptyRun(q2, size, junk);
    }
    RunSnoc(q1, size, junk);
    RunSnoc(q, size, junk);
  }

  /** What a word without text looks like so far. */
  predicate Textless(state: State, word: string) {
    match state
    case InWord => EmptyQuotes(word)
    case InDoubleQuotes => word != "" && word[|word| - 1] == '"' && EmptyQuotes(word[..|word| - 1])
    case InSingleQuotes => word != "" && word[|word| - 1] == '\'' && EmptyQuotes(word[..|word| - 1])
    case _ => true
  }

  lemma TextlessStep(l: Lexer, c: char, i: nat, size: nat, word: string)
    requires Step(l, c, i, size).Some? && Open(Step(l, c, i, size).value.state)
    requires Step(l, c, i, size).value.t == 0
    requires if Open(l.state) then Textless(l.state, word) else word == "" && l.state.Start?
    ensures Textless(Step(l, c, i, size).value.state, word + [c])
    ensures l.t == 0
  {
    assert (word + [c])[..|word|] == word;
    if word != "" {
      assert (word + [c])[..|word| - 1] == word[..|word| - 1];
    }
  }

  lemma {:induction false} NothingAppended(s: string, size: nat, junk: string)
    requires Run(s, size, junk).Some?
    requires var l := Run(s, size, junk).value; Open(l.state) && l.t == 0
    ensures var l := Run(s, size, junk).value; l.argStart < |s| && Textless(l.state, s[l.argStart..])
    decreases |s|
  {
    hide Run, Step, InOrder, Textless;
    NoWordsYet(size, junk);
    var s', c, i := s[..|s| - 1], s[|s| - 1], |s| - 1;
    RunLast(s, size, junk);
    RunInOrder(s', size, junk);
    var l, m := Run(s', size, junk).value, Run(s, size, junk).value;
    if Open(l.state) {
      NextAlone(l, c, i, 0, size, junk);
      StillEmpty(l, c, i, size);
      NothingAppended(s', size, junk);
      TextlessStep(l, c, i, size, s'[l.argStart..]);
      assert s[l.argStart..] == s'[l.argStart..] + [c];
    } else if l.state.Start? {
      ClosedLexer(l, |s'|);
      FirstAlone(l, c, i, size, junk);
      TextlessStep(l, c, i, size, "");
      assert s[i..] == "" + [c];
    } else {
      CommentStays(l, c, i, size);
    }
  }

  lemma StillEmpty(l: Lexer, c: char, i: nat, size: nat)
    requires Open(l.state) && Step(l, c, i, size).Some?
    requires var m := Step(l, c, i, size).value; Open(m.state) && m.t == 0
    ensures l.t == 0
  {
  }

  /** Lexing the span of a word alone gives that word, or nothing when it is only empty quotes. */
  lemma SpanLexesAlone(str: string, flags: Flags, size: nat, junk: string, junk2: string, k: nat)
    requires Lex(str, flags, size, junk).Words? && k < |Lex(str, flags, size, junk).words|
    requires Lex(str, flags, size, junk).words[k].start < |str|
    ensures
      var w := Lex(str, flags, size, junk).words[k];
      && w.start <= w.end <= |str|
      && Lex(str[w.start..w.end], flags, size, junk2) ==
         if EmptyQuotes(str[w.start..w.end]) then Words([]) else Words([Word(w.text, 0, w.end - w.start)])
  {
    hide Step, InOrder, EmptyQuotes, Textless, Run;
    var l := Run(str, size, junk).value;
    var w := Lex(str, flags, size, junk).words[k];
    if k < |l.words| {
      PushedAt(str, size, junk, k);
      var p := Run(str[..w.end], size, junk).value;
      RunAlone(str[..w.end], size, junk, junk2);
      assert str[..w.end][w.start..] == str[w.start..w.end];
      WordAlone(str[..w.end], size, junk, junk2, flags);
    } else {
      RunInOrder(str, size, junk);
      LastSpan(l, |str|, flags);
      RunAlone(str, size, junk, junk2);
      assert str[w.start..w.end] == str[w.start..];
      WordAlone(str, size, junk, junk2, flags);
    }
  }

  lemma LastSpan(l: Lexer, n: nat, flags: Flags)
    requires InOrder(l, n) && Finish(l, n, flags).Words? && |Finish(l, n, flags).words| > |l.words|
    requires Finish(l, n, flags).words[|l.words|].start < n
    ensures l.t > 0 && Open(l.state) && (Unfinished(l.state) ==> !flags.strict)
    ensures Finish(l, n, flags).words[|l.words|] == Word(l.text, l.argStart, n)
  {
  }

  /** A lexer inside a word finishes the word alone with the same text. */
  lemma WordAlone(s: string, size: nat, junk: string, junk2: string, flags: Flags)
    requires Run(s, size, junk).Some?
    requires var l := Run(s, size, junk).value;
             Open(l.state) && (l.t == 0 ==> l.state.InWord?) && (Unfinished(l.state) ==> !flags.strict)
    ensures
      var l := Run(s, size, junk).value;
      && l.argStart < |s|
      && var word := s[l.argStart..];
         Lex(word, flags, size, junk2) == if EmptyQuotes(word) then Words([]) else Words([Word(l.text, 0, |word|)])
  {
    hide Step, Run;
    var l := Run(s, size, junk).value;
    RunAlone(s, size, junk, junk2);
    if l.t == 0 {
      NothingAppended(s, size, junk);
    } else if EmptyQuotes(s[l.argStart..]) {
      EmptyRun(s[l.argStart..], size, junk2);
    }
  }

  // ----- the reported missing quote --------------------------------------------------------------

  lemma {:induction false} QuoteIsFirst(s: string, size: nat, junk: string)
    requires Run(s, size, junk).Some? && Open(Run(s, size, junk).value.state)
    ensures
      var l := Run(s, size, junk).value;
      l.argStart < |s| && l.quote == if IsQuote(s[l.argStart]) then s[l.argStart] else '\0'
    decreases |s|
  {
    hide Run, Step, InOrder;
    NoWordsYet(size, junk);
    var s', c, i := s[..|s| - 1], s[|s| - 1], |s| - 1;
    RunLast(s, size, junk);
    RunInOrder(s', size, junk);
    var l := Run(s', size, junk).value;
    if Open(l.state) {
      QuoteIsFirst(s', size, junk);
      SameQuote(l, c, i, size);
    } else if l.state.Start? {
      ClosedLexer(l, |s'|);
      FirstQuote(l, c, i, size);
    } else {
      CommentStays(l, c, i, size);
    }
  }

  lemma SameQuote(l: Lexer, c: char, i: nat, size: nat)
    requires Open(l.state) && Step(l, c, i, size).Some? && Open(Step(l, c, i, size).value.state)
    ensures var m := Step(l, c, i, size).value; m.quote == l.quote && m.argStart == l.argStart
  {
  }

  lemma FirstQuote(l: Lexer, c: char, i: nat, size: nat)
    requires l.state.Start? && l.quote == '\0'
    requires Step(l, c, i, size).Some? && Open(Step(l, c, i, size).value.state)
    ensures var m := Step(l, c, i, size).value; m.argStart == i && m.quote == if IsQuote(c) then c else '\0'
  {
  }

  /** The quote that is open in a state, or the null character. */
  function OpenQuote(state: State): char {
    match state
    case InDoubleQuotes => '"'
    case EscapingQuoted => '"'
    case InSingleQuotes => '\''
    case _ => '\0'
  }

  /** The quote reported missing is the one the unfinished word begins with, or the null character. */
  lemma MissingQuote(str: string, size: nat, junk: string)
    requires Missing(str, size, junk).Some?
    ensures
      var l := Run(str, size, junk).value;
      && l.argStart < |str|
      && (l.words != [] ==> l.words[|l.words| - 1].end < l.argStart)
      && Missing(str, size, junk).value == if IsQuote(str[l.argStart]) then str[l.argStart] else '\0'
  {
    hide Step, Run;
    QuoteIsFirst(str, size, junk);
    RunInOrder(str, size, junk);
  }

  /** The quote reported missing is the open one exactly when the unfinished word begins with it. */
  lemma MissingQuoteIsOpen(str: string, size: nat, junk: string)
    requires Missing(str, size, junk).Some?
    ensures
      var l := Run(str, size, junk).value;
      var open := OpenQuote(l.state);
      && l.argStart < |str|
      && (Missing(str, size, junk).value == open
          <==> if open == '\0' then !IsQuote(str[l.argStart]) else str[l.argStart] == open)
  {
    hide Step, Run;
    MissingQuote(str, size, junk);
  }

  /** A quote opened in the middle of a word is not reported. */
  lemma MissingQuoteNotReported(size: nat, junk: string)
    requires size > 2
    ensures
      && Missing("a\"b", size, junk) == Some('\0')
      && OpenQuote(Run("a\"b", size, junk).value.state) == '"'
  {
    var s1, s2, s3 := "a", "a\"", "a\"b";
    assert s1[..0] == "" && s2[..1] == s1 && s3[..2] == s2;
    NoWordsYet(size, junk);
    RunSnoc(s1, size, junk);
    RunSnoc(s2, size, junk);
    RunSnoc(s3, size, junk);
  }

  // ----- what is outside the words -----------------------------------------------------------------

  predicate NewLine(c: char) { c == '\n' || c == '\r' }

  /** A word may start here. */
  predicate Fresh(s: string, j: nat)
    requires j < |s|
  {
    j == 0 || IsSpace(s[j - 1])
  }

  /** The first n characters end inside a comment. */
  ghost predicate Comment(s: string, n: nat)
    requires n <= |s|
  {
    exists j ::
      && 0 <= j < n
      && s[j] == '#'
      && Fresh(s, j)
      && (forall i :: j <= i < n ==> !NewLine(s[i]))
  }

  ghost predicate Ignored(s: string, k: nat)
    requires k < |s|
  {
    IsSpace(s[k]) || Comment(s, k + 1)
  }

  ghost predicate Covered(words: seq<Word>, k: nat) {
    exists w :: 0 <= w < |words| && words[w].start <= k < words[w].end
  }

  /** Outside of the words there are only blanks and comments. */
  lemma {:induction false} OnlyBlanksOutside(s: string, size: nat, junk: string, k: nat)
    requires Run(s, size, junk).Some?
    requires var l := Run(s, size, junk).value; k < (if Open(l.state) then l.argStart else |s|) <= |s|
    ensures Covered(Run(s, size, junk).value.words, k) || Ignored(s, k)
    decreases |s|
  {
    hide Run, Step, InOrder, Covered, Ignored;
    var s', c, i := s[..|s| - 1], s[|s| - 1], |s| - 1;
    RunLast(s, size, junk);
    var l, m := Run(s', size, junk).value, Run(s, size, junk).value;
    StepWords(l, c, i, size);
    RunInOrder(s', size, junk);
    ArgStartBound(l, i);
    BlankStep(s', l, c, i, size, k);
    if k < (if Open(l.state) then l.argStart else |s'|) {
      OnlyBlanksOutside(s', size, junk, k);
      StillIgnored(s', s, k);
      if Covered(l.words, k) {
        StillCovered(l.words, m.words, k);
      }
    } else if l.state.InWord? && IsSpace(c) && m == Push(l, i) && k < i {
      NewlyCovered(l, i, k);
    } else if k == i {
      RunAtBlank(s', size, junk);
      JustIgnored(s', l, c, size);
      assert s == s' + [c];
    }
  }

  lemma ArgStartBound(l: Lexer, n: nat)
    requires InOrder(l, n)
    ensures Open(l.state) ==> l.argStart < n
  {
  }

  lemma BlankStep(s: string, l: Lexer, c: char, i: nat, size: nat, k: nat)
    requires i == |s| && InOrder(l, i) && Step(l, c, i, size).Some?
    requires var m := Step(l, c, i, size).value; k < (if Open(m.state) then m.argStart else i + 1)
    ensures
      || k < (if Open(l.state) then l.argStart else i)
      || (l.state.InWord? && IsSpace(c) && Step(l, c, i, size) == Some(Push(l, i)) && l.argStart <= k <= i)
      || (k == i && !Open(l.state) && !Open(Step(l, c, i, size).value.state))
  {
  }

  lemma StillIgnored(s': string, s: string, k: nat)
    requires s' <= s && k < |s'|
    ensures Ignored(s', k) ==> Ignored(s, k)
  {
    if Comment(s', k + 1) {
      CommentOfPrefix(s', s, k + 1);
    }
  }

  lemma CommentOfPrefix(s': string, s: string, n: nat)
    requires s' <= s && n <= |s'| && Comment(s', n)
    ensures Comment(s, n)
  {
  }

  lemma CommentBegins(s: string, n: nat)
    requires n < |s| && s[n] == '#' && Fresh(s, n)
    ensures Comment(s, n + 1)
  {
  }

  lemma CommentGrows(s: string, n: nat)
    requires n < |s| && Comment(s, n) && !NewLine(s[n])
    ensures Comment(s, n + 1)
  {
  }

  lemma StillCovered(words: seq<Word>, more: seq<Word>, k: nat)
    requires words <= more && Covered(words, k)
    ensures Covered(more, k)
  {
    var w :| 0 <= w < |words| && words[w].start <= k < words[w].end;
    assert more[w] == words[w];
  }

  lemma NewlyCovered(l: Lexer, i: nat, k: nat)
    requires l.argStart <= k < i
    ensures Covered(Push(l, i).words, k)
  {
    assert Push(l, i).words[|l.words|] == Word(l.text, l.argStart, i);
  }

  /** Between words, the characters read so far end with a blank or inside a comment. */
  ghost predicate AtBlank(state: State, s: string) {
    && (state.Start? ==> s == "" || IsSpace(s[|s| - 1]))
    && (state.InComment? ==> Comment(s, |s|))
  }

  lemma AtBlankStep(s: string, l: Lexer, c: char, size: nat)
    requires AtBlank(l.state, s) && Step(l, c, |s|, size).Some?
    ensures AtBlank(Step(l, c, |s|, size).value.state, s + [c])
  {
    if l.state.Start? && c == '#' {
      CommentBegins(s + [c], |s|);
    } else if l.state.InComment? && !NewLine(c) {
      CommentOfPrefix(s, s + [c], |s|);
      CommentGrows(s + [c], |s|);
    }
  }

  lemma JustIgnored(s: string, l: Lexer, c: char, size: nat)
    requires AtBlank(l.state, s) && Step(l, c, |s|, size).Some?
    requires (l.state.InWord? && IsSpace(c)) || (!Open(l.state) && !Open(Step(l, c, |s|, size).value.state))
    ensures Ignored(s + [c], |s|)
  {
    if l.state.Start? && c == '#' {
      CommentBegins(s + [c], |s|);
    } else if l.state.InComment? && !NewLine(c) {
      CommentOfPrefix(s, s + [c], |s|);
      CommentGrows(s + [c], |s|);
    }
  }

  lemma {:induction false} RunAtBlank(s: string, size: nat, junk: string)
    requires Run(s, size, junk).Some?
    ensures AtBlank(Run(s, size, junk).value.state, s)
    decreases |s|
  {
    hide Step, Run, Comment;
    NoWordsYet(size, junk);
    if s != "" {
      var s' := s[..|s| - 1];
      RunLast(s, size, junk);
      RunAtBlank(s', size, junk);
      AtBlankStep(s', Run(s', size, junk).value, s[|s| - 1], size);
      assert s == s' + [s[|s| - 1]];
    }
  }
}
