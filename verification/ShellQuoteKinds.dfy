/** Which choices of quote, and of not quoting at all, the shell lexer reads back. */
module ShellQuoteKinds {
  import opened Prelude
  import opened ShellLex
  import opened ShellSpans
  import opened ShellQuote
  import opened ShellRoundTrip

  /** The text is copied without quotes. */
  predicate Copied(w: string, quote: char, force: bool) {
    !force && forall c :: c in w ==> !NeedsQuote(c, quote)
  }

  ghost predicate ReadsAs(text: string, w: string, strict: bool, size: nat, junk: string) {
    Lex(text, Flags(strict, false), size, junk) == Words([Word(w, 0, |text|)])
  }

  lemma OneWord(words: seq<Word>, a: Word, b: Word)
    requires words == []
    ensures words + [a] == [b] <==> a == b
  {
    assert (words + [a])[0] == a;
  }

  // ----- double quotes -----------------------------------------------------------------------------

  lemma DoubleQuoted(w: string, strict: bool, size: nat, junk: string)
    ensures ReadsAs(Quoted(w, '"', true), w, strict, size, junk) <==> Good(w, size)
  {
    hide Run, ReadAll, Quoted;
    FirstWithin(w, size, junk);
    assert Fits([w], size) <==> ReadAll([w][0]) == "" || |ReadAll([w][0])| < size;
    assert Carry([w][..0], junk) == junk;
    ReadLength(w);
    var r, n := Run(Join([w]), size, junk), |Quoted(w, '"', true)|;
    if r.Some? {
      OneWord(r.value.words, Word(r.value.text, r.value.argStart, n), Word(w, 0, n));
    }
    if forall c :: c in w ==> Clean(c) {
      ReadClean(w);
    }
  }

  // ----- no quotes ---------------------------------------------------------------------------------

  predicate Bare(c: char) { IsPrint(c) && !IsSpace(c) && c != '"' && c != '\'' }

  /** The lexer in a text without spaces or quotes. */
  ghost predicate InBare(l: Lexer, w: string, size: nat) {
    && l.words == []
    && l.argStart == 0
    && !l.trailing
    && w != ""
    && l.t <= |w|
    && (l.t > 0 ==> l.t < size && |l.text| == l.t)
    && if w[0] == '#' then l.state.InComment? else
       && (l.state.InWord? || l.state.Escaping?)
       && if '\\' in w then l.t < |w| else l.state.InWord? && l.t == |w| && l.text == w
  }

  lemma BareFirst(c: char, size: nat, junk: string)
    requires Bare(c)
    ensures Run([c], size, junk) == Step(Init(junk), c, 0, size)
    ensures Run([c], size, junk).Some? ==> InBare(Run([c], size, junk).value, [c], size)
    ensures Run([c], size, junk).None? ==> size <= 1
  {
    assert [c][..0] == "";
    assert [c][0] == c;
    NoWordsYet(size, junk);
  }

  lemma BareNext(l: Lexer, w: string, c: char, size: nat)
    requires Bare(c) && InBare(l, w, size)
    ensures Step(l, c, |w|, size).Some? ==> InBare(Step(l, c, |w|, size).value, w + [c], size)
    ensures Step(l, c, |w|, size).None? ==> |w| + 1 >= size
  {
    assert (w + [c])[0] == w[0];
    assert '\\' in w + [c] <==> '\\' in w || c == '\\';
  }

  lemma {:induction false} BareRun(w: string, size: nat, junk: string)
    requires w != "" && forall k :: 0 <= k < |w| ==> Bare(w[k])
    ensures
      match Run(w, size, junk)
      case None => |w| >= size
      case Some(l) => InBare(l, w, size)
    decreases |w|
  {
    hide Step, InBare, Bare, Run;
    var v, c := w[..|w| - 1], w[|w| - 1];
    assert w == v + [c];
    RunSnoc(w, size, junk);
    if v == "" {
      BareFirst(c, size, junk);
      assert w == [c];
    } else {
      BareRun(v, size, junk);
      var r := Run(v, size, junk);
      if r.Some? {
        BareNext(r.value, v, c, size);
      }
    }
  }

  lemma CopiedReadsBack(w: string, strict: bool, size: nat, junk: string)
    requires forall k :: 0 <= k < |w| ==> Bare(w[k])
    ensures ReadsAs(w, w, strict, size, junk) <==> Good(w, size) && '\\' !in w && w[0] != '#'
  {
    if w == "" {
      NoWordsYet(size, junk);
    } else {
      BareRun(w, size, junk);
      assert forall c :: c in w ==> Clean(c);
      var r := Run(w, size, junk);
      if r.Some? {
        BareEnd(r.value, w, strict, size);
      }
    }
  }

  lemma BareEnd(l: Lexer, w: string, strict: bool, size: nat)
    requires InBare(l, w, size)
    ensures
      Finish(l, |w|, Flags(strict, false)) == Words([Word(w, 0, |w|)])
      <==> |w| < size && '\\' !in w && w[0] != '#'
  {
    OneWord(l.words, Word(l.text, l.argStart, |w|), Word(w, 0, |w|));
  }

  // ----- single quotes -----------------------------------------------------------------------------

  lemma LiteralStep(l: Lexer, c: char, i: nat, size: nat)
    requires l.state.InSingleQuotes? && c != '\''
    ensures Step(l, c, i, size) == AppendText(l, [c], size)
  {
  }

  lemma NothingAdded(l: Lexer, size: nat)
    ensures AppendText(l, "", size) == Some(l)
  {
  }

  lemma {:induction false} LiteralText(l: Lexer, text: string, i: nat, size: nat)
    requires l.state.InSingleQuotes? && forall k :: 0 <= k < |text| ==> text[k] != '\''
    ensures Feed(l, i, text, size) == AppendText(l, text, size)
    decreases |text|
  {
    hide Step, AppendText;
    if text == "" {
      NothingAdded(l, size);
    } else {
      var v, c := text[..|text| - 1], text[|text| - 1];
      LiteralText(l, v, i, size);
      assert text == v + [c];
      AppendMore(l, v, [c], size);
      KeepsState(l, v, size);
      var m := AppendText(l, v, size);
      if m.Some? {
        LiteralStep(m.value, c, i + |v|, size);
      }
    }
  }

  lemma EscapeLength(c: char)
    ensures |Escape(c, '\'')| >= 1
    ensures |Escape(c, '\'')| == 1 ==> Escape(c, '\'') == [c] && c != '\\' && c != '\'' && Clean(c)
    ensures c != '\'' ==> forall k :: 0 <= k < |Escape(c, '\'')| ==> Escape(c, '\'')[k] != '\''
    ensures c != '\'' && c != '\\' && Clean(c) ==> Escape(c, '\'') == [c]
  {
    var byte := c as int % 256;
    PlainHex(byte / 16);
    PlainHex(byte % 16);
  }

  /** Escaping adds characters unless there is nothing to escape. */
  lemma {:induction false} EscapeAllLength(w: string)
    ensures |EscapeAll(w, '\'')| >= |w|
    ensures EscapeAll(w, '\'') == w <==> forall k :: 0 <= k < |w| ==> w[k] != '\\' && w[k] != '\'' && Clean(w[k])
    decreases |w|
  {
    hide Escape;
    if w != "" {
      var v, c := w[..|w| - 1], w[|w| - 1];
      EscapeAllLength(v);
      EscapeLength(c);
      assert w == v + [c];
      if EscapeAll(w, '\'') == w {
        assert |Escape(c, '\'')| == 1;
        assert EscapeAll(v, '\'') == w[..|v|];
      }
    }
  }

  lemma {:induction false} NoSingleQuote(w: string)
    requires forall k :: 0 <= k < |w| ==> w[k] != '\''
    ensures forall k :: 0 <= k < |EscapeAll(w, '\'')| ==> EscapeAll(w, '\'')[k] != '\''
    decreases |w|
  {
    hide Escape;
    if w != "" {
      NoSingleQuote(w[..|w| - 1]);
      EscapeLength(w[|w| - 1]);
    }
  }

  /** The lexer once it has read the opening quote. */
  function Opened(junk: string): Lexer {
    Init(junk).(state := InSingleQuotes, quote := '\'', trailing := false)
  }

  lemma OpeningQuote(rest: string, size: nat, junk: string)
    ensures Run(['\''] + rest, size, junk) == Feed(Opened(junk), 1, rest, size)
  {
    hide Feed, Run;
    assert "" + (['\''] + rest) == ['\''] + rest;
    RunFeed("", ['\''] + rest, size, junk);
    NoWordsYet(size, junk);
    FeedFeed(Init(junk), 0, ['\''], rest, size);
    FeedOne(Init(junk), 0, '\'', size);
  }

  lemma InSingle(w: string)
    ensures Quoted(w, '\'', true) == ['\''] + (EscapeAll(w, '\'') + ['\''])
  {
    hide EscapeAll;
  }

  lemma WithoutSingleQuote(w: string, strict: bool, size: nat, junk: string)
    requires forall k :: 0 <= k < |w| ==> w[k] != '\''
    ensures ReadsAs(Quoted(w, '\'', true), w, strict, size, junk) <==> Good(w, size) && '\\' !in w
  {
    hide Feed, Run, EscapeAll, Step, Quoted;
    var text := EscapeAll(w, '\'');
    var l := Opened(junk);
    InSingle(w);
    OpeningQuote(text + ['\''], size, junk);
    FeedFeed(l, 1, text, ['\''], size);
    NoSingleQuote(w);
    LiteralText(l, text, 1, size);
    EscapeAllLength(w);
    var m := AppendText(l, text, size);
    if m.Some? {
      FeedOne(m.value, 1 + |text|, '\'', size);
      ClosingQuote(m.value, 1 + |text|, size);
      var n := |text| + 2;
      OneWord([], Word(m.value.text, 0, n), Word(w, 0, n));
    }
  }

  lemma ClosingQuote(l: Lexer, i: nat, size: nat)
    requires l.state.InSingleQuotes?
    ensures Step(l, '\'', i, size) == Some(l.(state := InWord))
  {
  }

  /** The text of the word the lexer is in only grows. */
  ghost predicate Grows(l: Lexer, m: Lexer) {
    || (m.words == l.words && Open(m.state) && m.t > 0 && l.text <= m.text)
    || (|m.words| > |l.words| && l.text <= m.words[|l.words|].text)
  }

  lemma StepGrows(l: Lexer, m: Lexer, c: char, i: nat, size: nat)
    requires Grows(l, m) && Step(m, c, i, size).Some?
    ensures Grows(l, Step(m, c, i, size).value)
  {
  }

  lemma {:induction false} FeedGrows(l: Lexer, i: nat, text: string, size: nat)
    requires Open(l.state) && l.t > 0 && Feed(l, i, text, size).Some?
    ensures Grows(l, Feed(l, i, text, size).value)
    decreases |text|
  {
    hide Step;
    if text != "" {
      var v := text[..|text| - 1];
      FeedGrows(l, i, v, size);
      StepGrows(l, Feed(l, i, v, size).value, text[|text| - 1], i + |v|, size);
    }
  }

  lemma GrownWord(l: Lexer, m: Lexer, n: nat, strict: bool, w: string)
    requires l.words == [] && Grows(l, m)
    requires Finish(m, n, Flags(strict, false)) == Words([Word(w, 0, n)])
    ensures l.text <= w
  {
    assert Finish(m, n, Flags(strict, false)).words[0].text == w;
  }

  lemma {:induction false} EscapeSplit(a: string, b: string, quote: char)
    ensures EscapeAll(a + b, quote) == EscapeAll(a, quote) + EscapeAll(b, quote)
    decreases |b|
  {
    if b == "" {
      assert a + b == a;
    } else {
      assert (a + b)[..|a + b| - 1] == a + b[..|b| - 1];
      EscapeSplit(a, b[..|b| - 1], quote);
    }
  }

  /** A single quote in the text cannot be escaped between single quotes. */
  lemma WithSingleQuote(w: string, k: nat, strict: bool, size: nat, junk: string)
    requires k < |w| && w[k] == '\'' && forall j :: 0 <= j < k ==> w[j] != '\''
    ensures !ReadsAs(Quoted(w, '\'', true), w, strict, size, junk)
  {
    hide Feed, Run, EscapeAll, Step, Grows, Finish;
    var head := EscapeAll(w[..k], '\'') + ['\\'];
    var tail := ['\''] + EscapeAll(w[k + 1..], '\'') + ['\''];
    var text := Quoted(w, '\'', true);
    assert w == (w[..k] + ['\'']) + w[k + 1..];
    EscapeSplit(w[..k] + ['\''], w[k + 1..], '\'');
    EscapeSplit(w[..k], ['\''], '\'');
    EscapeOne('\'', '\'');
    assert text == ['\''] + (head + tail);
    OpeningQuote(head + tail, size, junk);
    FeedFeed(Opened(junk), 1, head, tail, size);
    NoSingleQuote(w[..k]);
    LiteralText(Opened(junk), head, 1, size);
    EscapeAllLength(w[..k]);
    var m := AppendText(Opened(junk), head, size);
    if m.Some? && ReadsAs(text, w, strict, size, junk) {
      FeedGrows(m.value, 1 + |head|, tail, size);
      GrownWord(m.value, Run(text, size, junk).value, |text|, strict, w);
    }
  }

  lemma EscapeOne(c: char, quote: char)
    ensures EscapeAll([c], quote) == Escape(c, quote)
  {
    assert [c][..0] == "";
    assert EscapeAll("", quote) == "";
  }

  lemma {:induction false} FirstSingleQuote(w: string, n: nat) returns (k: nat)
    requires n < |w| && w[n] == '\''
    ensures k < |w| && w[k] == '\'' && forall j :: 0 <= j < k ==> w[j] != '\''
    decreases n
  {
    if j :| 0 <= j < n && w[j] == '\'' {
      k := FirstSingleQuote(w, j);
    } else {
      k := n;
    }
  }

  lemma SingleQuoted(w: string, strict: bool, size: nat, junk: string)
    ensures ReadsAs(Quoted(w, '\'', true), w, strict, size, junk) <==> Good(w, size) && '\'' !in w && '\\' !in w
  {
    hide Quoted, Lex;
    if n :| 0 <= n < |w| && w[n] == '\'' {
      var k := FirstSingleQuote(w, n);
      WithSingleQuote(w, k, strict, size, junk);
    } else {
      WithoutSingleQuote(w, strict, size, junk);
    }
  }
}
