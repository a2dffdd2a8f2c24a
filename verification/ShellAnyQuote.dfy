/**
 Words quoted with any character: whatever the caller asks for, which words the
 shell lexer reads back.
 */
module ShellAnyQuote {
  import opened Prelude
  import opened ShellLex
  import opened ShellSpans
  import opened ShellQuote
  import opened ShellRoundTrip
  import opened ShellQuoteKinds

  // ----- counting characters ---------------------------------------------------------------------

  function Tally(s: string, counted: char -> bool): nat {
    if s == "" then 0 else Tally(s[..|s| - 1], counted) + if counted(s[|s| - 1]) then 1 else 0
  }

  lemma TallySnoc(s: string, c: char, counted: char -> bool)
    ensures Tally(s + [c], counted) == Tally(s, counted) + if counted(c) then 1 else 0
  {
    assert (s + [c])[..|s|] == s;
  }

  lemma {:induction false} TallyConcat(a: string, b: string, counted: char -> bool)
    ensures Tally(a + b, counted) == Tally(a, counted) + Tally(b, counted)
    decreases |b|
  {
    if b == "" {
      assert a + b == a;
    } else {
      assert (a + b)[..|a + b| - 1] == a + b[..|b| - 1];
      TallyConcat(a, b[..|b| - 1], counted);
    }
  }

  lemma {:induction false} TallyNone(s: string, counted: char -> bool)
    requires forall k :: 0 <= k < |s| ==> !counted(s[k])
    ensures Tally(s, counted) == 0
    decreases |s|
  {
    if s != "" {
      TallyNone(s[..|s| - 1], counted);
    }
  }

  lemma {:induction false} TallySome(s: string, k: nat, counted: char -> bool)
    requires k < |s| && counted(s[k])
    ensures Tally(s, counted) > 0
    decreases |s|
  {
    if k < |s| - 1 {
      TallySome(s[..|s| - 1], k, counted);
    }
  }

  // ----- one word and what is in it ----------------------------------------------------------------

  /** In the first word, with text in the buffer; or past it, and before offset i. */
  ghost predicate FirstWord(l: Lexer, i: nat) {
    if l.words == [] then Open(l.state) && l.t > 0 else l.words[0].end < i
  }

  /** The characters of the first word are among those that were there and those that were read. */
  ghost predicate Gains(l: Lexer, m: Lexer, read: string, counted: char -> bool) {
    && (l.words != [] ==> m.words != [])
    && (m.words == [] ==>
      && Tally(m.text, counted) <= Tally(l.text, counted) + Tally(read, counted)
      && ((forall c :: counted(c) ==> ClassOf(c).Other?) ==>
            Tally(m.text, counted) == Tally(l.text, counted) + Tally(read, counted)))
  }

  /** In the first word a character is appended, or is a special one, or ends the word. */
  lemma StepText(m: Lexer, c: char, i: nat, size: nat)
    requires FirstWord(m, i) && Step(m, c, i, size).Some?
    ensures
      var n := Step(m, c, i, size).value;
      && FirstWord(n, i + 1)
      && (m.words != [] ==> n.words != [])
      && (n.words == [] ==> n.text == m.text + [c] || (n.text == m.text && !ClassOf(c).Other?))
  {
  }

  lemma StepGains(l: Lexer, m: Lexer, read: string, c: char, i: nat, size: nat, counted: char -> bool)
    requires FirstWord(m, i) && Gains(l, m, read, counted) && Step(m, c, i, size).Some?
    ensures FirstWord(Step(m, c, i, size).value, i + 1)
    ensures Gains(l, Step(m, c, i, size).value, read + [c], counted)
  {
    hide Step, FirstWord, ClassOf, Tally;
    StepText(m, c, i, size);
    TallySnoc(read, c, counted);
    TallySnoc(m.text, c, counted);
  }

  lemma {:induction false} FeedGains(l: Lexer, i: nat, text: string, size: nat, counted: char -> bool)
    requires FirstWord(l, i) && Feed(l, i, text, size).Some?
    ensures FirstWord(Feed(l, i, text, size).value, i + |text|)
    ensures Gains(l, Feed(l, i, text, size).value, text, counted)
    decreases |text|
  {
    hide Step, Gains, FirstWord;
    if text == "" {
      NoGain(l, counted);
    } else {
      var v, c := text[..|text| - 1], text[|text| - 1];
      FeedGains(l, i, v, size, counted);
      StepGains(l, Feed(l, i, v, size).value, v, c, i + |v|, size, counted);
      assert text == v + [c];
    }
  }

  lemma NoGain(l: Lexer, counted: char -> bool)
    ensures Gains(l, l, "", counted)
  {
  }

  /** When one word from end to end is read, it is the text of the first word. */
  lemma WholeWord(m: Lexer, n: nat, strict: bool, w: string)
    requires FirstWord(m, n) && Finish(m, n, Flags(strict, false)) == Words([Word(w, 0, n)])
    ensures m.words == [] && m.text == w
  {
    assert Finish(m, n, Flags(strict, false)).words[0] == Word(w, 0, n);
  }

  lemma AfterFirst(c: char, rest: string, size: nat, junk: string)
    ensures
      Run([c] + rest, size, junk) ==
      match Step(Init(junk), c, 0, size)
      case None => None
      case Some(l) => Feed(l, 1, rest, size)
  {
    hide Feed, Run, Step;
    assert "" + ([c] + rest) == [c] + rest;
    RunFeed("", [c] + rest, size, junk);
    NoWordsYet(size, junk);
    FeedFeed(Init(junk), 0, [c], rest, size);
    FeedOne(Init(junk), 0, c, size);
  }

  // ----- an ordinary character as quote ----------------------------------------------------------------

  function Is(q: char): char -> bool { c => c == q }

  lemma {:induction false} EscapesKeep(w: string, q: char)
    ensures Tally(EscapeAll(w, q), Is(q)) >= Tally(w, Is(q))
    decreases |w|
  {
    hide Escape;
    if w != "" {
      var v, c := w[..|w| - 1], w[|w| - 1];
      EscapesKeep(v, q);
      TallyConcat(EscapeAll(v, q), Escape(c, q), Is(q));
      if c == q {
        EscapedQuote(q);
        TallySome(Escape(c, q), 1, Is(q));
      }
    }
  }

  lemma EscapedQuote(q: char)
    ensures Escape(q, q) == ['\\', q]
  {
  }

  lemma OrdinaryOpens(q: char, size: nat, junk: string)
    requires ClassOf(q).Other? && Step(Init(junk), q, 0, size).Some?
    ensures
      var l := Step(Init(junk), q, 0, size).value;
      FirstWord(l, 1) && l.words == [] && Tally(l.text, Is(q)) == 1
  {
    TallySnoc("", q, Is(q));
    assert "" + [q] == [q];
  }

  lemma OrdinaryTally(l: Lexer, m: Lexer, w: string, q: char)
    requires ClassOf(q).Other? && m.words == [] && Gains(l, m, EscapeAll(w, q) + [q], Is(q))
    ensures Tally(m.text, Is(q)) > Tally(w, Is(q)) + Tally(l.text, Is(q))
  {
    hide Tally, EscapeAll, ClassOf;
    assert forall c :: Is(q)(c) ==> ClassOf(c).Other?;
    EscapesKeep(w, q);
    TallySnoc(EscapeAll(w, q), q, Is(q));
  }

  /** Both quotes end up in the word. */
  lemma OrdinaryQuoted(w: string, q: char, strict: bool, size: nat, junk: string)
    requires ClassOf(q).Other? && q != '\0'
    ensures !ReadsAs(Quoted(w, q, true), w, strict, size, junk)
  {
    hide Feed, Run, EscapeAll, Finish, Tally, Gains, FirstWord, Step;
    var text, rest := Quoted(w, q, true), EscapeAll(w, q) + [q];
    assert text == [q] + rest;
    AfterFirst(q, rest, size, junk);
    var r := Run(text, size, junk);
    if r.Some? && ReadsAs(text, w, strict, size, junk) {
      var l := Step(Init(junk), q, 0, size).value;
      OrdinaryOpens(q, size, junk);
      FeedGains(l, 1, rest, size, Is(q));
      WholeWord(r.value, |text|, strict, w);
      OrdinaryTally(l, r.value, w, q);
    }
  }

  // ----- a space or a pound sign as quote ---------------------------------------------------------------

  /** No word starts with the first character. */
  ghost predicate Late(l: Lexer) {
    && (forall k :: 0 <= k < |l.words| ==> l.words[k].start >= 1)
    && (Open(l.state) ==> l.argStart >= 1)
  }

  lemma StepLate(l: Lexer, c: char, i: nat, size: nat)
    requires Late(l) && i >= 1 && Step(l, c, i, size).Some?
    ensures Late(Step(l, c, i, size).value)
  {
  }

  lemma {:induction false} FeedLate(l: Lexer, i: nat, text: string, size: nat)
    requires Late(l) && i >= 1 && Feed(l, i, text, size).Some?
    ensures Late(Feed(l, i, text, size).value)
    decreases |text|
  {
    hide Step, Late;
    if text != "" {
      var v := text[..|text| - 1];
      FeedLate(l, i, v, size);
      StepLate(Feed(l, i, v, size).value, text[|text| - 1], i + |v|, size);
    }
  }

  lemma LateWord(l: Lexer, n: nat, strict: bool, w: string)
    requires Late(l)
    ensures Finish(l, n, Flags(strict, false)) != Words([Word(w, 0, n)])
  {
    var r := Finish(l, n, Flags(strict, false));
    assert r.Words? && r.words != [] ==> r.words[0].start >= 1;
  }

  lemma BlankQuoted(w: string, q: char, strict: bool, size: nat, junk: string)
    requires ClassOf(q).Space? || ClassOf(q).Pound?
    ensures !ReadsAs(Quoted(w, q, true), w, strict, size, junk)
  {
    hide Feed, Run, EscapeAll;
    var text, rest := Quoted(w, q, true), EscapeAll(w, q) + [q];
    assert text == [q] + rest;
    AfterFirst(q, rest, size, junk);
    var r := Run(text, size, junk);
    if r.Some? && ReadsAs(text, w, strict, size, junk) {
      FeedLate(Step(Init(junk), q, 0, size).value, 1, rest, size);
      LateWord(r.value, |text|, strict, w);
    }
  }

  // ----- a backslash as quote ----------------------------------------------------------------------------

  /** The backslashes that a word starts with. */
  function Slashes(w: string): (m: nat)
    ensures m <= |w| && (forall j :: 0 <= j < m ==> w[j] == '\\') && (m < |w| ==> w[m] != '\\')
  {
    if w == "" || w[0] != '\\' then 0 else 1 + Slashes(w[1..])
  }

  predicate Breaks(c: char) { IsSpace(c) || c == '"' || c == '\'' }

  /** After the opening backslash and k characters of the word, of which m are leading backslashes. */
  ghost predicate InSlash(l: Lexer, w: string, k: nat, m: nat, size: nat) {
    && l.words == [] && l.argStart == 0 && !l.trailing
    && k <= |w| && l.t == k
    && (k > 0 ==> k < size && l.text == w[..k])
    && l.state == if k <= m then Escaping else InWord
  }

  function SlashText(w: string): string { ['\\'] + EscapeAll(w, '\\') }

  lemma SlashStep(l: Lexer, w: string, k: nat, i: nat, size: nat)
    requires k < |w| && InSlash(l, w, k, Slashes(w), size)
    requires Clean(w[k]) && (k > Slashes(w) ==> !Breaks(w[k]))
    ensures
      match Feed(l, i, Escape(w[k], '\\'), size)
      case None => k + 1 >= size
      case Some(m) => InSlash(m, w, k + 1, Slashes(w), size)
  {
    hide Feed, Slashes;
    var c := w[k];
    assert w[..k + 1] == w[..k] + [c];
    if c == '\\' {
      FeedTwo(l, i, '\\', '\\', size);
    } else {
      FeedOne(l, i, c, size);
    }
  }

  lemma {:induction false} SlashRun(w: string, k: nat, size: nat, junk: string)
    requires k <= |w| && forall j :: 0 <= j < k ==> Clean(w[j]) && (j > Slashes(w) ==> !Breaks(w[j]))
    ensures
      match Run(SlashText(w[..k]), size, junk)
      case None => k >= size
      case Some(l) => InSlash(l, w, k, Slashes(w), size)
  {
    hide Escape, Slashes, Feed, Run, Clean, Breaks;
    if k == 0 {
      assert SlashText(w[..0]) == ['\\'] + "";
      AfterFirst('\\', "", size, junk);
      FeedNothing(size, junk);
    } else {
      hide InSlash, EscapeAll;
      SlashRun(w, k - 1, size, junk);
      EscapeNext(w, k - 1, '\\');
      var text := SlashText(w[..k - 1]);
      assert SlashText(w[..k]) == text + Escape(w[k - 1], '\\');
      RunFeed(text, Escape(w[k - 1], '\\'), size, junk);
      var r := Run(text, size, junk);
      if r.Some? {
        SlashStep(r.value, w, k - 1, |text|, size);
      }
    }
  }

  lemma FeedNothing(size: nat, junk: string)
    ensures
      var l := Init(junk).(state := Escaping, trailing := false);
      Step(Init(junk), '\\', 0, size) == Some(l) && Feed(l, 1, "", size) == Some(l)
  {
  }

  lemma SlashFinish(l: Lexer, w: string, i: nat, strict: bool, size: nat)
    requires InSlash(l, w, |w|, Slashes(w), size)
    ensures
      match Step(l, '\\', i, size)
      case None => Slashes(w) == |w|
      case Some(m) =>
        Finish(m, i + 1, Flags(strict, false)) == Words([Word(w, 0, i + 1)]) <==> !strict && Slashes(w) < |w|
  {
    hide Slashes;
    assert w[..|w|] == w;
    var r := Step(l, '\\', i, size);
    if r.Some? {
      OneWord(r.value.words, Word(r.value.text, 0, i + 1), Word(w, 0, i + 1));
      assert Slashes(w) == |w| ==> |r.value.text| == |w| + 1;
    }
  }

  /** The closing backslash escapes the end of the string, or is escaped itself. */
  lemma SlashEnd(w: string, strict: bool, size: nat, junk: string)
    requires forall j :: 0 <= j < |w| ==> Clean(w[j]) && (j > Slashes(w) ==> !Breaks(w[j]))
    ensures
      ReadsAs(Quoted(w, '\\', true), w, strict, size, junk) <==>
      !strict && |w| < size && Slashes(w) < |w|
  {
    hide Run, Slashes, Feed, Step, Finish, Clean, Breaks, InSlash, SlashText, Quoted;
    assert w[..|w|] == w;
    SlashRun(w, |w|, size, junk);
    var text, full := SlashText(w), Quoted(w, '\\', true);
    SlashWhole(w);
    RunFeed(text, ['\\'], size, junk);
    var r := Run(text, size, junk);
    if r.Some? {
      SlashSize(r.value, w, size);
      FeedOne(r.value, |text|, '\\', size);
      SlashFinish(r.value, w, |text|, strict, size);
    }
  }

  lemma SlashWhole(w: string)
    ensures Quoted(w, '\\', true) == SlashText(w) + ['\\']
  {
    hide EscapeAll;
  }

  lemma SlashSize(l: Lexer, w: string, size: nat)
    requires InSlash(l, w, |w|, Slashes(w), size)
    ensures Slashes(w) < |w| ==> |w| < size
  {
  }

  function IsQuote(): char -> bool { c => c == '"' || c == '\'' }

  lemma {:induction false} EscapesNoQuote(w: string)
    ensures Tally(EscapeAll(w, '\\'), IsQuote()) <= Tally(w, IsQuote())
    decreases |w|
  {
    hide Escape;
    if w != "" {
      var v, c := w[..|w| - 1], w[|w| - 1];
      EscapesNoQuote(v);
      TallyConcat(EscapeAll(v, '\\'), Escape(c, '\\'), IsQuote());
      EscapeNoQuote(c);
    }
  }

  lemma EscapeNoQuote(c: char)
    ensures Tally(Escape(c, '\\'), IsQuote()) == if IsQuote()(c) then 1 else 0
  {
    var e := Escape(c, '\\');
    if IsQuote()(c) {
      assert e == "" + [c];
      TallySnoc("", c, IsQuote());
    } else {
      var byte := c as int % 256;
      PlainHex(byte / 16);
      PlainHex(byte % 16);
      TallyNone(e, IsQuote());
    }
  }

  /** A space ends the word early, and a quote is lost. */
  lemma SlashBreaks(w: string, k: nat, strict: bool, size: nat, junk: string)
    requires k < |w| && k > Slashes(w) && Breaks(w[k]) && Clean(w[k]) && w[k] != '\\'
    requires forall j :: 0 <= j < k ==> Clean(w[j]) && (j > Slashes(w) ==> !Breaks(w[j]))
    ensures !ReadsAs(Quoted(w, '\\', true), w, strict, size, junk)
  {
    hide Run, EscapeAll, Slashes, Feed, Finish, Gains, FirstWord, InSlash;
    hide Step, Tally, Breaks, Clean, SlashText, Quoted;
    SlashRun(w, k, size, junk);
    var full, text, c, v := Quoted(w, '\\', true), SlashText(w[..k]), w[k], w[k + 1..];
    var rest := EscapeAll(v, '\\') + ['\\'];
    SlashSplit(w, k);
    RunFeed(text, [c] + rest, size, junk);
    var r := Run(text, size, junk);
    if r.Some? && ReadsAs(full, w, strict, size, junk) {
      FeedFeed(r.value, |text|, [c], rest, size);
      FeedOne(r.value, |text|, c, size);
      SlashBroken(r.value, w, k, |text|, size);
      var l := Step(r.value, c, |text|, size).value;
      FeedGains(l, |text| + 1, rest, size, IsQuote());
      WholeWord(Run(full, size, junk).value, |full|, strict, w);
      TooFewQuotes(l, Run(full, size, junk).value, w, k);
    }
  }

  lemma SlashSplit(w: string, k: nat)
    requires k < |w| && Clean(w[k]) && w[k] != '\\'
    ensures
      Quoted(w, '\\', true) == SlashText(w[..k]) + ([w[k]] + (EscapeAll(w[k + 1..], '\\') + ['\\']))
  {
    hide EscapeAll;
    assert w == (w[..k] + [w[k]]) + w[k + 1..];
    EscapeSplit(w[..k] + [w[k]], w[k + 1..], '\\');
    EscapeSplit(w[..k], [w[k]], '\\');
    EscapeOne(w[k], '\\');
  }

  lemma SlashBroken(l: Lexer, w: string, k: nat, i: nat, size: nat)
    requires k < |w| && k > Slashes(w) && Breaks(w[k]) && InSlash(l, w, k, Slashes(w), size)
    ensures Step(l, w[k], i, size).Some?
    ensures
      var m := Step(l, w[k], i, size).value;
      FirstWord(m, i + 1) && (m.words == [] ==> m.text == w[..k] && IsQuote()(w[k]))
  {
  }

  lemma TooFewQuotes(l: Lexer, m: Lexer, w: string, k: nat)
    requires k < |w| && (l.words == [] ==> l.text == w[..k] && IsQuote()(w[k]))
    requires m.words == [] && Gains(l, m, EscapeAll(w[k + 1..], '\\') + ['\\'], IsQuote())
    ensures m.text != w
  {
    hide Tally, EscapeAll;
    var v := w[k + 1..];
    EscapesNoQuote(v);
    TallySnoc(EscapeAll(v, '\\'), '\\', IsQuote());
    assert w == w[..k] + [w[k]] + v;
    TallyConcat(w[..k] + [w[k]], v, IsQuote());
    TallySnoc(w[..k], w[k], IsQuote());
  }

  function IsControl(): char -> bool { c => !Clean(c) }

  lemma {:induction false} EscapesClean(w: string)
    ensures Tally(EscapeAll(w, '\\'), IsControl()) == 0
    decreases |w|
  {
    hide Escape;
    if w != "" {
      var v, c := w[..|w| - 1], w[|w| - 1];
      EscapesClean(v);
      TallyConcat(EscapeAll(v, '\\'), Escape(c, '\\'), IsControl());
      EscapeClean(c);
    }
  }

  lemma EscapeClean(c: char)
    ensures Tally(Escape(c, '\\'), IsControl()) == 0
  {
    var byte := c as int % 256;
    PlainHex(byte / 16);
    PlainHex(byte % 16);
    TallyNone(Escape(c, '\\'), IsControl());
  }

  /** A control character is not read back from its escape. */
  lemma SlashControl(w: string, k: nat, strict: bool, size: nat, junk: string)
    requires k < |w| && !Clean(w[k])
    ensures !ReadsAs(Quoted(w, '\\', true), w, strict, size, junk)
  {
    hide Run, EscapeAll, Feed, Finish, Gains, FirstWord, Step, Tally;
    var full, rest := Quoted(w, '\\', true), EscapeAll(w, '\\') + ['\\'];
    var c, more := rest[0], rest[1..];
    assert rest == [c] + more;
    assert full == ['\\'] + ([c] + more);
    AfterFirst('\\', [c] + more, size, junk);
    FeedNothing(size, junk);
    var l := Init(junk).(state := Escaping, trailing := false);
    FeedFeed(l, 1, [c], more, size);
    FeedOne(l, 1, c, size);
    if ReadsAs(full, w, strict, size, junk) {
      var n := Step(l, c, 1, size).value;
      EscapedFirst(l, c, size);
      FeedGains(n, 2, more, size, IsControl());
      var m := Run(full, size, junk).value;
      WholeWord(m, |full|, strict, w);
      EscapesClean(w);
      TallySnoc(EscapeAll(w, '\\'), '\\', IsControl());
      TallySnoc("", c, IsControl());
      assert [c] == "" + [c];
      TallyConcat([c], more, IsControl());
      GainsAtMost(n, m, more, IsControl());
      TallySome(w, k, IsControl());
    }
  }

  lemma EscapedFirst(l: Lexer, c: char, size: nat)
    requires l.state.Escaping? && l.t == 0 && l.words == [] && Step(l, c, 1, size).Some?
    ensures var n := Step(l, c, 1, size).value; FirstWord(n, 2) && n.words == [] && n.text == "" + [c]
  {
  }

  lemma GainsAtMost(l: Lexer, m: Lexer, read: string, counted: char -> bool)
    requires Gains(l, m, read, counted) && m.words == []
    ensures Tally(m.text, counted) <= Tally(l.text, counted) + Tally(read, counted)
  {
  }

  lemma BreakIsPlain(c: char)
    requires Breaks(c)
    ensures c != '\\'
  {
  }

  lemma SlashQuoted(w: string, strict: bool, size: nat, junk: string)
    ensures
      ReadsAs(Quoted(w, '\\', true), w, strict, size, junk) <==>
      Good(w, size) && !strict && Slashes(w) < |w| && forall j :: Slashes(w) < j < |w| ==> !Breaks(w[j])
  {
    hide ReadsAs, Quoted, Slashes, Breaks, Clean;
    if k :| 0 <= k < |w| && !Clean(w[k]) {
      SlashControl(w, k, strict, size, junk);
      assert w[k] in w;
    } else if n :| Slashes(w) < n < |w| && Breaks(w[n]) {
      var k := FirstBreak(w, Slashes(w) + 1, n);
      BreakIsPlain(w[k]);
      SlashBreaks(w, k, strict, size, junk);
    } else {
      SlashEnd(w, strict, size, junk);
    }
  }

  lemma {:induction false} FirstBreak(w: string, from: nat, n: nat) returns (k: nat)
    requires from <= n < |w| && Breaks(w[n])
    ensures from <= k < |w| && Breaks(w[k]) && forall j :: from <= j < k ==> !Breaks(w[j])
    decreases n
  {
    if j :| from <= j < n && Breaks(w[j]) {
      k := FirstBreak(w, from, j);
    } else {
      k := n;
    }
  }

  // ----- every quote -----------------------------------------------------------------------------------

  /** The quoting does not lose anything of a good word. */
  predicate Faithful(w: string, quote: char, force: bool, strict: bool) {
    if Copied(w, quote, force) then '\\' !in w && (w != "" ==> w[0] != '#')
    else
      match ClassOf(Chosen(w, quote))
      case DoubleQuote => true
      case SingleQuote => '\'' !in w && '\\' !in w
      case Backslash => !strict && Slashes(w) < |w| && forall j :: Slashes(w) < j < |w| ==> !Breaks(w[j])
      case _ => false
  }

  /** A word that the quoter was given reads back exactly when it is good and the quoting was faithful. */
  lemma QuoteRoundTrip(w: string, quote: char, force: bool, strict: bool, size: nat, junk: string)
    ensures
      ReadsAs(Quoted(w, quote, force), w, strict, size, junk) <==>
      Good(w, size) && Faithful(w, quote, force, strict)
  {
    hide Lex, EscapeAll, Slashes, Breaks, Good;
    if Copied(w, quote, force) {
      CopiedRoundTrip(w, quote, force, strict, size, junk);
    } else {
      var q := Chosen(w, quote);
      assert Quoted(w, quote, force) == Quoted(w, q, true);
      match ClassOf(q)
      case DoubleQuote => DoubleQuoted(w, strict, size, junk);
      case SingleQuote => SingleQuoted(w, strict, size, junk);
      case Backslash => SlashQuoted(w, strict, size, junk);
      case Other => OrdinaryQuoted(w, q, strict, size, junk);
      case _ => BlankQuoted(w, q, strict, size, junk);
    }
  }

  lemma CopiedRoundTrip(w: string, quote: char, force: bool, strict: bool, size: nat, junk: string)
    requires Copied(w, quote, force)
    ensures
      ReadsAs(Quoted(w, quote, force), w, strict, size, junk) <==>
      Good(w, size) && Faithful(w, quote, force, strict)
  {
    hide Lex, EscapeAll;
    forall k | 0 <= k < |w|
      ensures Bare(w[k])
    {
      assert w[k] in w;
    }
    CopiedReadsBack(w, strict, size, junk);
  }

  /** A word with both kinds of quotes is lost by automatic quoting, one with a backslash by not quoting. */
  lemma WordsThatAreLost(strict: bool, size: nat, junk: string)
    ensures !ReadsAs(Quoted("\"'", '\0', true), "\"'", strict, size, junk)
    ensures !ReadsAs(Quoted("a\\b", '\0', false), "a\\b", strict, size, junk)
    ensures !ReadsAs(Quoted("#a", '\0', false), "#a", strict, size, junk)
  {
    hide ReadsAs, Quoted;
    var both, slash, pound := "\"'", "a\\b", "#a";
    assert both[0] == '"' && both[1] == '\'' && slash[1] == '\\' && pound[0] == '#';
    QuoteRoundTrip(both, '\0', true, strict, size, junk);
    QuoteRoundTrip(slash, '\0', false, strict, size, junk);
    QuoteRoundTrip(pound, '\0', false, strict, size, junk);
    assert forall c :: c in slash ==> !NeedsQuote(c, '\0');
    assert forall c :: c in pound ==> !NeedsQuote(c, '\0');
  }
}
