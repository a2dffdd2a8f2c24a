/** What the shell lexer reads back from quoted words. */
module ShellRoundTrip {
  import opened Prelude
  import opened ShellLex
  import opened ShellQuote

  // ----- feeding text to a lexer ---------------------------------------------------------------

  /** The lexer after reading text that starts at offset i. */
  function Feed(l: Lexer, i: nat, text: string, size: nat): Option<Lexer> {
    if text == "" then Some(l)
    else
      match Feed(l, i, text[..|text| - 1], size)
      case None => None
      case Some(m) => Step(m, text[|text| - 1], i + |text| - 1, size)
  }

  lemma {:induction false} FeedFeed(l: Lexer, i: nat, a: string, b: string, size: nat)
    ensures
      Feed(l, i, a + b, size) ==
      match Feed(l, i, a, size)
      case None => None
      case Some(m) => Feed(m, i + |a|, b, size)
    decreases |b|
  {
    hide Step;
    if b == "" {
      assert a + b == a;
    } else {
      assert (a + b)[..|a + b| - 1] == a + b[..|b| - 1];
      FeedFeed(l, i, a, b[..|b| - 1], size);
    }
  }

  lemma {:induction false} RunFeed(s: string, text: string, size: nat, junk: string)
    ensures
      Run(s + text, size, junk) ==
      match Run(s, size, junk)
      case None => None
      case Some(l) => Feed(l, |s|, text, size)
    decreases |text|
  {
    hide Step;
    if text == "" {
      assert s + text == s;
    } else {
      assert (s + text)[..|s + text| - 1] == s + text[..|text| - 1];
      RunFeed(s, text[..|text| - 1], size, junk);
    }
  }

  lemma FeedOne(l: Lexer, i: nat, c: char, size: nat)
    ensures Feed(l, i, [c], size) == Step(l, c, i, size)
  {
    assert Feed(l, i, [c][..0], size) == Some(l);
  }

  lemma FeedTwo(l: Lexer, i: nat, c: char, d: char, size: nat)
    ensures
      Feed(l, i, [c, d], size) ==
      match Step(l, c, i, size) case None => None case Some(m) => Step(m, d, i + 1, size)
  {
    assert [c, d][..1] == [c];
    FeedOne(l, i, c, size);
  }

  /** Appending a whole text to the token. */
  function AppendText(l: Lexer, text: string, size: nat): Option<Lexer> {
    if text == "" then Some(l)
    else if l.t + |text| >= size then None
    else Some(l.(t := l.t + |text|, text := (if l.t == 0 then "" else l.text) + text))
  }

  lemma AppendMore(l: Lexer, a: string, b: string, size: nat)
    ensures
      AppendText(l, a + b, size) ==
      match AppendText(l, a, size)
      case None => None
      case Some(m) => AppendText(m, b, size)
  {
    assert a + "" == a && "" + b == b;
    assert ((if l.t == 0 then "" else l.text) + a) + b == (if l.t == 0 then "" else l.text) + (a + b);
  }

  // ----- between double quotes ---------------------------------------------------------------------

  predicate Clean(c: char) { IsPrint(c) || c == '\n' }

  /** What is read back from an escaped character: the escape of a control character keeps its letters. */
  function Read(c: char): string {
    if Clean(c) then [c] else Escape(c, '"')[1..]
  }

  function ReadAll(w: string): string {
    if w == "" then "" else ReadAll(w[..|w| - 1]) + Read(w[|w| - 1])
  }

  lemma PlainHex(n: nat)
    requires n < 16
    ensures IsPrint(Hex(n)) && Hex(n) != '"' && Hex(n) != '\\' && Hex(n) != '\'' && !IsSpace(Hex(n))
  {
  }

  lemma AppendQuoted(l: Lexer, c: char, i: nat, size: nat)
    requires l.state.InDoubleQuotes? && c != '"' && c != '\\'
    ensures Step(l, c, i, size) == AppendText(l, [c], size)
  {
  }

  lemma EscapedChar(l: Lexer, c: char, i: nat, size: nat)
    requires l.state.InDoubleQuotes?
    ensures Feed(l, i, ['\\', c], size) == AppendText(l, [c], size)
  {
    FeedTwo(l, i, '\\', c, size);
  }

  lemma CharQuoted(l: Lexer, c: char, i: nat, size: nat)
    requires l.state.InDoubleQuotes?
    ensures Feed(l, i, Escape(c, '"'), size) == AppendText(l, Read(c), size)
  {
    hide Step, Feed, AppendText;
    if c == '"' || c == '\\' {
      EscapedChar(l, c, i, size);
    } else if Clean(c) {
      FeedOne(l, i, c, size);
      AppendQuoted(l, c, i, size);
    } else {
      var byte := c as int % 256;
      var h, k := Hex(byte / 16), Hex(byte % 16);
      PlainHex(byte / 16);
      PlainHex(byte % 16);
      ThreeQuoted(l, 'x', h, k, i, size);
    }
  }

  lemma ThreeQuoted(l: Lexer, c: char, h: char, k: char, i: nat, size: nat)
    requires l.state.InDoubleQuotes? && h != '"' && h != '\\' && k != '"' && k != '\\'
    ensures Feed(l, i, ['\\', c, h, k], size) == AppendText(l, [c, h, k], size)
  {
    hide Step, Feed;
    assert ['\\', c, h, k] == ['\\', c] + [h, k];
    FeedFeed(l, i, ['\\', c], [h, k], size);
    EscapedChar(l, c, i, size);
    AppendMore(l, [c], [h, k], size);
    assert [c] + [h, k] == [c, h, k];
    var m := AppendText(l, [c], size);
    if m.Some? {
      FeedTwo(m.value, i + 2, h, k, size);
      AppendQuoted(m.value, h, i + 2, size);
      AppendMore(m.value, [h], [k], size);
      assert [h] + [k] == [h, k];
      var n := AppendText(m.value, [h], size);
      if n.Some? {
        AppendQuoted(n.value, k, i + 3, size);
      }
    }
  }

  lemma {:induction false} TextQuoted(l: Lexer, w: string, i: nat, size: nat)
    requires l.state.InDoubleQuotes?
    ensures Feed(l, i, EscapeAll(w, '"'), size) == AppendText(l, ReadAll(w), size)
    decreases |w|
  {
    hide Step, Escape, Read;
    if w != "" {
      var v, c := w[..|w| - 1], w[|w| - 1];
      TextQuoted(l, v, i, size);
      FeedFeed(l, i, EscapeAll(v, '"'), Escape(c, '"'), size);
      AppendMore(l, ReadAll(v), Read(c), size);
      var m := AppendText(l, ReadAll(v), size);
      if m.Some? {
        CharQuoted(m.value, c, i + |EscapeAll(v, '"')|, size);
      }
    }
  }

  /** The lexer once it has read a quoted word. */
  function ReadWord(l: Lexer, w: string, i: nat, size: nat): Option<Lexer> {
    AppendText(l.(state := InWord, quote := '"', argStart := i, trailing := false), ReadAll(w), size)
  }

  lemma AppendState(l: Lexer, text: string, size: nat, state: State)
    ensures
      AppendText(l.(state := state), text, size) ==
      match AppendText(l, text, size)
      case None => None
      case Some(m) => Some(m.(state := state))
  {
  }

  lemma WordQuoted(l: Lexer, w: string, i: nat, size: nat)
    requires l.state.Start?
    ensures Feed(l, i, Quoted(w, '"', true), size) == ReadWord(l, w, i, size)
  {
    hide Feed, AppendText, EscapeAll, ReadAll;
    var l1 := l.(state := InDoubleQuotes, quote := '"', argStart := i, trailing := false);
    FeedOne(l, i, '"', size);
    FeedFeed(l, i, ['"'], EscapeAll(w, '"'), size);
    TextQuoted(l1, w, i + 1, size);
    FeedFeed(l, i, ['"'] + EscapeAll(w, '"'), ['"'], size);
    AppendState(l1, ReadAll(w), size, InWord);
    var m := AppendText(l1, ReadAll(w), size);
    if m.Some? {
      FeedOne(m.value, i + 1 + |EscapeAll(w, '"')|, '"', size);
      KeepsState(l1, ReadAll(w), size);
    }
  }

  lemma KeepsState(l: Lexer, text: string, size: nat)
    ensures AppendText(l, text, size).Some? ==> AppendText(l, text, size).value.state == l.state
  {
  }

  // ----- lists of words ------------------------------------------------------------------------------

  function Join(words: seq<string>): string {
    if words == [] then ""
    else if |words| == 1 then Quoted(words[0], '"', true)
    else Join(words[..|words| - 1]) + " " + Quoted(words[|words| - 1], '"', true)
  }

  /** The text in the token buffer after the words: the last one that was not empty. */
  function Carry(words: seq<string>, junk: string): string {
    if words == [] then junk
    else if ReadAll(words[|words| - 1]) != "" then ReadAll(words[|words| - 1])
    else Carry(words[..|words| - 1], junk)
  }

  ghost predicate Fits(words: seq<string>, size: nat) {
    forall k :: 0 <= k < |words| ==> ReadAll(words[k]) == "" || |ReadAll(words[k])| < size
  }

  /** The lexer inside the last of the words. */
  ghost predicate Within(l: Lexer, words: seq<string>, junk: string) {
    && words != []
    && l.state.InWord?
    && !l.trailing
    && l.t == |ReadAll(words[|words| - 1])|
    && l.text == Carry(words, junk)
    && |l.words| == |words| - 1
    && forall k :: 0 <= k < |l.words| ==> l.words[k].text == Carry(words[..k + 1], junk)
  }

  lemma FirstWithin(w: string, size: nat, junk: string)
    ensures Run(Join([w]), size, junk) == ReadWord(Init(junk), w, 0, size)
    ensures
      match Run(Join([w]), size, junk)
      case None => !Fits([w], size)
      case Some(l) => Fits([w], size) && Within(l, [w], junk)
  {
    hide Step, Feed, Quoted;
    assert "" + Quoted(w, '"', true) == Quoted(w, '"', true);
    RunFeed("", Quoted(w, '"', true), size, junk);
    WordQuoted(Init(junk), w, 0, size);
    assert Carry([w][..0], junk) == junk;
  }

  lemma NextWithin(l: Lexer, words: seq<string>, w: string, i: nat, size: nat, junk: string)
    requires Within(l, words, junk) && Fits(words, size)
    ensures
      match ReadWord(Push(l, i), w, i + 1, size)
      case None => !Fits(words + [w], size)
      case Some(m) => Fits(words + [w], size) && Within(m, words + [w], junk)
  {
    hide ReadAll;
    var all := words + [w];
    assert all[..|all| - 1] == words;
    forall k | 0 <= k < |l.words|
      ensures l.words[k].text == Carry(all[..k + 1], junk)
    {
      assert all[..k + 1] == words[..k + 1];
    }
    assert words[..|words|] == words;
    match ReadWord(Push(l, i), w, i + 1, size)
    case None => assert all[|words|] == w;
    case Some(m) =>
  }

  lemma {:induction false} ListRun(words: seq<string>, size: nat, junk: string)
    requires words != []
    ensures
      match Run(Join(words), size, junk)
      case None => !Fits(words, size)
      case Some(l) => Fits(words, size) && Within(l, words, junk)
    decreases |words|
  {
    if |words| == 1 {
      FirstWithin(words[0], size, junk);
      assert words == [words[0]];
    } else {
      hide Step, Feed, Quoted, ReadAll, Run, Within, Fits, ReadWord, Carry;
      var front, w := words[..|words| - 1], words[|words| - 1];
      var text := Join(front);
      ListRun(front, size, junk);
      RunFeed(text, " ", size, junk);
      RunFeed(text + " ", Quoted(w, '"', true), size, junk);
      assert front + [w] == words;
      var r := Run(text, size, junk);
      if r.Some? {
        SpacePushes(r.value, front, |text|, size, junk);
        WordQuoted(Push(r.value, |text|), w, |text| + 1, size);
        NextWithin(r.value, front, w, |text|, size, junk);
      } else {
        FitsFront(front, w, size);
      }
    }
  }

  lemma FitsFront(words: seq<string>, w: string, size: nat)
    ensures Fits(words + [w], size) ==> Fits(words, size)
  {
    forall k | 0 <= k < |words|
      ensures (words + [w])[k] == words[k]
    {
    }
  }

  lemma SpacePushes(l: Lexer, words: seq<string>, i: nat, size: nat, junk: string)
    requires Within(l, words, junk)
    ensures Feed(l, i, " ", size) == Some(Push(l, i))
  {
    FeedOne(l, i, ' ', size);
  }

  function Texts(words: seq<Word>): seq<string> {
    seq(|words|, k requires 0 <= k < |words| => words[k].text)
  }

  /** A word that can be read back. */
  predicate Good(w: string, size: nat) {
    w != "" && |w| < size && forall c :: c in w ==> Clean(c)
  }

  lemma {:induction false} ReadLength(w: string)
    ensures |ReadAll(w)| >= |w|
    ensures |ReadAll(w)| == |w| ==> ReadAll(w) == w && forall c :: c in w ==> Clean(c)
    decreases |w|
  {
    if w != "" {
      ReadLength(w[..|w| - 1]);
      assert w == w[..|w| - 1] + [w[|w| - 1]];
    }
  }

  lemma CleanFront(w: string)
    requires w != "" && forall c :: c in w ==> Clean(c)
    ensures Read(w[|w| - 1]) == [w[|w| - 1]] && forall c :: c in w[..|w| - 1] ==> Clean(c)
  {
    hide Clean;
    assert w[|w| - 1] in w;
    forall c | c in w[..|w| - 1]
      ensures Clean(c)
    {
      assert c in w;
    }
  }

  lemma {:induction false} ReadClean(w: string)
    requires forall c :: c in w ==> Clean(c)
    ensures ReadAll(w) == w
    decreases |w|
  {
    hide Clean, Read;
    if w != "" {
      var v, c := w[..|w| - 1], w[|w| - 1];
      CleanFront(w);
      ReadClean(v);
      assert w == v + [c];
    }
  }

  ghost predicate ReadsBack(words: seq<string>, strict: bool, size: nat, junk: string) {
    var r := Lex(Join(words), Flags(strict, false), size, junk);
    r.Words? && Texts(r.words) == words
  }

  lemma GoodCarries(words: seq<string>, junk: string, k: nat, size: nat)
    requires k < |words| && Good(words[k], size)
    ensures ReadAll(words[k]) == words[k] && Carry(words[..k + 1], junk) == words[k]
  {
    hide ReadAll;
    ReadClean(words[k]);
  }

  lemma WithinReadsBack(l: Lexer, words: seq<string>, n: nat, strict: bool, junk: string)
    requires Within(l, words, junk) && ReadAll(words[|words| - 1]) != ""
    requires forall k :: 0 <= k < |words| ==> words[k] == Carry(words[..k + 1], junk)
    ensures var r := Finish(l, n, Flags(strict, false)); r.Words? && Texts(r.words) == words
  {
    hide ReadAll, Carry;
    assert words[..|words|] == words;
  }

  lemma GoodReadsBack(words: seq<string>, strict: bool, size: nat, junk: string)
    requires forall w :: w in words ==> Good(w, size)
    ensures ReadsBack(words, strict, size, junk)
  {
    hide Run, Join, Good, ReadAll, Carry, Within, Finish;
    if words == [] {
      EmptyReadsBack(strict, size, junk);
    } else {
      forall k | 0 <= k < |words|
        ensures words[k] == Carry(words[..k + 1], junk)
      {
        assert Good(words[k], size);
        GoodCarries(words, junk, k, size);
      }
      ListRun(words, size, junk);
      GoodFits(words, size);
      assert Good(words[|words| - 1], size);
      GoodIsText(words[|words| - 1], size);
      GoodCarries(words, junk, |words| - 1, size);
      WithinReadsBack(Run(Join(words), size, junk).value, words, |Join(words)|, strict, junk);
    }
  }

  lemma EmptyReadsBack(strict: bool, size: nat, junk: string)
    ensures ReadsBack([], strict, size, junk)
  {
    assert Texts([]) == [];
  }

  lemma GoodIsText(w: string, size: nat)
    requires Good(w, size)
    ensures w != "" && |w| < size
  {
  }

  lemma GoodFits(words: seq<string>, size: nat)
    requires forall w :: w in words ==> Good(w, size)
    ensures Fits(words, size)
  {
    hide ReadAll;
    forall k | 0 <= k < |words|
      ensures |ReadAll(words[k])| < size
    {
      assert Good(words[k], size);
      ReadClean(words[k]);
    }
  }

  /** An empty word reads back as the word before it, so as what the buffer held at first. */
  lemma {:induction false} EmptyCarries(words: seq<string>, junk: string, k: nat)
    requires forall j :: 0 <= j <= k < |words| ==> words[j] == Carry(words[..j + 1], junk)
    requires k < |words| && words[k] == ""
    ensures junk == ""
  {
    assert words[k] == Carry(words[..k + 1], junk);
    assert words[..k + 1][..k] == words[..k];
    if k > 0 {
      assert words[k - 1] == Carry(words[..k], junk);
      EmptyCarries(words, junk, k - 1);
    }
  }

  lemma TextsAreCarried(l: Lexer, words: seq<string>, n: nat, strict: bool, junk: string)
    requires Within(l, words, junk)
    requires var r := Finish(l, n, Flags(strict, false)); r.Words? && Texts(r.words) == words
    ensures forall k :: 0 <= k < |words| ==> words[k] == Carry(words[..k + 1], junk)
  {
    hide ReadAll, Carry;
    var r := Finish(l, n, Flags(strict, false)).words;
    assert |Texts(r)| == |r| && words[..|words|] == words;
    forall k | 0 <= k < |words|
      ensures words[k] == Carry(words[..k + 1], junk)
    {
      assert Texts(r)[k] == r[k].text;
    }
  }

  lemma CarriedIsGood(words: seq<string>, k: nat, size: nat, junk: string)
    requires forall j :: 0 <= j < |words| ==> words[j] == Carry(words[..j + 1], junk)
    requires junk != "" && k < |words| && Fits(words, size)
    ensures Good(words[k], size)
  {
    hide ReadAll;
    if words[k] == "" {
      EmptyCarries(words, junk, k);
    }
    ReadLength(words[k]);
    assert words[k] == Carry(words[..k + 1], junk);
  }

  lemma ReadBackIsGood(words: seq<string>, strict: bool, size: nat, junk: string)
    requires junk != "" && ReadsBack(words, strict, size, junk)
    ensures forall w :: w in words ==> Good(w, size)
  {
    hide Run, Join, ReadAll, Carry, Finish, Within, Fits, Good;
    if words != [] {
      ListRun(words, size, junk);
      TextsAreCarried(Run(Join(words), size, junk).value, words, |Join(words)|, strict, junk);
      forall k | 0 <= k < |words|
        ensures Good(words[k], size)
      {
        CarriedIsGood(words, k, size, junk);
      }
    }
  }

  /** Whatever the token buffer holds at first, a list of quoted words reads back exactly when they are all good. */
  lemma ListRoundTrip(words: seq<string>, strict: bool, size: nat)
    requires size > 1
    ensures
      (forall junk :: |junk| < size ==> ReadsBack(words, strict, size, junk))
      <==> (forall w :: w in words ==> Good(w, size))
  {
    hide ReadsBack, Good;
    if forall junk :: |junk| < size ==> ReadsBack(words, strict, size, junk) {
      assert ReadsBack(words, strict, size, "?");
      ReadBackIsGood(words, strict, size, "?");
    }
    if forall w :: w in words ==> Good(w, size) {
      forall junk | |junk| < size
        ensures ReadsBack(words, strict, size, junk)
      {
        GoodReadsBack(words, strict, size, junk);
      }
    }
  }

  /** A list of one empty word does not read back. */
  lemma EmptyWordIsLost(strict: bool, size: nat, junk: string)
    requires size > 1
    ensures Lex(Join([""]), Flags(strict, false), size, junk) == Words([])
  {
    FirstWithin("", size, junk);
  }

  lemma CarryNext(words: seq<string>, w: string, junk: string)
    ensures Carry(words + [w], junk) == if ReadAll(w) != "" then ReadAll(w) else Carry(words, junk)
  {
    assert (words + [w])[..|words|] == words;
  }

  /** An empty word between two others reads back as the one before it. */
  lemma EmptyWordRepeats(strict: bool, size: nat, junk: string)
    requires size > 1
    ensures
      var r := Lex(Join(["a", "", "b"]), Flags(strict, false), size, junk);
      r.Words? && Texts(r.words) == ["a", "a", "b"]
  {
    hide Run, Join, Carry, ReadAll;
    var one, two, words := [] + ["a"], ["a"] + [""], ["a", ""] + ["b"];
    assert words[..1] == one && words[..2] == two && words[..3] == words && words == ["a", "", "b"];
    ReadClean("a");
    ReadClean("b");
    ReadClean("");
    CarryNext([], "a", junk);
    CarryNext(["a"], "", junk);
    CarryNext(["a", ""], "b", junk);
    ListRun(words, size, junk);
    var l := Run(Join(words), size, junk).value;
    assert one == ["a"] && two == ["a", ""];
    assert l.words[0].text == Carry(words[..1], junk) == "a" && l.words[1].text == Carry(words[..2], junk) == "a";
    assert Texts(l.words + [Word(l.text, l.argStart, |Join(words)|)]) == ["a", "a", "b"];
  }
}
