/**
 What the words of the shell lexer are, told from their spans: the pieces that a
 word is spelled with, and where comments end.
 */
module ShellSpelling {
  import opened Prelude
  import opened ShellLex
  import opened ShellSpans

  // ----- the spelling of a word -------------------------------------------------------------------------

  /** A character between double quotes, as it is or after a backslash. */
  datatype Quoted = Raw(c: char) | Slashed(c: char)

  datatype Piece =
    | Bare(c: char)               // an ordinary character
    | Escaped(c: char)            // any character after a backslash
    | Double(inside: seq<Quoted>) // between double quotes
    | Single(text: string)        // between single quotes, where nothing is special

  /** What is left open at the end of a string. */
  datatype Tail = Closed | OpenSlash | OpenDouble(inside: seq<Quoted>, slash: bool) | OpenSingle(text: string)

  function ShowInside(qs: seq<Quoted>): string {
    if qs == [] then ""
    else
      var q := qs[|qs| - 1];
      ShowInside(qs[..|qs| - 1]) + if q.Raw? then [q.c] else ['\\', q.c]
  }

  function ReadInside(qs: seq<Quoted>): string {
    if qs == [] then "" else ReadInside(qs[..|qs| - 1]) + [qs[|qs| - 1].c]
  }

  function Show(p: Piece): string {
    match p
    case Bare(c) => [c]
    case Escaped(c) => ['\\', c]
    case Double(qs) => "\"" + ShowInside(qs) + "\""
    case Single(t) => "'" + t + "'"
  }

  function Read(p: Piece): string {
    match p
    case Bare(c) => [c]
    case Escaped(c) => [c]
    case Double(qs) => ReadInside(qs)
    case Single(t) => t
  }

  function ShowAll(ps: seq<Piece>): string {
    if ps == [] then "" else ShowAll(ps[..|ps| - 1]) + Show(ps[|ps| - 1])
  }

  function ReadAll(ps: seq<Piece>): string {
    if ps == [] then "" else ReadAll(ps[..|ps| - 1]) + Read(ps[|ps| - 1])
  }

  function ShowTail(t: Tail): string {
    match t
    case Closed => ""
    case OpenSlash => "\\"
    case OpenDouble(qs, slash) => "\"" + ShowInside(qs) + if slash then "\\" else ""
    case OpenSingle(t) => "'" + t
  }

  function ReadTail(t: Tail): string {
    match t
    case OpenDouble(qs, _) => ReadInside(qs)
    case OpenSingle(t) => t
    case _ => ""
  }

  predicate InsideOk(qs: seq<Quoted>) {
    forall k :: 0 <= k < |qs| ==> qs[k].Raw? ==> qs[k].c != '"' && qs[k].c != '\\'
  }

  predicate PieceOk(p: Piece) {
    match p
    case Bare(c) => !IsSpace(c) && c != '"' && c != '\'' && c != '\\'
    case Escaped(_) => true
    case Double(qs) => InsideOk(qs)
    case Single(t) => '\'' !in t
  }

  predicate TailOk(t: Tail) {
    match t
    case OpenDouble(qs, _) => InsideOk(qs)
    case OpenSingle(t) => '\'' !in t
    case _ => true
  }

  /** A word does not begin with a bare pound sign. */
  predicate WordOk(ps: seq<Piece>, t: Tail) {
    && TailOk(t) && (forall k :: 0 <= k < |ps| ==> PieceOk(ps[k]))
    && (ps == [] ==> t != Closed) && (ps != [] ==> ps[0] != Bare('#'))
  }

  /** The span is spelled with these pieces, and reads as this text. */
  predicate SpelledWith(span: string, text: string, ps: seq<Piece>, t: Tail) {
    WordOk(ps, t) && span == ShowAll(ps) + ShowTail(t) && text == ReadAll(ps) + ReadTail(t)
  }

  ghost predicate Spelled(span: string, text: string, closed: bool) {
    exists ps, t :: SpelledWith(span, text, ps, t) && (closed <==> t == Closed)
  }

  // ----- the lexer in the middle of a word -----------------------------------------------------------------

  /** The state of the lexer tells what is open. */
  predicate TailOf(state: State, t: Tail) {
    match state
    case InWord => t == Closed
    case Escaping => t == OpenSlash
    case EscapingQuoted => t.OpenDouble? && t.slash
    case InDoubleQuotes => t.OpenDouble? && !t.slash
    case InSingleQuotes => t.OpenSingle?
    case _ => false
  }

  /** The text appended so far. */
  function Appended(l: Lexer): string { if l.t == 0 then "" else l.text }

  ghost predicate Reading(l: Lexer, span: string) {
    exists ps, t :: SpelledWith(span, Appended(l), ps, t) && TailOf(l.state, t)
  }

  lemma {:induction false} ShowMore(ps: seq<Piece>, p: Piece)
    ensures ShowAll(ps + [p]) == ShowAll(ps) + Show(p) && ReadAll(ps + [p]) == ReadAll(ps) + Read(p)
  {
    assert (ps + [p])[..|ps|] == ps;
  }

  lemma {:induction false} InsideMore(qs: seq<Quoted>, q: Quoted)
    ensures ShowInside(qs + [q]) == ShowInside(qs) + if q.Raw? then [q.c] else ['\\', q.c]
    ensures ReadInside(qs + [q]) == ReadInside(qs) + [q.c]
  {
    assert (qs + [q])[..|qs|] == qs;
  }

  lemma TailNothing()
    ensures TailOk(Closed) && ShowTail(Closed) == "" && ReadTail(Closed) == ""
  {
  }

  /** One more piece, that is closed. */
  lemma {:induction false} AddPiece(span: string, text: string, ps: seq<Piece>, t: Tail, p: Piece, more: string,
                                    read: string)
    requires SpelledWith(span, text, ps, t) && PieceOk(p) && (ps == [] ==> p != Bare('#'))
    requires ShowTail(t) + more == Show(p) && ReadTail(t) + read == Read(p)
    ensures SpelledWith(span + more, text + read, ps + [p], Closed)
  {
    TailNothing();
    ShowMore(ps, p);
    hide ShowAll, ReadAll, ShowTail, ReadTail, Show, Read, PieceOk, TailOk;
    assert span + more == ShowAll(ps) + (ShowTail(t) + more);
    assert text + read == ReadAll(ps) + (ReadTail(t) + read);
    assert ShowAll(ps + [p]) + "" == ShowAll(ps + [p]) && ReadAll(ps + [p]) + "" == ReadAll(ps + [p]);
  }

  /** Another tail after the same pieces. */
  lemma {:induction false} MoveTail(span: string, text: string, ps: seq<Piece>, t: Tail, u: Tail, more: string,
                                    read: string)
    requires SpelledWith(span, text, ps, t) && TailOk(u) && u != Closed
    requires ShowTail(t) + more == ShowTail(u) && ReadTail(t) + read == ReadTail(u)
    ensures SpelledWith(span + more, text + read, ps, u)
  {
    hide ShowAll, ReadAll, ShowTail, ReadTail, PieceOk, TailOk;
    assert span + more == ShowAll(ps) + (ShowTail(t) + more);
    assert text + read == ReadAll(ps) + (ReadTail(t) + read);
  }

  /** One more character inside quotes. */
  lemma {:induction false} AddInside(span: string, text: string, ps: seq<Piece>, qs: seq<Quoted>, slash: bool, c: char)
    requires SpelledWith(span, text, ps, OpenDouble(qs, slash)) && (!slash ==> c != '"' && c != '\\')
    ensures
      SpelledWith(span + [c], text + [c], ps, OpenDouble(qs + [if slash then Slashed(c) else Raw(c)], false))
  {
    var q := if slash then Slashed(c) else Raw(c);
    InsideMore(qs, q);
    hide ShowAll, ReadAll, ShowInside, ReadInside;
    assert ['\\', c] == "\\" + [c];
    assert ShowTail(OpenDouble(qs, slash)) + [c] == ShowTail(OpenDouble(qs + [q], false));
    MoveTail(span, text, ps, OpenDouble(qs, slash), OpenDouble(qs + [q], false), [c], [c]);
  }

  /** The quote that closes. */
  lemma {:induction false} CloseDouble(span: string, text: string, ps: seq<Piece>, qs: seq<Quoted>)
    requires SpelledWith(span, text, ps, OpenDouble(qs, false))
    ensures SpelledWith(span + ['"'], text, ps + [Double(qs)], Closed)
  {
    hide ShowAll, ReadAll, ShowInside, ReadInside;
    assert text + "" == text && ReadInside(qs) + "" == ReadInside(qs) && "\"" == ['"'];
    AddPiece(span, text, ps, OpenDouble(qs, false), Double(qs), ['"'], "");
  }

  lemma {:induction false} CloseSingle(span: string, text: string, ps: seq<Piece>, t: string)
    requires SpelledWith(span, text, ps, OpenSingle(t))
    ensures SpelledWith(span + ['\''], text, ps + [Single(t)], Closed)
  {
    hide ShowAll, ReadAll;
    assert text + "" == text && t + "" == t && "'" == ['\''];
    AddPiece(span, text, ps, OpenSingle(t), Single(t), ['\''], "");
  }

  /** A backslash between double quotes. */
  lemma {:induction false} SlashDouble(span: string, text: string, ps: seq<Piece>, qs: seq<Quoted>)
    requires SpelledWith(span, text, ps, OpenDouble(qs, false))
    ensures SpelledWith(span + ['\\'], text, ps, OpenDouble(qs, true))
  {
    hide ShowAll, ReadAll, ShowInside, ReadInside;
    assert text + "" == text && ReadInside(qs) + "" == ReadInside(qs) && "\\" == ['\\'];
    assert "\"" + ShowInside(qs) + "" + "\\" == "\"" + ShowInside(qs) + "\\";
    MoveTail(span, text, ps, OpenDouble(qs, false), OpenDouble(qs, true), ['\\'], "");
  }

  lemma {:induction false} MoreSingle(span: string, text: string, ps: seq<Piece>, t: string, c: char)
    requires SpelledWith(span, text, ps, OpenSingle(t)) && c != '\''
    ensures SpelledWith(span + [c], text + [c], ps, OpenSingle(t + [c]))
  {
    hide ShowAll, ReadAll;
    assert "'" + t + [c] == "'" + (t + [c]);
    MoveTail(span, text, ps, OpenSingle(t), OpenSingle(t + [c]), [c], [c]);
  }

  /** After closed pieces a quote or a backslash opens one, and any other character but a blank is bare. */
  lemma {:induction false} OpenNext(span: string, text: string, ps: seq<Piece>, c: char)
    requires SpelledWith(span, text, ps, Closed)
    ensures c == '"' ==> SpelledWith(span + [c], text, ps, OpenDouble([], false))
    ensures c == '\'' ==> SpelledWith(span + [c], text, ps, OpenSingle(""))
    ensures c == '\\' ==> SpelledWith(span + [c], text, ps, OpenSlash)
    ensures PieceOk(Bare(c)) ==> SpelledWith(span + [c], text + [c], ps + [Bare(c)], Closed)
  {
    TailIsOk(span, text, ps, Closed);
    assert ShowInside([]) == "" && ReadInside([]) == "";
    hide ShowAll, ReadAll, ShowInside, ReadInside, SpelledWith;
    assert text + "" == text && "" + [c] == [c];
    if c == '"' {
      MoveTail(span, text, ps, Closed, OpenDouble([], false), [c], "");
    } else if c == '\'' {
      MoveTail(span, text, ps, Closed, OpenSingle(""), [c], "");
    } else if c == '\\' {
      MoveTail(span, text, ps, Closed, OpenSlash, [c], "");
    } else if PieceOk(Bare(c)) {
      AddPiece(span, text, ps, Closed, Bare(c), [c], [c]);
    }
  }

  lemma {:induction false} CloseEscape(span: string, text: string, ps: seq<Piece>, c: char)
    requires SpelledWith(span, text, ps, OpenSlash)
    ensures SpelledWith(span + [c], text + [c], ps + [Escaped(c)], Closed)
  {
    hide ShowAll, ReadAll, SpelledWith;
    assert "" + [c] == [c] && "\\" + [c] == ['\\', c];
    AddPiece(span, text, ps, OpenSlash, Escaped(c), [c], [c]);
  }

  lemma {:induction false} ReadingIs(l: Lexer, span: string, ps: seq<Piece>, t: Tail)
    requires SpelledWith(span, Appended(l), ps, t) && TailOf(l.state, t)
    ensures Reading(l, span)
  {
  }

  lemma {:induction false} TailIsOk(span: string, text: string, ps: seq<Piece>, t: Tail)
    requires SpelledWith(span, text, ps, t)
    ensures TailOk(t) && (ps == [] ==> t != Closed)
  {
  }

  /** A character in a word: the span grows by it, and the text by what it reads as. */
  lemma {:induction false} ReadingStep(l: Lexer, c: char, i: nat, size: nat, span: string)
    requires Reading(l, span) && Step(l, c, i, size).Some? && Open(Step(l, c, i, size).value.state)
    ensures Reading(Step(l, c, i, size).value, span + [c])
  {
    hide SpelledWith;
    var m := Step(l, c, i, size).value;
    var text := Appended(l);
    var ps, t :| SpelledWith(span, text, ps, t) && TailOf(l.state, t);
    hide Reading;
    match l.state
    case InWord =>
      OpenNext(span, text, ps, c);
      if c == '"' {
        ReadingIs(m, span + [c], ps, OpenDouble([], false));
      } else if c == '\'' {
        ReadingIs(m, span + [c], ps, OpenSingle(""));
      } else if c == '\\' {
        ReadingIs(m, span + [c], ps, OpenSlash);
      } else {
        ReadingIs(m, span + [c], ps + [Bare(c)], Closed);
      }
    case Escaping =>
      CloseEscape(span, text, ps, c);
      ReadingIs(m, span + [c], ps + [Escaped(c)], Closed);
    case InSingleQuotes =>
      if c == '\'' {
        CloseSingle(span, text, ps, t.text);
        ReadingIs(m, span + [c], ps + [Single(t.text)], Closed);
      } else {
        MoreSingle(span, text, ps, t.text, c);
        ReadingIs(m, span + [c], ps, OpenSingle(t.text + [c]));
      }
    case _ => ReadingDouble(l, c, i, size, span, ps, t);
  }

  /** Between double quotes. */
  lemma {:induction false} ReadingDouble(l: Lexer, c: char, i: nat, size: nat, span: string, ps: seq<Piece>, t: Tail)
    requires l.state.InDoubleQuotes? || l.state.EscapingQuoted?
    requires SpelledWith(span, Appended(l), ps, t) && TailOf(l.state, t) && Step(l, c, i, size).Some?
    ensures Reading(Step(l, c, i, size).value, span + [c])
  {
    hide SpelledWith, Reading;
    var m, text, qs := Step(l, c, i, size).value, Appended(l), t.inside;
    if l.state.EscapingQuoted? {
      AddInside(span, text, ps, qs, true, c);
      ReadingIs(m, span + [c], ps, OpenDouble(qs + [Slashed(c)], false));
    } else if c == '"' {
      CloseDouble(span, text, ps, qs);
      ReadingIs(m, span + [c], ps + [Double(qs)], Closed);
    } else if c == '\\' {
      SlashDouble(span, text, ps, qs);
      ReadingIs(m, span + [c], ps, OpenDouble(qs, true));
    } else {
      AddInside(span, text, ps, qs, false, c);
      ReadingIs(m, span + [c], ps, OpenDouble(qs + [Raw(c)], false));
    }
  }

  /** The first character of a word. */
  lemma {:induction false} ReadingStart(l: Lexer, c: char, i: nat, size: nat)
    requires l.state.Start? && l.t == 0 && Step(l, c, i, size).Some? && Open(Step(l, c, i, size).value.state)
    ensures Reading(Step(l, c, i, size).value, [c])
  {
    var m := Step(l, c, i, size).value;
    assert ShowInside([]) == "" && ReadInside([]) == "" && ShowAll([]) == "" && ReadAll([]) == "";
    if c == '"' {
      ReadingIs(m, [c], [], OpenDouble([], false));
    } else if c == '\'' {
      ReadingIs(m, [c], [], OpenSingle(""));
    } else if c == '\\' {
      ReadingIs(m, [c], [], OpenSlash);
    } else {
      ShowMore([], Bare(c));
      assert [] + [Bare(c)] == [Bare(c)];
      ReadingIs(m, [c], [Bare(c)], Closed);
    }
  }

  // ----- the words that are returned ------------------------------------------------------------------------

  /** Inside a word, what was read of it is spelled as the state says. */
  lemma {:induction false} RunReading(s: string, size: nat, junk: string)
    requires Run(s, size, junk).Some? && Open(Run(s, size, junk).value.state)
    ensures var l := Run(s, size, junk).value; l.argStart < |s| && Reading(l, s[l.argStart..])
    decreases |s|
  {
    hide Run, Step, InOrder, Reading;
    NoWordsYet(size, junk);
    var s', c, i := s[..|s| - 1], s[|s| - 1], |s| - 1;
    RunLast(s, size, junk);
    RunInOrder(s', size, junk);
    var l, m := Run(s', size, junk).value, Run(s, size, junk).value;
    if Open(l.state) {
      RunReading(s', size, junk);
      NextAlone(l, c, i, 0, size, junk);
      ReadingStep(l, c, i, size, s'[l.argStart..]);
      assert s[l.argStart..] == s'[l.argStart..] + [c];
    } else if l.state.Start? {
      ClosedLexer(l, |s'|);
      FirstAlone(l, c, i, size, junk);
      ReadingStart(l, c, i, size);
      assert s[i..] == [c];
    } else {
      CommentStays(l, c, i, size);
    }
  }

  /** The text of the last word before, or what the buffer held at first. */
  function LastText(words: seq<Word>, junk: string): string {
    if words == [] then junk else words[|words| - 1].text
  }

  lemma StaleStep(l: Lexer, c: char, i: nat, size: nat, junk: string)
    requires Step(l, c, i, size).Some? && (l.t == 0 ==> l.text == LastText(l.words, junk))
    ensures var m := Step(l, c, i, size).value; m.t == 0 ==> m.text == LastText(m.words, junk)
  {
  }

  lemma {:induction false} RunStale(s: string, size: nat, junk: string)
    requires Run(s, size, junk).Some?
    ensures var l := Run(s, size, junk).value; l.t == 0 ==> l.text == LastText(l.words, junk)
    decreases |s|
  {
    hide Run, Step;
    NoWordsYet(size, junk);
    if s != "" {
      RunLast(s, size, junk);
      RunStale(s[..|s| - 1], size, junk);
      StaleStep(Run(s[..|s| - 1], size, junk).value, s[|s| - 1], |s| - 1, size, junk);
    }
  }

  /** What a span spells, or the word before again when that is nothing. */
  ghost predicate Says(span: string, text: string, before: string, closed: bool) {
    exists read :: Spelled(span, read, closed) && text == if read == "" then before else read
  }

  lemma ReadingSays(l: Lexer, span: string, before: string)
    requires Reading(l, span) && (l.t == 0 ==> l.text == before) && (l.t > 0 ==> l.text != "")
    ensures Says(span, l.text, before, l.state.InWord?)
  {
    var ps, t :| SpelledWith(span, Appended(l), ps, t) && TailOf(l.state, t);
    assert Spelled(span, Appended(l), l.state.InWord?);
  }

  lemma TextStep(l: Lexer, c: char, i: nat, size: nat)
    requires Step(l, c, i, size).Some? && (l.t > 0 ==> l.text != "")
    ensures var m := Step(l, c, i, size).value; m.t > 0 ==> m.text != ""
  {
  }

  lemma {:induction false} RunText(s: string, size: nat, junk: string)
    requires Run(s, size, junk).Some?
    ensures var l := Run(s, size, junk).value; l.t > 0 ==> l.text != ""
    decreases |s|
  {
    hide Run, Step;
    NoWordsYet(size, junk);
    if s != "" {
      RunLast(s, size, junk);
      RunText(s[..|s| - 1], size, junk);
      TextStep(Run(s[..|s| - 1], size, junk).value, s[|s| - 1], |s| - 1, size);
    }
  }

  /**
   The span of a word spells its text, and is followed by a blank or the end of
   the string; only the last word can be left open, and not in strict mode.
   */
  lemma WordSpelled(str: string, flags: Flags, size: nat, junk: string, k: nat)
    requires Lex(str, flags, size, junk).Words? && k < |Lex(str, flags, size, junk).words|
    requires Lex(str, flags, size, junk).words[k].start < |str|
    ensures
      var words := Lex(str, flags, size, junk).words;
      var w := words[k];
      && w.start < w.end <= |str| && (w.end < |str| ==> IsSpace(str[w.end]))
      && exists closed ::
           && Says(str[w.start..w.end], w.text, LastText(words[..k], junk), closed)
           && (!closed ==> w.end == |str| && !flags.strict)
  {
    hide Step, InOrder, Run, Says;
    var l := Run(str, size, junk).value;
    var words := Lex(str, flags, size, junk).words;
    var w := words[k];
    assert words[..|l.words|] == l.words;
    if k < |l.words| {
      PushedAt(str, size, junk, k);
      PushedSpelled(str, size, junk, k);
      assert l.words[..k] == words[..k];
    } else {
      RunInOrder(str, size, junk);
      LastSpan(l, |str|, flags);
      RunInOrderBound(l, |str|);
      RunReading(str, size, junk);
      RunStale(str, size, junk);
      RunText(str, size, junk);
      ReadingSays(l, str[l.argStart..], LastText(l.words, junk));
      assert str[l.argStart..|str|] == str[l.argStart..];
    }
  }

  lemma RunInOrderBound(l: Lexer, n: nat)
    requires InOrder(l, n) && Open(l.state)
    ensures l.argStart < n
  {
  }

  lemma PushedSpelled(str: string, size: nat, junk: string, k: nat)
    requires Run(str, size, junk).Some? && k < |Run(str, size, junk).value.words|
    ensures
      var words := Run(str, size, junk).value.words;
      var w := words[k];
      && w.start < w.end < |str| && IsSpace(str[w.end])
      && Says(str[w.start..w.end], w.text, LastText(words[..k], junk), true)
  {
    hide Step, InOrder, Run, Says;
    PushedAt(str, size, junk, k);
    var w := Run(str, size, junk).value.words[k];
    var front := str[..w.end];
    var p := Run(front, size, junk).value;
    RunInOrder(front, size, junk);
    RunInOrderBound(p, |front|);
    RunReading(front, size, junk);
    RunStale(front, size, junk);
    RunText(front, size, junk);
    ReadingSays(p, front[p.argStart..], LastText(p.words, junk));
    assert front[w.start..] == str[w.start..w.end];
    PushedBySpace(str, size, junk, k);
  }

  /** A word was pushed at the blank that follows it. */
  lemma {:induction false} PushedBySpace(s: string, size: nat, junk: string, k: nat)
    requires Run(s, size, junk).Some? && k < |Run(s, size, junk).value.words|
    ensures var w := Run(s, size, junk).value.words[k]; w.end < |s| && IsSpace(s[w.end])
    decreases |s|
  {
    hide Run, Step;
    NoWordsYet(size, junk);
    var s' := s[..|s| - 1];
    RunLast(s, size, junk);
    var l := Run(s', size, junk).value;
    StepWords(l, s[|s| - 1], |s| - 1, size);
    if k < |l.words| {
      PushedBySpace(s', size, junk, k);
    }
  }

  /** In strict mode a string is refused when its last word is left open, and otherwise that is closed. */
  lemma StrictRefuses(str: string, trailsp: bool, size: nat, junk: string)
    requires Run(str, size, junk).Some?
    ensures
      var l := Run(str, size, junk).value;
      && (Lex(str, Flags(true, trailsp), size, junk).BadMessage? ==>
            l.argStart < |str| && Spelled(str[l.argStart..], Appended(l), false))
      && (Lex(str, Flags(true, trailsp), size, junk).Words? && Open(l.state) ==>
            l.argStart < |str| && Spelled(str[l.argStart..], Appended(l), true))
  {
    hide Step, Run, SpelledWith;
    var l := Run(str, size, junk).value;
    if Open(l.state) {
      RunReading(str, size, junk);
      var ps, t :| SpelledWith(str[l.argStart..], Appended(l), ps, t) && TailOf(l.state, t);
      assert t == Closed <==> l.state.InWord?;
    }
  }
}
