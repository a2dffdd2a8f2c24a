/**
 The shell lexer: a state machine over the characters of a string, a token
 buffer that is only reset by the next append, and the span of every word.
 */
module ShellLex {
  import opened Prelude

  datatype Class = Space | SingleQuote | DoubleQuote | Backslash | Pound | Other

  datatype State = Start | InWord | Escaping | EscapingQuoted | InDoubleQuotes | InSingleQuotes | InComment

  /** isspace() and isprint() on ASCII. */
  predicate IsSpace(c: char) { c == ' ' || '\t' <= c <= '\r' }

  predicate IsPrint(c: char) { ' ' <= c <= '~' }

  function ClassOf(c: char): Class {
    if c == '\'' then SingleQuote
    else if c == '"' then DoubleQuote
    else if c == '\\' then Backslash
    else if c == '#' then Pound
    else if IsSpace(c) then Space
    else Other
  }

  /** A string of C: bytes, none of them null. */
  predicate CString(s: string) {
    forall c :: c in s ==> 0 as char < c < 256 as char
  }

  /** The C string at the start of a buffer. */
  function Text(buffer: seq<char>): string {
    if buffer == [] || buffer[0] == '\0' then "" else [buffer[0]] + Text(buffer[1..])
  }

  /** A word of the result, with the offsets its attributes hold. */
  datatype Word = Word(text: string, start: nat, end: nat)

  datatype Flags = Flags(strict: bool, trailsp: bool)

  datatype Lexed = Words(words: seq<Word>) | BadMessage | NoBuffer

  /**
   The variables of the lexer. `text` is the string in the token buffer: the
   first t characters when t > 0, and what was left there before when t == 0.
   */
  datatype Lexer = Lexer(
    state: State,
    t: nat,
    text: string,
    quote: char,
    argStart: nat,
    trailing: bool,
    words: seq<Word>
  )

  function Init(junk: string): Lexer { Lexer(Start, 0, junk, '\0', 0, true, []) }

  function Append(l: Lexer, state: State, c: char, size: nat): Option<Lexer> {
    if l.t + 1 >= size then None
    else Some(l.(state := state, t := l.t + 1, text := (if l.t == 0 then "" else l.text) + [c]))
  }

  /** The end of a word: its text is whatever the buffer holds. */
  function Push(l: Lexer, i: nat): Lexer {
    l.(quote := '\0', words := l.words + [Word(l.text, l.argStart, i)], state := Start,
       trailing := true, argStart := i, t := 0)
  }

  function Step(l: Lexer, c: char, i: nat, size: nat): Option<Lexer> {
    match l.state
    case Start =>
      var at := l.(trailing := ClassOf(c) == Space, argStart := i);
      (match ClassOf(c)
       case Space => Some(at)
       case Pound => Some(at.(state := InComment))
       case DoubleQuote => Some(at.(state := InDoubleQuotes, quote := c))
       case SingleQuote => Some(at.(state := InSingleQuotes, quote := c))
       case Backslash => Some(at.(state := Escaping))
       case Other => Append(at, InWord, c, size))
    case InWord =>
      (match ClassOf(c)
       case Space => Some(Push(l, i))
       case DoubleQuote => Some(l.(state := InDoubleQuotes))
       case SingleQuote => Some(l.(state := InSingleQuotes))
       case Backslash => Some(l.(state := Escaping))
       case _ => Append(l, InWord, c, size))
    case Escaping => Append(l, InWord, c, size)
    case EscapingQuoted => Append(l, InDoubleQuotes, c, size)
    case InDoubleQuotes =>
      (match ClassOf(c)
       case DoubleQuote => Some(l.(state := InWord))
       case Backslash => Some(l.(state := EscapingQuoted))
       case _ => Append(l, InDoubleQuotes, c, size))
    case InSingleQuotes =>
      if ClassOf(c) == SingleQuote then Some(l.(state := InWord)) else Append(l, InSingleQuotes, c, size)
    case InComment =>
      Some(if c == '\n' || c == '\r' then l.(state := Start) else l)
  }

  /** The lexer after a whole string, or None when the token buffer is too small. */
  function Run(s: string, size: nat, junk: string): Option<Lexer> {
    if s == "" then Some(Init(junk))
    else
      match Run(s[..|s| - 1], size, junk)
      case None => None
      case Some(l) => Step(l, s[|s| - 1], |s| - 1, size)
  }

  predicate Unfinished(state: State) { !state.Start? && !state.InWord? && !state.InComment? }

  function Finish(l: Lexer, n: nat, flags: Flags): Lexed {
    if Unfinished(l.state) && flags.strict then BadMessage
    else if (Unfinished(l.state) || l.state.InWord?) && l.t > 0 then Words(l.words + [Word(l.text, l.argStart, n)])
    else if l.trailing && flags.trailsp then Words(l.words + [Word("", l.argStart + 1, n + 1)])
    else Words(l.words)
  }

  function Lex(str: string, flags: Flags, size: nat, junk: string): Lexed {
    match Run(str, size, junk)
    case None => NoBuffer
    case Some(l) => Finish(l, |str|, flags)
  }

  function Missing(str: string, size: nat, junk: string): Option<char> {
    match Run(str, size, junk)
    case None => None
    case Some(l) => if Unfinished(l.state) then Some(l.quote) else None
  }

  // ----- the lexing loop ---------------------------------------------------------------------

  lemma {:induction false} TextOf(buffer: seq<char>, t: nat)
    requires t < |buffer| && buffer[t] == '\0'
    requires forall k :: 0 <= k < t ==> buffer[k] != '\0'
    ensures Text(buffer) == buffer[..t]
  {
    if t > 0 {
      assert buffer[1..][..t - 1] == buffer[1..t];
      TextOf(buffer[1..], t - 1);
    }
  }

  /** The text of the buffer when t characters were appended, and before that. */
  ghost predicate Holds(buffer: seq<char>, t: nat, text: string) {
    && Text(buffer) == text
    && (t > 0 ==>
          && t < |buffer|
          && buffer[..t] == text
          && forall k :: 0 <= k < t ==> buffer[k] != '\0')
  }

  method AppendChar(token: array<char>, t: nat, c: char, ghost text: string) returns (ok: bool, next: nat)
    requires Holds(token[..], t, text) && c != '\0'
    modifies token
    ensures ok == (t + 1 < token.Length)
    ensures ok ==> next == t + 1 && Holds(token[..], next, (if t == 0 then "" else text) + [c])
  {
    ok, next := t + 1 < token.Length, t;
    if ok {
      token[t] := c;
      next := t + 1;
      token[next] := '\0';
      assert token[..][..t] == old(token[..])[..t];
      TextOf(token[..], next);
      assert token[..][..next] == token[..][..t] + [c];
    }
  }

  method LexStr(str: string, flags: Flags, token: array<char>) returns (r: Lexed, missing: Option<char>)
    requires CString(str) && token.Length > 0
    modifies token
    ensures r == Lex(str, flags, token.Length, Text(old(token[..])))
    ensures missing == Missing(str, token.Length, Text(old(token[..])))
  {
    hide Text, Holds, Finish, CString, Step;
    ghost var junk := Text(token[..]);
    var state, t: nat, quote, argStart: nat, trailing := Start, 0, '\0', 0, true;
    var words: seq<Word> := [];
    ghost var l := Init(junk);
    HoldsJunk(token[..]);
    var i := 0;
    while i < |str|
      invariant 0 <= i <= |str|
      invariant Run(str[..i], token.Length, junk) == Some(l)
      invariant Holds(token[..], t, l.text)
      invariant l == Lexer(state, t, l.text, quote, argStart, trailing, words)
    {
      RunStep(str, i, token.Length, junk);
      NotNull(str, i);
      ghost var next := Step(l, str[i], i, token.Length);
      var ok;
      ok, state, t, quote, argStart, trailing, words :=
        LexChar(str[i], i, state, t, quote, argStart, trailing, words, token, l);
      if !ok {
        RunNone(str[..i + 1], str, token.Length, junk);
        return NoBuffer, None;
      }
      l := next.value;
      i := i + 1;
    }
    assert str[..i] == str;
    r, missing := LexEnd(state, t, quote, argStart, trailing, words, |str|, flags, token, l);
  }

  /** The body of the loop, for one character. */
  method LexChar(c: char, i: nat, state0: State, t0: nat, quote0: char, argStart0: nat, trailing0: bool,
                 words0: seq<Word>, token: array<char>, ghost l: Lexer)
    returns (ok: bool, state: State, t: nat, quote: char, argStart: nat, trailing: bool, words: seq<Word>)
    requires l == Lexer(state0, t0, l.text, quote0, argStart0, trailing0, words0)
    requires Holds(token[..], t0, l.text) && c != '\0'
    modifies token
    ensures ok == Step(l, c, i, token.Length).Some?
    ensures ok ==>
      var text := Step(l, c, i, token.Length).value.text;
      && Step(l, c, i, token.Length).value == Lexer(state, t, text, quote, argStart, trailing, words)
      && Holds(token[..], t, text)
  {
    hide Text, Holds, ClassOf;
    state, t, quote, argStart, trailing, words := state0, t0, quote0, argStart0, trailing0, words0;
    ok := true;
    var cls := ClassOf(c);
    match state {
      case Start =>
        match cls {
          case Space =>
          case Pound => state := InComment;
          case DoubleQuote => state, quote := InDoubleQuotes, c;
          case SingleQuote => state, quote := InSingleQuotes, c;
          case Backslash => state := Escaping;
          case Other =>
            state := InWord;
            ok, t := AppendChar(token, t, c, l.text);
        }
        trailing, argStart := cls == Space, i;
      case InWord =>
        match cls {
          case Space =>
            quote := '\0';
            var text := ReadToken(token, t, l.text);
            words := words + [Word(text, argStart, i)];
            HoldsStale(token[..], t, l.text);
            state, trailing, argStart, t := Start, true, i, 0;
          case DoubleQuote => state := InDoubleQuotes;
          case SingleQuote => state := InSingleQuotes;
          case Backslash => state := Escaping;
          case _ => ok, t := AppendChar(token, t, c, l.text);
        }
      case Escaping =>
        state := InWord;
        ok, t := AppendChar(token, t, c, l.text);
      case EscapingQuoted =>
        state := InDoubleQuotes;
        ok, t := AppendChar(token, t, c, l.text);
      case InDoubleQuotes =>
        match cls {
          case DoubleQuote => state := InWord;
          case Backslash => state := EscapingQuoted;
          case _ => ok, t := AppendChar(token, t, c, l.text);
        }
      case InSingleQuotes =>
        if cls == SingleQuote {
          state := InWord;
        } else {
          ok, t := AppendChar(token, t, c, l.text);
        }
      case InComment =>
        if c == '\n' || c == '\r' {
          state := Start;
        }
    }
  }

  /** Closing the last word, at the end of the string. */
  method LexEnd(last: State, t: nat, quote: char, argStart: nat, trailing: bool, found: seq<Word>,
                n: nat, flags: Flags, token: array<char>, ghost l: Lexer)
    returns (r: Lexed, missing: Option<char>)
    requires l == Lexer(last, t, l.text, quote, argStart, trailing, found)
    requires Holds(token[..], t, l.text)
    ensures r == Finish(l, n, flags)
    ensures missing == if Unfinished(l.state) then Some(l.quote) else None
  {
    var state, words := last, found;
    missing := None;
    if !state.Start? && !state.InWord? && !state.InComment? {
      missing := Some(quote);
      if flags.strict {
        return BadMessage, missing;
      }
      state := InWord;
    }
    if state.InWord? && t > 0 {
      var text := ReadToken(token, t, l.text);
      words := words + [Word(text, argStart, n)];
    } else if trailing && flags.trailsp {
      words := words + [Word("", argStart + 1, n + 1)];
    }
    r := Words(words);
  }

  lemma NotNull(s: string, i: nat)
    requires CString(s) && i < |s|
    ensures s[i] != '\0'
  {
    assert s[i] in s;
  }

  /** Copying the token out of the buffer, up to its terminator. */
  method ReadToken(token: array<char>, ghost t: nat, ghost want: string) returns (text: string)
    requires Holds(token[..], t, want)
    ensures text == want
  {
    var n := 0;
    while n < token.Length && token[n] != '\0'
      invariant 0 <= n <= token.Length
      invariant want == token[..n] + Text(token[n..])
    {
      assert token[n..][1..] == token[n + 1..];
      n := n + 1;
    }
    text := token[..n];
  }

  lemma HoldsJunk(buffer: seq<char>)
    ensures Holds(buffer, 0, Text(buffer))
  {
  }

  lemma HoldsStale(buffer: seq<char>, t: nat, text: string)
    requires Holds(buffer, t, text)
    ensures Holds(buffer, 0, text)
  {
  }

  lemma RunStep(s: string, i: nat, size: nat, junk: string)
    requires i < |s|
    ensures
      Run(s[..i + 1], size, junk) ==
      match Run(s[..i], size, junk)
      case None => None
      case Some(l) => Step(l, s[i], i, size)
  {
    assert s[..i + 1][..i] == s[..i];
  }

  /** A lexer that has failed stays so. */
  lemma {:induction false} RunNone(a: string, s: string, size: nat, junk: string)
    requires a <= s && Run(a, size, junk).None?
    ensures Run(s, size, junk).None?
    decreases |s|
  {
    if |a| < |s| {
      RunNone(a, s[..|s| - 1], size, junk);
    } else {
      assert a == s;
    }
  }

  // ----- when the buffer is too small ------------------------------------------------------------

  lemma StepEnough(l: Lexer, c: char, i: nat, size: nat)
    requires l.t <= i && i + 1 < size
    ensures Step(l, c, i, size).Some? && Step(l, c, i, size).value.t <= i + 1
  {
  }

  /** A buffer longer than the string is always large enough. */
  lemma {:induction false} RunEnough(s: string, size: nat, junk: string)
    requires |s| < size
    ensures Run(s, size, junk).Some? && Run(s, size, junk).value.t <= |s|
    decreases |s|
  {
    hide Step;
    if s != "" {
      var front := s[..|s| - 1];
      RunEnough(front, size, junk);
      StepEnough(Run(front, size, junk).value, s[|s| - 1], |s| - 1, size);
    }
  }

  lemma StepSmaller(l: Lexer, c: char, i: nat, size: nat, large: nat)
    requires size <= large && Step(l, c, i, large).Some? && l.t < size
    ensures
      if Step(l, c, i, size).Some? then Step(l, c, i, size) == Step(l, c, i, large)
      else Step(l, c, i, large).value.t >= size
    ensures Step(l, c, i, size).Some? ==> Step(l, c, i, size).value.t < size
  {
  }

  /** Some word, as read into a buffer that is large enough, has at least this many characters so far. */
  ghost predicate Reaches(s: string, size: nat, large: nat, junk: string) {
    exists i :: 0 <= i <= |s| && Run(s[..i], large, junk).Some? && Run(s[..i], large, junk).value.t >= size
  }

  lemma ReachesAt(s: string, i: nat, size: nat, large: nat, junk: string)
    requires i <= |s| && Run(s[..i], large, junk).Some? && Run(s[..i], large, junk).value.t >= size
    ensures Reaches(s, size, large, junk)
  {
  }

  /** Reaching a length is remembered, and can only happen for the first time at the end. */
  lemma ReachesNext(s: string, size: nat, large: nat, junk: string)
    requires s != ""
    ensures
      Reaches(s, size, large, junk)
      <==> Reaches(s[..|s| - 1], size, large, junk)
           || (Run(s, large, junk).Some? && Run(s, large, junk).value.t >= size)
  {
    hide Run;
    var front := s[..|s| - 1];
    assert s[..|s|] == s;
    if i :| 0 <= i <= |front| && Run(front[..i], large, junk).Some? && Run(front[..i], large, junk).value.t >= size {
      assert front[..i] == s[..i];
      ReachesAt(s, i, size, large, junk);
    }
    if i :| 0 <= i <= |s| && Run(s[..i], large, junk).Some? && Run(s[..i], large, junk).value.t >= size {
      if i < |s| {
        assert front[..i] == s[..i];
      }
    }
  }

  /**
   A string fails for want of buffer exactly when one of its words has as many
   characters as the buffer; otherwise it is read as with any larger buffer.
   */
  lemma {:induction false} FailsOnLongWord(s: string, size: nat, large: nat, junk: string)
    requires 0 < size <= large && |s| < large
    ensures Run(s, size, junk).None? <==> Reaches(s, size, large, junk)
    ensures Run(s, size, junk).Some? ==> Run(s, size, junk) == Run(s, large, junk) && Run(s, size, junk).value.t < size
    decreases |s|
  {
    hide Step, Reaches;
    RunEnough(s, large, junk);
    if s == "" {
      NothingReached(size, large, junk);
    } else {
      var front := s[..|s| - 1];
      RunEnough(front, large, junk);
      ReachesNext(s, size, large, junk);
      FailsOnLongWord(front, size, large, junk);
      var l := Run(front, large, junk).value;
      if Run(front, size, junk).Some? {
        StepSmaller(l, s[|s| - 1], |s| - 1, size, large);
      }
    }
  }

  lemma NothingReached(size: nat, large: nat, junk: string)
    requires size > 0
    ensures !Reaches("", size, large, junk)
  {
  }
}
