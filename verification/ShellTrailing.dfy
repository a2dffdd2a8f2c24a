/** When the shell lexer adds the empty word for trailing blanks, told from the string and the spans. */
module ShellTrailing {
  import opened Prelude
  import opened ShellLex
  import opened ShellSpans
  import opened ShellComments

  /** In a comment, or the end of its line. */
  ghost predicate Commented(words: seq<Word>, s: string, k: nat)
    requires k <= |s|
  {
    exists j :: 0 <= j < k && s[j] == '#' && !Covered(words, j) && OneLine(s, j, k)
  }

  /** The string ends with a blank that is neither in a word nor of a comment. */
  ghost predicate EndsBlank(words: seq<Word>, s: string) {
    && s != "" && IsSpace(s[|s| - 1]) && !Covered(words, |s| - 1) && !Commented(words, s, |s| - 1)
  }

  /** The last word is one past the end of the string. */
  predicate HasTrailing(words: seq<Word>, s: string) { words != [] && words[|words| - 1].end > |s| }

  /** What the last character makes of the lexer. */
  lemma LastChar(l: Lexer, c: char, i: nat, size: nat)
    requires (l.state.Start? || !l.trailing) && Step(l, c, i, size).Some?
    ensures
      var m := Step(l, c, i, size).value;
      && (m.trailing <==> m.state.Start? && IsSpace(c) && !l.state.InComment?)
      && (IsSpace(c) && !m.trailing ==> l.state.InComment? || (Open(m.state) && m.t > 0))
  {
  }

  /** Within a comment there is the sign that began it, on the same line. */
  lemma {:induction false} CommentBegan(s: string, size: nat, junk: string)
    requires Run(s, size, junk).Some? && Run(s, size, junk).value.state.InComment?
    ensures exists j :: 0 <= j < |s| && s[j] == '#' && !Within(Run(s, size, junk).value, j) && OneLine(s, j, |s|)
    decreases |s|
  {
    hide Run, Step, InOrder, Within;
    NoWordsYet(size, junk);
    var front, c, i := s[..|s| - 1], s[|s| - 1], |s| - 1;
    RunLast(s, size, junk);
    RunInOrder(front, size, junk);
    RunInOrder(s, size, junk);
    var l, m := Run(front, size, junk).value, Run(s, size, junk).value;
    WithinLast(l, c, i, size);
    IntoComment(l, c, i, size);
    if l.state.InComment? {
      CommentBegan(front, size, junk);
      var j :| 0 <= j < |front| && front[j] == '#' && !Within(l, j) && OneLine(front, j, |front|);
      WithinStep(l, c, i, size, j);
      assert s[j] == '#' && OneLine(s, j, |s|) by {
        forall k | j <= k < |s|
          ensures !NewLine(s[k])
        {
          assert k < i ==> s[k] == front[k];
        }
      }
    } else {
      assert s[i] == '#' && !Within(m, i) && OneLine(s, i, |s|);
    }
  }

  /** A comment is begun by a pound sign, and goes on until a new line. */
  lemma IntoComment(l: Lexer, c: char, i: nat, size: nat)
    requires Step(l, c, i, size).Some? && Step(l, c, i, size).value.state.InComment?
    ensures if l.state.InComment? then !NewLine(c) else c == '#'
  {
  }

  lemma FinishTrails(l: Lexer, n: nat, flags: Flags)
    requires InOrder(l, n) && (l.state.Start? || !l.trailing) && Finish(l, n, flags).Words?
    requires n == 0 ==> l.argStart == 0
    ensures
      var words := Finish(l, n, flags).words;
      (words != [] && words[|words| - 1].end > n) <==> flags.trailsp && l.trailing
  {
  }

  lemma {:induction false} StartsAt(junk: string, size: nat)
    ensures Run("", size, junk) == Some(Init(junk))
    ensures Init(junk).trailing && Init(junk).argStart == 0
  {
  }

  /** A comment was open before the last character exactly when that is commented. */
  lemma CommentedIs(str: string, size: nat, junk: string, flags: Flags)
    requires str != "" && Lex(str, flags, size, junk).Words?
    requires !Open(Run(str, size, junk).value.state)
    ensures
      Commented(Lex(str, flags, size, junk).words, str, |str| - 1) <==>
      Run(str[..|str| - 1], size, junk).Some? && Run(str[..|str| - 1], size, junk).value.state.InComment?
  {
    hide Run, Step, InOrder, Within, Finish, Covered;
    var front, c, i := str[..|str| - 1], str[|str| - 1], |str| - 1;
    RunLast(str, size, junk);
    RunInOrder(front, size, junk);
    RunInOrder(str, size, junk);
    RunComments(front, size, junk);
    var l, m := Run(front, size, junk).value, Run(str, size, junk).value;
    var words := Lex(str, flags, size, junk).words;
    forall j | 0 <= j < i
      ensures front[j] == str[j] && (Covered(words, j) <==> Within(l, j))
      ensures OneLine(str, j, i) <==> OneLine(front, j, i)
    {
      FinishCovers(m, |str|, flags, j);
      WithinStep(l, c, i, size, j);
      SameLine(str, j, i);
    }
    if l.state.InComment? {
      CommentBegan(front, size, junk);
    }
  }

  lemma SameLine(s: string, j: nat, n: nat)
    requires n < |s|
    ensures OneLine(s, j, n) <==> OneLine(s[..|s| - 1], j, n)
  {
    if OneLine(s[..|s| - 1], j, n) {
      forall k | j <= k < n
        ensures !NewLine(s[k])
      {
        assert s[k] == s[..|s| - 1][k];
      }
    }
  }

  /**
   When trailing blanks are asked for, an empty word past the end is added to an
   empty string and to one that ends with a blank outside of words and comments,
   and to no other.
   */
  lemma TrailingIff(str: string, flags: Flags, size: nat, junk: string)
    requires Lex(str, flags, size, junk).Words?
    ensures
      var words := Lex(str, flags, size, junk).words;
      HasTrailing(words, str) <==> flags.trailsp && (str == "" || EndsBlank(words, str))
  {
    hide Run, Step, InOrder, Within, Finish, Commented, Covered;
    StartsAt(junk, size);
    var m := Run(str, size, junk).value;
    var words := Lex(str, flags, size, junk).words;
    RunInOrder(str, size, junk);
    FinishTrails(m, |str|, flags);
    if str != "" {
      var front, c, i := str[..|str| - 1], str[|str| - 1], |str| - 1;
      RunLast(str, size, junk);
      RunInOrder(front, size, junk);
      var l := Run(front, size, junk).value;
      LastChar(l, c, i, size);
      WithinLast(l, c, i, size);
      FinishCovers(m, |str|, flags, i);
      if Open(m.state) {
        OpenCovers(m, i);
        if l.state.InComment? {
          StaysComment(l, c, i, size);
        }
      } else {
        CommentedIs(str, size, junk, flags);
      }
    }
  }

  lemma OpenCovers(l: Lexer, i: nat)
    requires Open(l.state) && InOrder(l, i + 1)
    ensures Within(l, i)
  {
  }

  lemma StaysComment(l: Lexer, c: char, i: nat, size: nat)
    requires l.state.InComment? && Step(l, c, i, size).Some?
    ensures !Open(Step(l, c, i, size).value.state)
  {
  }
}
