/**
 Comments of the shell lexer, told from the spans of the words: after a pound
 sign outside of the words, nothing up to the end of the line is in a word.
 */
module ShellComments {
  import opened Prelude
  import opened ShellLex
  import opened ShellSpans

  /** In a word that was returned so far, or in the one that is open. */
  ghost predicate Within(l: Lexer, k: nat) { Covered(l.words, k) || (Open(l.state) && l.argStart <= k) }

  ghost predicate OneLine(s: string, j: nat, n: nat)
    requires n <= |s|
  {
    forall i :: j <= i < n ==> !NewLine(s[i])
  }

  /** A pound sign outside of the words, and the line not over: the lexer is in a comment. */
  ghost predicate PoundsComment(l: Lexer, s: string) {
    forall j :: 0 <= j < |s| && s[j] == '#' && !Within(l, j) && OneLine(s, j, |s|) ==> l.state.InComment?
  }

  /** Nothing on the line after such a sign is in a word. */
  ghost predicate LinesUncovered(l: Lexer, s: string) {
    forall j, k :: 0 <= j <= k < |s| && s[j] == '#' && !Within(l, j) && OneLine(s, j, k + 1) ==> !Within(l, k)
  }

  /** What was in a word stays so, and what was not does not get into one. */
  lemma WithinStep(l: Lexer, c: char, i: nat, size: nat, k: nat)
    requires InOrder(l, i) && Step(l, c, i, size).Some? && k < i
    ensures Within(Step(l, c, i, size).value, k) <==> Within(l, k)
  {
    var m := Step(l, c, i, size).value;
    if m.words != l.words {
      PushCovers(l, i, k);
    }
  }

  lemma PushCovers(l: Lexer, i: nat, k: nat)
    requires k < i
    ensures Covered(Push(l, i).words, k) <==> Covered(l.words, k) || l.argStart <= k
  {
    var words := Push(l, i).words;
    assert words[|l.words|] == Word(l.text, l.argStart, i);
    if Covered(l.words, k) {
      StillCovered(l.words, words, k);
    }
    if w :| 0 <= w < |words| && words[w].start <= k < words[w].end {
      if w < |l.words| {
        assert words[w] == l.words[w];
      }
    }
  }

  /** The character just read: in a word if the lexer is in one, and a pound sign outside begins a comment. */
  lemma WithinLast(l: Lexer, c: char, i: nat, size: nat)
    requires InOrder(l, i) && Step(l, c, i, size).Some? && InOrder(Step(l, c, i, size).value, i + 1)
    ensures
      var m := Step(l, c, i, size).value;
      && (Within(m, i) ==> Open(m.state))
      && (c == '#' && !Within(m, i) ==> m.state.InComment?)
      && (l.state.InComment? && !NewLine(c) ==> m.state.InComment?)
  {
  }

  lemma CommentsStep(l: Lexer, s: string, c: char, size: nat)
    requires InOrder(l, |s|) && Step(l, c, |s|, size).Some? && InOrder(Step(l, c, |s|, size).value, |s| + 1)
    requires PoundsComment(l, s) && LinesUncovered(l, s)
    ensures
      var m := Step(l, c, |s|, size).value;
      PoundsComment(m, s + [c]) && LinesUncovered(m, s + [c])
  {
    hide Step, InOrder, Within;
    var m, n, t := Step(l, c, |s|, size).value, |s|, s + [c];
    WithinLast(l, c, n, size);
    forall k | 0 <= k < n
      ensures Within(m, k) <==> Within(l, k)
    {
      WithinStep(l, c, n, size, k);
    }
    forall j | 0 <= j < |t| && t[j] == '#' && !Within(m, j) && OneLine(t, j, |t|)
      ensures m.state.InComment?
    {
      assert t[n] == c;
      if j < n {
        assert OneLine(s, j, n) by {
          forall i | j <= i < n
            ensures !NewLine(s[i])
          {
            assert s[i] == t[i];
          }
        }
      }
    }
    forall j, k | 0 <= j <= k < |t| && t[j] == '#' && !Within(m, j) && OneLine(t, j, k + 1)
      ensures !Within(m, k)
    {
      if k < n {
        assert OneLine(s, j, k + 1) by {
          forall i | j <= i < k + 1
            ensures !NewLine(s[i])
          {
            assert s[i] == t[i];
          }
        }
      }
    }
  }

  lemma {:induction false} RunComments(s: string, size: nat, junk: string)
    requires Run(s, size, junk).Some?
    ensures var l := Run(s, size, junk).value; PoundsComment(l, s) && LinesUncovered(l, s)
    decreases |s|
  {
    hide Run, Step, InOrder, PoundsComment, LinesUncovered;
    NoWordsYet(size, junk);
    if s == "" {
      NoComments(junk);
    } else {
      var s' := s[..|s| - 1];
      RunLast(s, size, junk);
      RunComments(s', size, junk);
      RunInOrder(s', size, junk);
      RunInOrder(s, size, junk);
      CommentsStep(Run(s', size, junk).value, s', s[|s| - 1], size);
      assert s == s' + [s[|s| - 1]];
    }
  }

  lemma NoComments(junk: string)
    ensures PoundsComment(Init(junk), "") && LinesUncovered(Init(junk), "")
  {
  }

  /** An open word without text has no pound sign. */
  lemma {:induction false} TextlessNoPound(s: string, size: nat, junk: string, j: nat)
    requires Run(s, size, junk).Some? && j < |s|
    requires var l := Run(s, size, junk).value; Open(l.state) && l.t == 0 && l.argStart <= j
    ensures s[j] != '#'
    decreases |s|
  {
    hide Run, Step, InOrder;
    NoWordsYet(size, junk);
    var s', c, i := s[..|s| - 1], s[|s| - 1], |s| - 1;
    RunLast(s, size, junk);
    RunInOrder(s', size, junk);
    var l := Run(s', size, junk).value;
    PoundHasText(l, c, i, size);
    if Open(l.state) {
      NextAlone(l, c, i, 0, size, junk);
      StillEmpty(l, c, i, size);
      if j < i {
        TextlessNoPound(s', size, junk, j);
      }
    } else if l.state.Start? {
      ClosedLexer(l, |s'|);
      FirstAlone(l, c, i, size, junk);
    } else {
      CommentStays(l, c, i, size);
    }
  }

  lemma PoundHasText(l: Lexer, c: char, i: nat, size: nat)
    requires Step(l, c, i, size).Some?
    ensures Open(Step(l, c, i, size).value.state) && c == '#' ==> Step(l, c, i, size).value.t > 0
  {
  }

  /** The words returned cover the words read, but for an open one without text. */
  lemma FinishCovers(l: Lexer, n: nat, flags: Flags, k: nat)
    requires InOrder(l, n) && Finish(l, n, flags).Words? && k < n
    ensures Covered(Finish(l, n, flags).words, k) ==> Within(l, k)
    ensures Within(l, k) && (Open(l.state) ==> l.t > 0) ==> Covered(Finish(l, n, flags).words, k)
  {
    var words := Finish(l, n, flags).words;
    if Covered(l.words, k) {
      StillCovered(l.words, words, k);
    }
    if Open(l.state) && l.t > 0 {
      assert words[|l.words|] == Word(l.text, l.argStart, n);
    }
    if w :| 0 <= w < |words| && words[w].start <= k < words[w].end {
      if w < |l.words| {
        assert words[w] == l.words[w];
      }
    }
  }

  /** After a pound sign that is in no word, no character is in a word before the line ends. */
  lemma CommentIsUncovered(str: string, flags: Flags, size: nat, junk: string, j: nat, k: nat)
    requires Lex(str, flags, size, junk).Words?
    requires j <= k < |str| && str[j] == '#' && !Covered(Lex(str, flags, size, junk).words, j)
    requires forall i :: j <= i <= k ==> !NewLine(str[i])
    ensures !Covered(Lex(str, flags, size, junk).words, k)
  {
    hide Run, Step, InOrder, Finish, Covered, Within;
    var l := Run(str, size, junk).value;
    RunComments(str, size, junk);
    RunInOrder(str, size, junk);
    FinishCovers(l, |str|, flags, j);
    FinishCovers(l, |str|, flags, k);
    if Within(l, j) {
      NotOpenThere(str, size, junk, j, l, flags);
    }
    assert OneLine(str, j, k + 1);
  }

  lemma NotOpenThere(str: string, size: nat, junk: string, j: nat, l: Lexer, flags: Flags)
    requires Run(str, size, junk) == Some(l) && InOrder(l, |str|) && Finish(l, |str|, flags).Words?
    requires j < |str| && str[j] == '#' && Within(l, j)
    ensures Covered(Finish(l, |str|, flags).words, j)
  {
    hide Run, Step, InOrder;
    FinishCovers(l, |str|, flags, j);
    if Open(l.state) && l.t == 0 {
      if Covered(l.words, j) {
        StillCovered(l.words, Finish(l, |str|, flags).words, j);
      } else {
        TextlessNoPound(str, size, junk, j);
      }
    }
  }
}
