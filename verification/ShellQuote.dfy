/**
 Quoting a string for the shell lexer: two passes, one for the size of the
 buffer and one writing it; and what the lexer reads back.
 */
module ShellQuote {
  import opened ShellLex

  function Hex(n: nat): char
    requires n < 16
  {
    "0123456789abcdef"[n]
  }

  function Escape(c: char, quote: char): string {
    if c == quote then ['\\', quote]
    else if c == '\\' then ['\\', '\\']
    else if !IsPrint(c) && c != '\n' then var byte := c as int % 256; ['\\', 'x', Hex(byte / 16), Hex(byte % 16)]
    else [c]
  }

  /** The value of a hexadecimal digit. */
  function Digit(c: char): int {
    if '0' <= c <= '9' then c as int - '0' as int else if 'a' <= c <= 'f' then c as int - 'a' as int + 10 else -1
  }

  lemma HexIsDigit(n: nat)
    requires n < 16
    ensures Digit(Hex(n)) == n
  {
  }

  /** A byte that is not printable is written with a backslash, an x and the two digits of its value. */
  lemma HexEscape(c: char, quote: char)
    requires 0 as char < c < 256 as char && !IsPrint(c) && c != '\n' && c != quote
    ensures
      var e := Escape(c, quote);
      && |e| == 4 && e[..2] == "\\x" && 0 <= Digit(e[2]) < 16 && 0 <= Digit(e[3]) < 16
      && Digit(e[2]) * 16 + Digit(e[3]) == c as int
  {
    var high, low := c as int / 16, c as int % 16;
    HexIsDigit(high);
    HexIsDigit(low);
    assert Escape(c, quote) == ['\\', 'x', Hex(high), Hex(low)] by {
      assert c != '\\' && c as int % 256 == c as int;
    }
    hide Hex, Digit, Escape, IsPrint;
    assert ['\\', 'x', Hex(high), Hex(low)][..2] == "\\x";
  }

  function EscapeAll(str: string, quote: char): string {
    if str == "" then "" else EscapeAll(str[..|str| - 1], quote) + Escape(str[|str| - 1], quote)
  }

  /** The quote that is used: the caller's, or one chosen from the text. */
  function Chosen(str: string, quote: char): char {
    if quote != '\0' then quote else if '"' in str then '\'' else '"'
  }

  predicate NeedsQuote(c: char, quote: char) {
    IsSpace(c) || !IsPrint(c) || c == '"' || c == '\'' || c == quote
  }

  function Quoted(str: string, quote: char, force: bool): string {
    if !force && forall c :: c in str ==> !NeedsQuote(c, quote) then str
    else [Chosen(str, quote)] + EscapeAll(str, Chosen(str, quote)) + [Chosen(str, quote)]
  }

  lemma EscapeNext(str: string, i: nat, quote: char)
    requires i < |str|
    ensures EscapeAll(str[..i + 1], quote) == EscapeAll(str[..i], quote) + Escape(str[i], quote)
  {
    assert str[..i + 1][..i] == str[..i];
  }

  // ----- the quoter ----------------------------------------------------------------------------

  /** The first pass: how many characters the quoted text takes, with the quotes and terminator. */
  method QuotedLength(str: string, quote: char) returns (len: nat)
    ensures len == |EscapeAll(str, quote)| + 3
  {
    len := 3;
    var s := 0;
    while s < |str|
      invariant 0 <= s <= |str|
      invariant len == |EscapeAll(str[..s], quote)| + 3
    {
      EscapeNext(str, s, quote);
      var c := str[s];
      if c == quote || c == '\\' {
        len := len + 2;
      } else if !IsPrint(c) && c != '\n' {
        len := len + 4;
      } else {
        len := len + 1;
      }
      s := s + 1;
    }
    assert str[..s] == str;
  }

  lemma EscapePrefix(str: string, i: nat, quote: char)
    requires i <= |str|
    ensures |EscapeAll(str[..i], quote)| <= |EscapeAll(str, quote)|
    decreases |str| - i
  {
    if i < |str| {
      EscapeNext(str, i, quote);
      EscapePrefix(str, i + 1, quote);
    } else {
      assert str[..i] == str;
    }
  }

  /** Copying text through the output pointer. */
  method Put(out: array<char>, o: nat, text: string) returns (next: nat)
    requires o + |text| <= out.Length
    modifies out
    ensures next == o + |text|
    ensures out[..next] == old(out[..o]) + text
  {
    next := o;
    while next < o + |text|
      invariant o <= next <= o + |text|
      invariant out[..next] == old(out[..o]) + text[..next - o]
    {
      out[next] := text[next - o];
      next := next + 1;
    }
  }

  /** The second pass, for one character. */
  method WriteEscaped(out: array<char>, o: nat, c: char, quote: char) returns (next: nat)
    requires o + |Escape(c, quote)| <= out.Length
    modifies out
    ensures next == o + |Escape(c, quote)|
    ensures out[..next] == old(out[..o]) + Escape(c, quote)
  {
    if c == quote {
      next := Put(out, o, ['\\', quote]);
    } else if c == '\\' {
      next := Put(out, o, ['\\', '\\']);
    } else if !IsPrint(c) && c != '\n' {
      var byte := c as int % 256;
      next := Put(out, o, ['\\', 'x', Hex(byte / 16), Hex(byte % 16)]);
    } else {
      next := Put(out, o, [c]);
    }
  }

  /** The quoted text and its terminator fill the allocated buffer exactly. */
  method QuoteStr(str: string, quote0: char, force: bool) returns (out: array<char>)
    ensures fresh(out) && out[..] == Quoted(str, quote0, force) + ['\0']
  {
    hide EscapeAll, Escape;
    if !force {
      var s := 0;
      while s < |str| && !NeedsQuote(str[s], quote0)
        invariant 0 <= s <= |str|
        invariant forall k :: 0 <= k < s ==> !NeedsQuote(str[k], quote0)
      {
        s := s + 1;
      }
      if s == |str| {
        out := Duplicate(str);
        return;
      }
    }
    var quote := quote0;
    if quote == '\0' {
      quote := if '"' !in str then '"' else '\'';
    }
    var len := QuotedLength(str, quote);
    out := new char[len];
    out[0] := quote;
    var o := 1;
    var s := 0;
    EscapeNone(quote);
    while s < |str|
      invariant 0 <= s <= |str| && o <= len
      invariant o == 1 + |EscapeAll(str[..s], quote)|
      invariant out[..o] == [quote] + EscapeAll(str[..s], quote)
    {
      EscapeNext(str, s, quote);
      EscapePrefix(str, s + 1, quote);
      o := WriteEscaped(out, o, str[s], quote);
      s := s + 1;
    }
    assert str[..s] == str;
    out[o] := quote;
    out[o + 1] := '\0';
    assert out[..] == out[..o] + [quote, '\0'];
  }

  lemma EscapeNone(quote: char)
    ensures EscapeAll("", quote) == ""
  {
  }

  method Duplicate(str: string) returns (out: array<char>)
    ensures fresh(out) && out[..] == str + ['\0']
  {
    out := new char[|str| + 1](i requires 0 <= i <= |str| => if i < |str| then str[i] else '\0');
  }
}
