/** The pass on a few concrete sources, each obtained from the declarative
    account in LexerProperties. */
module LexerExamples {
  import opened Expectation
  import opened ParseCommon
  import opened LexerSpec
  import opened LexerProperties
  import Decimal

  function Pos(line: nat, column: nat): SourcePosition {
    SourcePosition(line, column)
  }

  /** A string without newlines moves only the column. */
  lemma {:induction false} NoNewlines(t: string)
    requires forall i :: 0 <= i < |t| ==> t[i] != '\n'
    ensures Newlines(t) == 0
  {
    if t != [] {
      NoNewlines(t[..|t| - 1]);
    }
  }

  /** Counting across the last newline of a string. */
  lemma {:induction false} AfterLastNewline(a: string, b: string)
    requires forall i :: 0 <= i < |b| ==> b[i] != '\n'
    ensures Newlines(a + ['\n'] + b) == Newlines(a) + 1
    ensures SinceNewline(a + ['\n'] + b) == |b|
  {
    var t := a + ['\n'] + b;
    if b == [] {
      assert t[..|t| - 1] == a;
    } else {
      var b' := b[..|b| - 1];
      AfterLastNewline(a, b');
      assert t[..|t| - 1] == a + ['\n'] + b';
    }
  }

  /** A run's range ends one column past its last character: "123" is one
      Number token at [1:1]-[1:4]. */
  lemma NumberRangeEndsAfterRun()
    ensures Lex("123") == Expect([Token(Number, StringView(0, 3), SourceRange(Pos(1, 1), Pos(1, 4)))])
  {
    var s := "123";
    var tk := Token(Number, StringView(0, 3), SourceRange(Pos(1, 1), Pos(1, 4)));
    NoNewlines(s[..2]);
    assert IsLexeme(s, tk);
    assert WellLexedFrom(s, 3, []);
    LexSpecified(s, [tk]);
  }

  /** The line bump lags one character behind the newline: in "true\nfalse"
      the token `false` starts at [1:6] and ends at [2:5]. */
  lemma NewlineBumpLags()
    ensures Lex("true\nfalse") == Expect([
      Token(True, StringView(0, 4), SourceRange(Pos(1, 1), Pos(1, 5))),
      Token(False, StringView(5, 5), SourceRange(Pos(1, 6), Pos(2, 5)))])
  {
    var s := "true\nfalse";
    var t1 := Token(True, StringView(0, 4), SourceRange(Pos(1, 1), Pos(1, 5)));
    var t2 := Token(False, StringView(5, 5), SourceRange(Pos(1, 6), Pos(2, 5)));
    TrueBeforeNewline();
    FalseAfterNewline();
    assert WellLexedFrom(s, 10, []);
    assert WellLexedFrom(s, 4, [t2]);
    assert [t1, t2][1..] == [t2];
    LexSpecified(s, [t1, t2]);
  }

  /** The first token of "true\nfalse". */
  lemma TrueBeforeNewline()
    ensures IsLexeme("true\nfalse", Token(True, StringView(0, 4), SourceRange(Pos(1, 1), Pos(1, 5))))
  {
    var s := "true\nfalse";
    NoNewlines(s[..3]);
    assert StringView(0, 4).Of(s) == "true";
  }

  /** The second token of "true\nfalse", whose start still lies on line 1. */
  lemma FalseAfterNewline()
    ensures IsLexeme("true\nfalse", Token(False, StringView(5, 5), SourceRange(Pos(1, 6), Pos(2, 5))))
  {
    var s := "true\nfalse";
    NoNewlines(s[..3]);
    NoNewlines(s[..4]);
    assert s[..9] == s[..4] + ['\n'] + "fals";
    AfterLastNewline(s[..4], "fals");
    assert StringView(5, 5).Of(s) == "false";
  }

  /** The first unknown character aborts the pass with its position in the
      message. */
  lemma UnknownCharacter()
    ensures Lex("@") == FromError(ParseError(UnknownToken, SourceRange(Pos(1, 1), Pos(1, 1)), "unknown literal `@` [1:1]"))
  {
    LexErrorAtFirstUnknown("@", 0);
    assert Decimal.NatToString(1) == "1";
    assert UnknownLiteralCause("@", Pos(1, 1)) == "unknown literal `@` [1:1]";
  }

  /** Tokens gathered before an unknown character are discarded. */
  lemma ErrorDiscardsTokens()
    ensures Lex("a @") == FromError(ParseError(UnknownToken, SourceRange(Pos(1, 3), Pos(1, 3)), "unknown literal `@` [1:3]"))
  {
    var s := "a @";
    NoNewlines(s[..1]);
    LexErrorAtFirstUnknown(s, 2);
    assert PositionAt(s, 2) == Pos(1, 3);
    assert Decimal.NatToString(1) == "1" && Decimal.NatToString(3) == "3";
    assert UnknownLiteralCause("@", Pos(1, 3)) == "unknown literal `@` [1:3]";
  }

  /** Keyword matching is case-sensitive: "AND" is an Identifier. */
  lemma UpperCaseIsIdentifier()
    ensures Lex("AND") == Expect([Token(Identifier, StringView(0, 3), SourceRange(Pos(1, 1), Pos(1, 4)))])
  {
    var s := "AND";
    var tk := Token(Identifier, StringView(0, 3), SourceRange(Pos(1, 1), Pos(1, 4)));
    NoNewlines(s[..2]);
    assert tk.literal.Of(s) == s;
    assert IsLexeme(s, tk);
    assert WellLexedFrom(s, 3, []);
    LexSpecified(s, [tk]);
  }

  /** A digit run stops at the first non-digit: "123abc" is a Number
      followed by an Identifier. */
  lemma DigitsThenWord()
    ensures Lex("123abc") == Expect([
      Token(Number, StringView(0, 3), SourceRange(Pos(1, 1), Pos(1, 4))),
      Token(Identifier, StringView(3, 3), SourceRange(Pos(1, 4), Pos(1, 7)))])
  {
    var s := "123abc";
    var t1 := Token(Number, StringView(0, 3), SourceRange(Pos(1, 1), Pos(1, 4)));
    var t2 := Token(Identifier, StringView(3, 3), SourceRange(Pos(1, 4), Pos(1, 7)));
    NoNewlines(s[..2]);
    NoNewlines(s[..5]);
    assert t2.literal.Of(s) == "abc";
    assert IsLexeme(s, t1);
    assert IsLexeme(s, t2);
    assert WellLexedFrom(s, 6, []);
    assert WellLexedFrom(s, 3, [t2]);
    assert [t1, t2][1..] == [t2];
    LexSpecified(s, [t1, t2]);
  }

  /** Parentheses are one-character tokens at range {pos, pos}; their
      balance is not checked. */
  lemma Parentheses()
    ensures Lex("(()") == Expect([
      Token(LParen, StringView(0, 1), SourceRange(Pos(1, 1), Pos(1, 1))),
      Token(LParen, StringView(1, 1), SourceRange(Pos(1, 2), Pos(1, 2))),
      Token(RParen, StringView(2, 1), SourceRange(Pos(1, 3), Pos(1, 3)))])
  {
    var s := "(()";
    var t1 := Token(LParen, StringView(0, 1), SourceRange(Pos(1, 1), Pos(1, 1)));
    var t2 := Token(LParen, StringView(1, 1), SourceRange(Pos(1, 2), Pos(1, 2)));
    var t3 := Token(RParen, StringView(2, 1), SourceRange(Pos(1, 3), Pos(1, 3)));
    NoNewlines(s[..1]);
    assert PositionAt(s, 0) == Pos(1, 1);
    assert PositionAt(s, 1) == Pos(1, 2);
    assert PositionAt(s, 2) == Pos(1, 3);
    assert IsLexeme(s, t1);
    assert IsLexeme(s, t2);
    assert IsLexeme(s, t3);
    assert WellLexedFrom(s, 3, []);
    assert WellLexedFrom(s, 2, [t3]);
    assert [t2, t3][1..] == [t3];
    assert WellLexedFrom(s, 1, [t2, t3]);
    assert [t1, t2, t3][1..] == [t2, t3];
    LexSpecified(s, [t1, t2, t3]);
  }
}
