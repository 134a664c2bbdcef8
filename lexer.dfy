/** The lexer as the object it is: a read-only source and a mutable cursor
    made of the index, the position and the last consumed character. Each
    method is proved to compute what its counterpart in LexerSpec says. */
module Lexing {
  import opened Expectation
  import opened ParseCommon
  import opened LexerSpec
  import opened LexerProperties

  class Lexer {
    const source: string
    var currentIdx: nat
    var currentPosition: SourcePosition
    var lastValue: char

    /** The three cursor fields as one value. */
    function State(): Cursor
      reads this
    {
      Cursor(currentIdx, currentPosition, lastValue)
    }

    /** The cursor is the one its index determines. */
    ghost predicate Valid()
      reads this
    {
      Reachable(source, State())
    }

    constructor (source: string)
      ensures this.source == source
      ensures currentIdx == 0 && currentPosition == SourcePosition(1, 1) && lastValue == NUL
      ensures State() == Start && Valid()
    {
      this.source := source;
      currentIdx := 0;
      currentPosition := SourcePosition(1, 1);
      lastValue := NUL;
    }

    function IsAtEnd(): bool
      reads this
    {
      currentIdx >= |source|
    }

    /** The character at the cursor, or the NUL sentinel at the end, which
        no character class accepts. */
    function GetCurrent(): (c: char)
      reads this
      ensures !IsAtEnd() ==> c == source[currentIdx]
      ensures IsAtEnd() ==> !IsLexChar(c)
    {
      if IsAtEnd() then NUL else source[currentIdx]
    }

    method Advance() returns (c: char)
      requires Valid()
      modifies this
      ensures Valid() && State() == Step(source, old(State()))
      ensures c == if old(IsAtEnd()) then NUL else source[old(currentIdx)]
    {
      StepReachable(source, State());
      if IsAtEnd() {
        return NUL;
      }
      var oldIdx := currentIdx;
      currentIdx := currentIdx + 1;
      currentPosition := currentPosition.(column := currentPosition.column + 1);
      if lastValue == '\n' {
        currentPosition := SourcePosition(currentPosition.line + 1, 1);
      }
      lastValue := source[oldIdx];
      return lastValue;
    }

    method ParseNumber() returns (r: Expected<Token, ParseError>)
      requires Valid()
      modifies this
      ensures Valid()
      ensures r == Expect(NumberScan(source, old(State())).0)
      ensures State() == NumberScan(source, old(State())).1
    {
      var start := currentPosition;
      var startIdx := currentIdx;
      while !IsAtEnd() && IsNumChar(GetCurrent())
        invariant Valid() && startIdx <= currentIdx
        invariant ScanWhile(source, State(), IsNumChar) == ScanWhile(source, old(State()), IsNumChar)
        decreases |source| - currentIdx
      {
        var _ := Advance();
      }
      var raw := StringView(startIdx, currentIdx - startIdx);
      return Expect(Token(Number, raw, SourceRange(start, currentPosition)));
    }

    method ParseKeywordOrIdentifier() returns (r: Expected<Token, ParseError>)
      requires Valid()
      modifies this
      ensures Valid()
      ensures r == Expect(WordScan(source, old(State())).0)
      ensures State() == WordScan(source, old(State())).1
    {
      var start := currentPosition;
      var startIdx := currentIdx;
      while !IsAtEnd() && IsNumKwChar(GetCurrent())
        invariant Valid() && startIdx <= currentIdx
        invariant ScanWhile(source, State(), IsNumKwChar) == ScanWhile(source, old(State()), IsNumKwChar)
        decreases |source| - currentIdx
      {
        var _ := Advance();
      }
      var sourceRange := SourceRange(start, currentPosition);
      var raw := source[startIdx..currentIdx];
      var kind := Identifier;
      if raw == "and" {
        kind := And;
      } else if raw == "or" {
        kind := Or;
      } else if raw == "true" {
        kind := True;
      } else if raw == "false" {
        kind := False;
      }
      return Expect(Token(kind, StringView(startIdx, currentIdx - startIdx), sourceRange));
    }

    function NewInvalidError(): Expected<Token, ParseError>
      reads this
    {
      Unexpect(Unexpected(InvalidError(source, State())))
    }

    method ParseOther() returns (r: Expected<Token, ParseError>)
      requires Valid()
      modifies this
      ensures Valid()
      ensures ScanOther(source, old(State())).HasValue() ==>
                r == Expect(ScanOther(source, old(State())).Value().0) &&
                State() == ScanOther(source, old(State())).Value().1
      ensures ScanOther(source, old(State())).HasError() ==>
                r == FromError(ScanOther(source, old(State())).Error()) && State() == old(State())
      ensures r.HasValue() ==> (old(currentIdx) < currentIdx &&
                FirstUnknownFrom(source, old(currentIdx)) == FirstUnknownFrom(source, currentIdx))
      ensures r.HasError() ==> currentIdx < |source| ==> !IsNumKwChar(source[currentIdx])
    {
      var c := GetCurrent();
      ghost var startIdx := currentIdx;
      if IsNumChar(c) {
        r := ParseNumber();
        SkipLexChars(source, startIdx, currentIdx);
        return;
      }
      if IsKeywordChar(c) {
        r := ParseKeywordOrIdentifier();
        SkipLexChars(source, startIdx, currentIdx);
        return;
      }
      return NewInvalidError();
    }

    /** The whole pass from the current cursor; on a fresh lexer this is
        Lex(source). */
    method Lex() returns (r: Expected<seq<Token>, ParseError>)
      requires Valid()
      modifies this
      ensures r == LexFrom(source, old(State()))
      ensures Valid()
      ensures r.HasValue() ==> currentIdx == |source|
      ensures r.HasError() ==> currentIdx < |source| && !IsLexChar(source[currentIdx])
      ensures old(currentIdx) <= currentIdx <= |source|
      ensures LexCharsBetween(source, old(currentIdx), currentIdx)
      ensures currentIdx == FirstUnknownFrom(source, old(currentIdx))
    {
      var tokens: seq<Token> := [];
      ghost var start := currentIdx;
      EmptyPrefixTransform(LexFrom(source, State()));
      while !IsAtEnd()
        invariant Valid()
        invariant LexFrom(source, old(State())) == LexFrom(source, State()).Transform(ts => tokens + ts)
        invariant start <= currentIdx <= |source|
        invariant FirstUnknownFrom(source, start) == FirstUnknownFrom(source, currentIdx)
        decreases |source| - currentIdx
      {
        var c := GetCurrent();
        var tk := Token(And, StringView(currentIdx, 1), SourceRange(currentPosition, currentPosition));
        ghost var before := tokens;
        ghost var at := currentIdx;
        if IsSkipped(c) {
          var _ := Advance();
          assert currentIdx == at + 1 && IsLexChar(source[at]);
          FirstUnknownStep(source, at);
        } else if c == '(' || c == ')' {
          tk := tk.(kind := if c == '(' then LParen else RParen);
          tokens := tokens + [tk];
          var _ := Advance();
          assert currentIdx == at + 1 && IsLexChar(source[at]);
          FirstUnknownStep(source, at);
          PrependTransform(LexFrom(source, State()), tk, before);
        } else {
          var tkExp := ParseOther();
          if tkExp.HasError() {
            FirstUnknownFromSpec(source, start);
            return FromError(tkExp.Error());
          }
          assert FirstUnknownFrom(source, at) == FirstUnknownFrom(source, currentIdx);
          tokens := tokens + [tkExp.Value()];
          PrependTransform(LexFrom(source, State()), tkExp.Value(), before);
        }
      }
      assert tokens + [] == tokens;
      FirstUnknownFromSpec(source, start);
      return Expect(tokens);
    }
  }

  /** Prepending nothing changes nothing. */
  lemma EmptyPrefixTransform(r: Expected<seq<Token>, ParseError>)
    ensures r.Transform(ts => [] + ts) == r
  {
    if r.HasValue() {
      assert [] + r.Value() == r.Value();
    }
  }

  /** Prepending one token and then a prefix is prepending the longer prefix. */
  lemma PrependTransform(r: Expected<seq<Token>, ParseError>, tk: Token, prefix: seq<Token>)
    ensures r.Transform(ts => [tk] + ts).Transform(ts => prefix + ts)
         == r.Transform(ts => (prefix + [tk]) + ts)
  {
    if r.HasValue() {
      assert prefix + ([tk] + r.Value()) == (prefix + [tk]) + r.Value();
    }
  }

  /** Constructing a lexer over `source` and lexing it: succeeds exactly when
      every character is a lexeme character, and then returns the WellLexed
      decomposition of the source. */
  method LexSource(source: string) returns (r: Expected<seq<Token>, ParseError>)
    ensures r == LexerSpec.Lex(source)
    ensures r.HasValue() <==> forall i :: 0 <= i < |source| ==> IsLexChar(source[i])
    ensures r.HasValue() ==> WellLexed(source, r.Value())
  {
    var lexer := new Lexer(source);
    r := lexer.Lex();
    LexFailsIff(source);
    if r.HasValue() {
      LexSpecified(source, r.Value());
    }
  }
}
