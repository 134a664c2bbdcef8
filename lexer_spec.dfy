/** The scanning algorithm as functions of the source text and a cursor:
    the character classes, one cursor step (`advance`), the run scans, the
    dispatch on the current character (`parse_other`) and the whole pass
    (`lex`). The class in lexer.dfy is proved to compute exactly these. */
module LexerSpec {
  import opened Expectation
  import opened ParseCommon
  import Decimal

  // ---------------------------------------------------------------------
  // Character classes (ASCII only)

  predicate IsNumChar(c: char) {
    Decimal.IsDigit(c)
  }

  predicate IsAsciiLetter(c: char) {
    'A' <= c <= 'Z' || 'a' <= c <= 'z'
  }

  /** A character that may start an identifier or keyword. */
  predicate IsKeywordChar(c: char) {
    c == '_' || c == '-' || IsAsciiLetter(c)
  }

  /** A character that may continue an identifier or keyword. */
  predicate IsNumKwChar(c: char) {
    IsNumChar(c) || IsKeywordChar(c)
  }

  /** The characters skipped between tokens. */
  predicate IsSkipped(c: char) {
    c == ' ' || c == '\t' || c == '\r' || c == '\n'
  }

  /** The characters that do not make the pass fail when they are met. */
  predicate IsLexChar(c: char) {
    IsSkipped(c) || c == '(' || c == ')' || IsNumKwChar(c)
  }

  /** The value the lexer reads past the end of the source. */
  const NUL: char := 0 as char

  /** The four character classes a token can start with are disjoint from
      each other and from the skipped characters, and the end-of-input
      sentinel belongs to none of them. */
  lemma ClassesDisjoint(c: char)
    ensures !(IsNumChar(c) && IsKeywordChar(c))
    ensures IsNumKwChar(c) ==> !IsSkipped(c) && c != '(' && c != ')'
    ensures !IsLexChar(NUL)
  {
  }

  /** Post-hoc classification of an identifier-shaped run: exact,
      case-sensitive match on the whole run, Identifier otherwise. */
  function KeywordKind(raw: string): (k: TokenType)
    ensures k == And || k == Or || k == True || k == False || k == Identifier
    ensures k != Identifier <==> raw in ["and", "or", "true", "false"]
    ensures k != Identifier ==> TokenTypeRepr(k) == raw
  {
    if raw == "and" then And
    else if raw == "or" then Or
    else if raw == "true" then True
    else if raw == "false" then False
    else Identifier
  }

  /** The name of each keyword kind is the text that lexes to it. */
  lemma KeywordReprRoundTrip(t: TokenType)
    requires t == And || t == Or || t == True || t == False
    ensures KeywordKind(TokenTypeRepr(t)) == t
  {
  }

  // ---------------------------------------------------------------------
  // The cursor and one step of it

  /** Index of the next character, current position, and the character
      consumed by the previous step (NUL before the first step). */
  datatype Cursor = Cursor(idx: nat, pos: SourcePosition, last: char)

  /** The cursor of a freshly constructed lexer. */
  const Start: Cursor := Cursor(0, SourcePosition(1, 1), NUL)

  /** One `advance`: a no-op at the end; otherwise the index and the column
      grow by one, and the line grows and the column restarts at 1 when the
      character consumed by the PREVIOUS step was a newline. */
  function Step(s: string, c: Cursor): (r: Cursor)
    ensures c.idx >= |s| ==> r == c
    ensures c.idx < |s| ==> r.idx == c.idx + 1 && r.last == s[c.idx]
    ensures r.pos.line >= c.pos.line
    ensures c.idx < |s| ==> r.pos.column >= 1
    ensures c.idx < |s| ==> (r.pos.line == c.pos.line + 1 <==> c.last == '\n')
  {
    if c.idx >= |s| then c
    else
      var moved := c.pos.(column := c.pos.column + 1);
      var pos := if c.last == '\n' then SourcePosition(moved.line + 1, 1) else moved;
      Cursor(c.idx + 1, pos, s[c.idx])
  }

  /** The cursor after `i` steps from Start. */
  function CursorAt(s: string, i: nat): (r: Cursor)
    requires i <= |s|
    ensures r.idx == i
    ensures i == 0 ==> r == Start
    ensures i > 0 ==> r.last == s[i - 1]
  {
    if i == 0 then Start else Step(s, CursorAt(s, i - 1))
  }

  /** A cursor that the lexer can be in: the one its index determines. */
  ghost predicate Reachable(s: string, c: Cursor) {
    c.idx <= |s| && CursorAt(s, c.idx) == c
  }

  lemma StepReachable(s: string, c: Cursor)
    requires Reachable(s, c)
    ensures Reachable(s, Step(s, c))
  {
    if c.idx < |s| {
      assert CursorAt(s, c.idx + 1) == Step(s, c);
    }
  }

  // ---------------------------------------------------------------------
  // An independent account of the positions

  /** Number of newlines in `t`. */
  function Newlines(t: string): nat {
    if t == [] then 0 else Newlines(t[..|t| - 1]) + (if t[|t| - 1] == '\n' then 1 else 0)
  }

  /** Number of characters of `t` after its last newline. */
  function SinceNewline(t: string): nat {
    if t == [] then 0 else if t[|t| - 1] == '\n' then 0 else SinceNewline(t[..|t| - 1]) + 1
  }

  /** The position reported once `i` characters are consumed. The newline
      bump lags one character, so only s[..i - 1] is looked at: the line is
      one more than the newlines there, and the column counts from the last
      of them (or from column 1 at index 0 when there is none). */
  function PositionAt(s: string, i: nat): SourcePosition
    requires i <= |s|
  {
    if i == 0 then SourcePosition(1, 1)
    else
      var seen := s[..i - 1];
      SourcePosition(1 + Newlines(seen),
                     if Newlines(seen) == 0 then i + 1 else SinceNewline(seen) + 1)
  }

  /** Stepping the cursor reports exactly the positions PositionAt describes. */
  lemma {:induction false} CursorAtPosition(s: string, i: nat)
    requires i <= |s|
    ensures CursorAt(s, i).pos == PositionAt(s, i)
  {
    if i > 1 {
      CursorAtPosition(s, i - 1);
      var seen, seen' := s[..i - 2], s[..i - 1];
      assert seen'[..|seen'| - 1] == seen;
    }
  }

  lemma ReachablePosition(s: string, c: Cursor)
    requires Reachable(s, c)
    ensures c.pos == PositionAt(s, c.idx)
  {
    CursorAtPosition(s, c.idx);
  }

  // ---------------------------------------------------------------------
  // Runs, dispatch, and the pass

  /** Advances while the current character satisfies `p`: the loops of
      `parse_number` and `parse_keyword_or_identifier`. The run consumed is
      maximal. */
  function ScanWhile(s: string, c: Cursor, p: char -> bool): (r: Cursor)
    requires c.idx <= |s|
    ensures c.idx <= r.idx <= |s|
    ensures forall i :: c.idx <= i < r.idx ==> p(s[i])
    ensures r.idx == |s| || !p(s[r.idx])
    ensures Reachable(s, c) ==> Reachable(s, r)
    decreases |s| - c.idx
  {
    if c.idx < |s| && p(s[c.idx]) then
      var c' := Step(s, c);
      assert Reachable(s, c) ==> Reachable(s, c') by {
        if Reachable(s, c) { StepReachable(s, c); }
      }
      ScanWhile(s, c', p)
    else c
  }

  /** `parse_number`: a Number token over the maximal digit run, ranging
      from the start position to the position after the run. */
  function NumberScan(s: string, c: Cursor): (Token, Cursor)
    requires c.idx <= |s|
  {
    var e := ScanWhile(s, c, IsNumChar);
    (Token(Number, StringView(c.idx, e.idx - c.idx), SourceRange(c.pos, e.pos)), e)
  }

  /** NumberScan stops after the maximal digit run and gives a Number token
      over exactly that run. */
  lemma NumberScanRun(s: string, c: Cursor)
    requires c.idx <= |s|
    ensures var (tk, e) := NumberScan(s, c);
            && c.idx <= e.idx <= |s|
            && (forall i :: c.idx <= i < e.idx ==> IsNumChar(s[i]))
            && (e.idx == |s| || !IsNumChar(s[e.idx]))
            && tk.kind == Number && tk.literal == StringView(c.idx, e.idx - c.idx)
            && tk.range == SourceRange(c.pos, e.pos)
  {
  }

  /** `parse_keyword_or_identifier`: the maximal run of letters, digits, `_`
      and `-`, classified by KeywordKind. */
  function WordScan(s: string, c: Cursor): (Token, Cursor)
    requires c.idx <= |s|
  {
    var e := ScanWhile(s, c, IsNumKwChar);
    (Token(KeywordKind(s[c.idx..e.idx]), StringView(c.idx, e.idx - c.idx), SourceRange(c.pos, e.pos)), e)
  }

  /** WordScan stops after the maximal run of digits, letters, `_` and `-`
      and classifies exactly that run. */
  lemma WordScanRun(s: string, c: Cursor)
    requires c.idx <= |s|
    ensures var (tk, e) := WordScan(s, c);
            && c.idx <= e.idx <= |s|
            && (forall i :: c.idx <= i < e.idx ==> IsNumKwChar(s[i]))
            && (e.idx == |s| || !IsNumKwChar(s[e.idx]))
            && tk.kind == KeywordKind(s[c.idx..e.idx])
            && tk.literal == StringView(c.idx, e.idx - c.idx)
            && tk.range == SourceRange(c.pos, e.pos)
  {
  }

  /** The cause text of an unknown-token error: the raw text and the
      position, in the message format of `new_invalid_error`. */
  function UnknownLiteralCause(raw: string, p: SourcePosition): string {
    "unknown literal `" + raw + "` [" + Decimal.NatToString(p.line) + ":" + Decimal.NatToString(p.column) + "]"
  }

  /** `new_invalid_error` on its default path: the one character at the
      cursor (none at the end), at the range {pos, pos}. */
  function InvalidError(s: string, c: Cursor): (e: ParseError)
    ensures e.kind == UnknownToken
    ensures e.range.start == c.pos && e.range.end == c.pos
  {
    var raw := if c.idx < |s| then [s[c.idx]] else [];
    ParseError(UnknownToken, SourceRange(c.pos, c.pos), UnknownLiteralCause(raw, c.pos))
  }

  /** `parse_other`: a digit starts a Number run, a letter, `_` or `-` an
      identifier run, anything else is an unknown token. A token it returns
      consumed at least one character. */
  function ScanOther(s: string, c: Cursor): (r: Expected<(Token, Cursor), ParseError>)
    requires c.idx <= |s|
    ensures r.HasValue() <==> c.idx < |s| && IsNumKwChar(s[c.idx])
    ensures r.HasValue() ==> c.idx < r.Value().1.idx <= |s|
    ensures r.HasValue() ==> forall i :: c.idx <= i < r.Value().1.idx ==> IsNumKwChar(s[i])
    ensures r.HasError() ==> r.Error() == InvalidError(s, c)
  {
    var ch := if c.idx < |s| then s[c.idx] else NUL;
    if IsNumChar(ch) then Expect(NumberScan(s, c))
    else if IsKeywordChar(ch) then Expect(WordScan(s, c))
    else Unexpect(Unexpected(InvalidError(s, c)))
  }

  /** The one-character token of a parenthesis at the cursor. */
  function ParenToken(s: string, c: Cursor): Token
    requires c.idx < |s|
  {
    Token(if s[c.idx] == '(' then LParen else RParen, StringView(c.idx, 1), SourceRange(c.pos, c.pos))
  }

  /** The rest of the pass from cursor `c`: every skipped character is
      stepped over, a parenthesis is a one-character token, anything else is
      dispatched to ScanOther, whose first error ends the pass and discards
      the tokens gathered. */
  function LexFrom(s: string, c: Cursor): Expected<seq<Token>, ParseError>
    requires c.idx <= |s|
    decreases |s| - c.idx
  {
    if c.idx >= |s| then Expect([])
    else if IsSkipped(s[c.idx]) then LexFrom(s, Step(s, c))
    else if s[c.idx] == '(' || s[c.idx] == ')' then
      var tk := ParenToken(s, c);
      LexFrom(s, Step(s, c)).Transform(ts => [tk] + ts)
    else
      match ScanOther(s, c)
      case Unexpect(u) => Unexpect(u)
      case Expect(p) => LexFrom(s, p.1).Transform(ts => [p.0] + ts)
  }

  /** `lex` on a fresh lexer. */
  function Lex(s: string): Expected<seq<Token>, ParseError> {
    LexFrom(s, Start)
  }

  // ---------------------------------------------------------------------
  // A declarative account of a successful pass

  /** Every character between `a` and `b` is a lexeme character. */
  predicate LexCharsBetween(s: string, a: nat, b: nat)
    requires a <= b <= |s|
  {
    forall i :: a <= i < b ==> IsLexChar(s[i])
  }

  /** The index of the first character from `i` on that is not a lexeme
      character, or |s| when there is none: where a pass entered at `i`
      stops. */
  function FirstUnknownFrom(s: string, i: nat): (r: nat)
    requires i <= |s|
    ensures i <= r <= |s|
    decreases |s| - i
  {
    if i == |s| || !IsLexChar(s[i]) then i else FirstUnknownFrom(s, i + 1)
  }

  predicate AllSkipped(s: string, a: nat, b: nat)
    requires a <= b <= |s|
  {
    forall i :: a <= i < b ==> IsSkipped(s[i])
  }

  /** The view is a non-empty run of `p`-characters that cannot be extended
      to the right. */
  predicate IsMaximalRun(s: string, v: StringView, p: char -> bool)
    requires v.End() <= |s|
  {
    && v.length >= 1
    && (forall i :: v.offset <= i < v.End() ==> p(s[i]))
    && (v.End() == |s| || !p(s[v.End()]))
  }

  /** `tk` is a lexeme of `s` where its view says, with its kind and range:
      a parenthesis is one character at range {start, start}; a Number is a
      maximal digit run; any other kind is a maximal run of letters, digits,
      `_` and `-` that starts with a letter, `_` or `-`, and whose kind is
      its KeywordKind. A run's range ends at the position after the run. */
  ghost predicate IsLexeme(s: string, tk: Token) {
    var v := tk.literal;
    && 1 <= v.length
    && v.End() <= |s|
    && var start := PositionAt(s, v.offset);
       match tk.kind
       case LParen => v.length == 1 && s[v.offset] == '(' && tk.range == SourceRange(start, start)
       case RParen => v.length == 1 && s[v.offset] == ')' && tk.range == SourceRange(start, start)
       case Number =>
         IsMaximalRun(s, v, IsNumChar) && tk.range == SourceRange(start, PositionAt(s, v.End()))
       case _ =>
         && IsKeywordChar(s[v.offset])
         && IsMaximalRun(s, v, IsNumKwChar)
         && tk.kind == KeywordKind(v.Of(s))
         && tk.range == SourceRange(start, PositionAt(s, v.End()))
  }

  /** From index `from` on, `s` is: skipped characters, the lexeme ts[0],
      skipped characters, the lexeme ts[1], ..., skipped characters. */
  ghost predicate WellLexedFrom(s: string, from: nat, ts: seq<Token>)
    requires from <= |s|
    decreases |ts|
  {
    if ts == [] then AllSkipped(s, from, |s|)
    else
      && IsLexeme(s, ts[0])
      && from <= ts[0].literal.offset
      && AllSkipped(s, from, ts[0].literal.offset)
      && WellLexedFrom(s, ts[0].literal.End(), ts[1..])
  }

  ghost predicate WellLexed(s: string, ts: seq<Token>) {
    WellLexedFrom(s, 0, ts)
  }

  /** The position and error that an unknown character at `i` is reported with. */
  ghost function UnknownAt(s: string, i: nat): ParseError
    requires i < |s|
  {
    var p := PositionAt(s, i);
    ParseError(UnknownToken, SourceRange(p, p), UnknownLiteralCause([s[i]], p))
  }
}
