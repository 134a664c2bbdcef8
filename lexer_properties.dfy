/** What the pass computes, stated without reference to how: `lex` succeeds
    exactly on the sources made of lexeme characters, its tokens are then
    exactly the WellLexed decomposition of the source, and otherwise it
    fails at the first unknown character. */
module LexerProperties {
  import opened Expectation
  import opened ParseCommon
  import opened LexerSpec

  // ---------------------------------------------------------------------
  // Single lexemes

  /** The first character of a lexeme fixes its kind class. */
  lemma LexemeStart(s: string, tk: Token)
    requires IsLexeme(s, tk)
    ensures !IsSkipped(s[tk.literal.offset])
    ensures s[tk.literal.offset] == '(' <==> tk.kind == LParen
    ensures s[tk.literal.offset] == ')' <==> tk.kind == RParen
    ensures IsNumChar(s[tk.literal.offset]) <==> tk.kind == Number
  {
  }

  /** Every character of a lexeme is a lexeme character. */
  lemma LexemeChars(s: string, tk: Token)
    requires IsLexeme(s, tk)
    ensures forall j :: tk.literal.offset <= j < tk.literal.End() ==> IsLexChar(s[j])
  {
  }

  /** Two maximal runs of the same class from the same offset coincide. */
  lemma MaximalRunUnique(s: string, v: StringView, w: StringView, p: char -> bool)
    requires v.End() <= |s| && w.End() <= |s| && v.offset == w.offset
    requires IsMaximalRun(s, v, p) && IsMaximalRun(s, w, p)
    ensures v == w
  {
  }

  /** Two lexemes starting at the same offset are the same token. */
  lemma LexemeUnique(s: string, a: Token, b: Token)
    requires IsLexeme(s, a) && IsLexeme(s, b)
    requires a.literal.offset == b.literal.offset
    ensures a == b
  {
    LexemeStart(s, a);
    LexemeStart(s, b);
    var ch := s[a.literal.offset];
    if ch == '(' || ch == ')' {
    } else if IsNumChar(ch) {
      MaximalRunUnique(s, a.literal, b.literal, IsNumChar);
    } else {
      MaximalRunUnique(s, a.literal, b.literal, IsNumKwChar);
    }
  }

  // ---------------------------------------------------------------------
  // The declarative account

  /** A skipped character may be added in front of the first gap. */
  lemma WidenGap(s: string, from: nat, ts: seq<Token>)
    requires from < |s| && IsSkipped(s[from])
    requires WellLexedFrom(s, from + 1, ts)
    ensures WellLexedFrom(s, from, ts)
  {
  }

  /** In a WellLexed decomposition every character is a lexeme character. */
  lemma {:induction false} WellLexedAllLexChars(s: string, from: nat, ts: seq<Token>)
    requires from <= |s| && WellLexedFrom(s, from, ts)
    ensures forall j :: from <= j < |s| ==> IsLexChar(s[j])
    decreases |ts|
  {
    if ts != [] {
      LexemeChars(s, ts[0]);
      WellLexedAllLexChars(s, ts[0].literal.End(), ts[1..]);
    }
  }

  /** The WellLexed decomposition of a source, if any, is unique. */
  lemma {:induction false} WellLexedUnique(s: string, from: nat, ts1: seq<Token>, ts2: seq<Token>)
    requires from <= |s|
    requires WellLexedFrom(s, from, ts1) && WellLexedFrom(s, from, ts2)
    ensures ts1 == ts2
    decreases |ts1|
  {
    if ts1 == [] && ts2 == [] {
    } else if ts1 == [] {
      LexemeStart(s, ts2[0]);
    } else if ts2 == [] {
      LexemeStart(s, ts1[0]);
    } else {
      LexemeStart(s, ts1[0]);
      LexemeStart(s, ts2[0]);
      LexemeUnique(s, ts1[0], ts2[0]);
      WellLexedUnique(s, ts1[0].literal.End(), ts1[1..], ts2[1..]);
      assert ts1 == [ts1[0]] + ts1[1..];
      assert ts2 == [ts2[0]] + ts2[1..];
    }
  }

  /** The tokens of a WellLexed decomposition are lexemes, in strictly
      increasing and non-overlapping index order. */
  lemma {:induction false} WellLexedOrdered(s: string, from: nat, ts: seq<Token>)
    requires from <= |s| && WellLexedFrom(s, from, ts)
    ensures forall k :: 0 <= k < |ts| ==> IsLexeme(s, ts[k]) && from <= ts[k].literal.offset
    ensures forall k, l :: 0 <= k < l < |ts| ==> ts[k].literal.End() <= ts[l].literal.offset
    decreases |ts|
  {
    if ts != [] {
      var rest := ts[1..];
      WellLexedOrdered(s, ts[0].literal.End(), rest);
      forall k, l | 0 <= k < l < |ts|
        ensures ts[k].literal.End() <= ts[l].literal.offset
      {
        assert ts[l] == rest[l - 1];
        if k > 0 {
          assert ts[k] == rest[k - 1];
        }
      }
      forall k | 0 <= k < |ts|
        ensures IsLexeme(s, ts[k]) && from <= ts[k].literal.offset
      {
        if k > 0 {
          assert ts[k] == rest[k - 1];
        }
      }
    }
  }

  // ---------------------------------------------------------------------
  // The pass against the declarative account

  /** A parenthesis at a reachable cursor is a lexeme. */
  lemma ParenIsLexeme(s: string, c: Cursor)
    requires Reachable(s, c) && c.idx < |s| && (s[c.idx] == '(' || s[c.idx] == ')')
    ensures IsLexeme(s, ParenToken(s, c))
  {
    ReachablePosition(s, c);
  }

  /** The token of a run scanned from a reachable cursor is a lexeme. */
  lemma RunIsLexeme(s: string, c: Cursor)
    requires Reachable(s, c) && ScanOther(s, c).HasValue()
    ensures IsLexeme(s, ScanOther(s, c).Value().0)
    ensures ScanOther(s, c).Value().0.literal == StringView(c.idx, ScanOther(s, c).Value().1.idx - c.idx)
  {
    var e := ScanOther(s, c).Value().1;
    ReachablePosition(s, c);
    ReachablePosition(s, e);
    if !IsNumChar(s[c.idx]) {
      var tk := ScanOther(s, c).Value().0;
      assert tk.literal.Of(s) == s[c.idx..e.idx];
    }
  }

  /** Putting a lexeme in front of a decomposition that starts where it ends. */
  lemma ConsLexeme(s: string, from: nat, tk: Token, rest: seq<Token>)
    requires IsLexeme(s, tk) && tk.literal.offset == from
    requires WellLexedFrom(s, tk.literal.End(), rest)
    ensures WellLexedFrom(s, from, [tk] + rest)
  {
    assert ([tk] + rest)[1..] == rest;
  }

  /** A successful pass from a reachable cursor yields the WellLexed
      decomposition of the rest of the source. */
  lemma {:induction false} LexFromWellLexed(s: string, c: Cursor, ts: seq<Token>)
    requires Reachable(s, c)
    requires LexFrom(s, c) == Expect(ts)
    ensures WellLexedFrom(s, c.idx, ts)
    decreases |s| - c.idx
  {
    if c.idx >= |s| {
    } else if IsSkipped(s[c.idx]) {
      StepReachable(s, c);
      LexFromWellLexed(s, Step(s, c), ts);
      WidenGap(s, c.idx, ts);
    } else if s[c.idx] == '(' || s[c.idx] == ')' {
      var c' := Step(s, c);
      StepReachable(s, c);
      var rest := LexFrom(s, c');
      assert rest.HasValue() && ts == [ParenToken(s, c)] + rest.Value();
      LexFromWellLexed(s, c', rest.Value());
      ParenIsLexeme(s, c);
      ConsLexeme(s, c.idx, ParenToken(s, c), rest.Value());
    } else {
      var r := ScanOther(s, c);
      assert r.HasValue();
      var e := r.Value().1;
      var rest := LexFrom(s, e);
      assert rest.HasValue() && ts == [r.Value().0] + rest.Value();
      LexFromWellLexed(s, e, rest.Value());
      RunIsLexeme(s, c);
      ConsLexeme(s, c.idx, r.Value().0, rest.Value());
    }
  }

  /** A pass over lexeme characters only never fails. */
  lemma {:induction false} LexFromSucceeds(s: string, c: Cursor)
    requires c.idx <= |s|
    requires forall j :: c.idx <= j < |s| ==> IsLexChar(s[j])
    ensures LexFrom(s, c).HasValue()
    decreases |s| - c.idx
  {
    if c.idx >= |s| {
    } else if IsSkipped(s[c.idx]) || s[c.idx] == '(' || s[c.idx] == ')' {
      LexFromSucceeds(s, Step(s, c));
    } else {
      var r := ScanOther(s, c);
      assert r.HasValue();
      LexFromSucceeds(s, r.Value().1);
    }
  }

  /** A pass that meets an unknown character at `i`, with only lexeme
      characters before it, fails with UnknownAt(s, i) alone. */
  lemma {:induction false} LexFromFailsAt(s: string, c: Cursor, i: nat)
    requires Reachable(s, c)
    requires c.idx <= i < |s| && !IsLexChar(s[i])
    requires forall j :: c.idx <= j < i ==> IsLexChar(s[j])
    ensures LexFrom(s, c) == FromError(UnknownAt(s, i))
    decreases |s| - c.idx
  {
    if c.idx == i {
      ReachablePosition(s, c);
    } else if IsSkipped(s[c.idx]) || s[c.idx] == '(' || s[c.idx] == ')' {
      StepReachable(s, c);
      LexFromFailsAt(s, Step(s, c), i);
    } else {
      var r := ScanOther(s, c);
      assert r.HasValue();
      LexFromFailsAt(s, r.Value().1, i);
    }
  }

  // ---------------------------------------------------------------------
  // The theorems about `lex`

  lemma StartReachable(s: string)
    ensures Reachable(s, Start)
  {
  }

  /** `lex(s)` succeeds with `ts` exactly when `ts` is the WellLexed
      decomposition of `s`. */
  lemma LexSpecified(s: string, ts: seq<Token>)
    ensures Lex(s) == Expect(ts) <==> WellLexed(s, ts)
  {
    StartReachable(s);
    if Lex(s) == Expect(ts) {
      LexFromWellLexed(s, Start, ts);
    }
    if WellLexed(s, ts) {
      WellLexedAllLexChars(s, 0, ts);
      LexFromSucceeds(s, Start);
      var ts' := Lex(s).Value();
      LexFromWellLexed(s, Start, ts');
      WellLexedUnique(s, 0, ts, ts');
    }
  }

  /** `lex(s)` fails exactly when some character of `s` is not a lexeme
      character (not skipped, not a parenthesis, not a letter, digit, `_`
      or `-`). */
  lemma LexFailsIff(s: string)
    ensures Lex(s).HasError() <==> exists i :: 0 <= i < |s| && !IsLexChar(s[i])
  {
    if Lex(s).HasValue() {
      LexSpecified(s, Lex(s).Value());
      WellLexedAllLexChars(s, 0, Lex(s).Value());
    } else {
      if forall j :: 0 <= j < |s| ==> IsLexChar(s[j]) {
        LexFromSucceeds(s, Start);
      }
    }
  }

  /** The error is the one of the first unknown character: kind
      UnknownToken, range {p, p} at its position p, and cause
      "unknown literal `c` [line:column]"; no token survives. */
  lemma LexErrorAtFirstUnknown(s: string, i: nat)
    requires i < |s| && !IsLexChar(s[i])
    requires forall j :: 0 <= j < i ==> IsLexChar(s[j])
    ensures Lex(s) == FromError(UnknownAt(s, i))
  {
    StartReachable(s);
    LexFromFailsAt(s, Start, i);
  }

  /** Empty and whitespace-only sources lex to no tokens. */
  lemma LexWhitespaceOnly(s: string)
    requires forall i :: 0 <= i < |s| ==> IsSkipped(s[i])
    ensures Lex(s) == Expect([])
  {
    LexSpecified(s, []);
  }

  /** On success the tokens are lexemes of `s`, in strictly increasing,
      non-overlapping order. */
  lemma LexTokensOrdered(s: string, ts: seq<Token>)
    requires Lex(s) == Expect(ts)
    ensures forall k :: 0 <= k < |ts| ==> IsLexeme(s, ts[k])
    ensures forall k, l :: 0 <= k < l < |ts| ==> ts[k].literal.End() <= ts[l].literal.offset
  {
    LexSpecified(s, ts);
    WellLexedOrdered(s, 0, ts);
  }

  /** The text of a lexeme, lexed on its own, is one lexeme of the same
      kind spanning all of it. */
  lemma LexemeAlone(s: string, tk: Token) returns (tk': Token)
    requires IsLexeme(s, tk)
    ensures tk'.kind == tk.kind && tk'.literal == StringView(0, tk.literal.length)
    ensures WellLexed(tk.literal.Of(s), [tk'])
  {
    var t := tk.literal.Of(s);
    var p0 := PositionAt(t, 0);
    assert p0 == SourcePosition(1, 1);
    if tk.kind == LParen || tk.kind == RParen {
      tk' := Token(tk.kind, StringView(0, |t|), SourceRange(p0, p0));
    } else {
      var p := if tk.kind == Number then IsNumChar else IsNumKwChar;
      RunAlone(s, tk.literal, p);
      tk' := Token(tk.kind, StringView(0, |t|), SourceRange(p0, PositionAt(t, |t|)));
      assert tk'.literal.Of(t) == t;
    }
    assert IsLexeme(t, tk');
    assert WellLexedFrom(t, |t|, []);
  }

  /** A maximal run, cut out of its source, is a maximal run of the cut. */
  lemma RunAlone(s: string, v: StringView, p: char -> bool)
    requires v.End() <= |s| && IsMaximalRun(s, v, p)
    ensures IsMaximalRun(v.Of(s), StringView(0, v.length), p)
  {
    var t := v.Of(s);
    assert forall i :: 0 <= i < |t| ==> t[i] == s[v.offset + i];
  }

  /** Lexing the text of any token on its own gives back one token of the
      same kind spanning the whole text. */
  lemma RelexLexeme(s: string, ts: seq<Token>, k: nat)
    requires Lex(s) == Expect(ts) && k < |ts|
    ensures ts[k].literal.End() <= |s|
    ensures var t := ts[k].literal.Of(s);
            && Lex(t).HasValue()
            && |Lex(t).Value()| == 1
            && Lex(t).Value()[0].kind == ts[k].kind
            && Lex(t).Value()[0].literal == StringView(0, |t|)
  {
    LexTokensOrdered(s, ts);
    var tk' := LexemeAlone(s, ts[k]);
    LexSpecified(ts[k].literal.Of(s), [tk']);
  }

  // ---------------------------------------------------------------------
  // Where a pass stops

  /** FirstUnknownFrom is the first non-lexeme character at or after `i`:
      everything before it is a lexeme character. */
  lemma {:induction false} FirstUnknownFromSpec(s: string, i: nat)
    requires i <= |s|
    ensures var r := FirstUnknownFrom(s, i);
            && LexCharsBetween(s, i, r)
            && (r < |s| ==> !IsLexChar(s[r]))
    decreases |s| - i
  {
    if i < |s| && IsLexChar(s[i]) {
      FirstUnknownFromSpec(s, i + 1);
    }
  }

  /** One lexeme character does not move where the pass stops. */
  lemma FirstUnknownStep(s: string, i: nat)
    requires i < |s| && IsLexChar(s[i])
    ensures FirstUnknownFrom(s, i) == FirstUnknownFrom(s, i + 1)
  {
  }

  /** Passing over lexeme characters does not move where the pass stops. */
  lemma {:induction false} SkipLexChars(s: string, a: nat, b: nat)
    requires a <= b <= |s| && LexCharsBetween(s, a, b)
    ensures FirstUnknownFrom(s, a) == FirstUnknownFrom(s, b)
    decreases b - a
  {
    if a < b {
      SkipLexChars(s, a + 1, b);
    }
  }
}
