/** The reader that looks for the end of a template expression and the scanner that masks code skip the
    same comments and literals, unless a template is nested in the expression. */
module SourceSanitizerAgreement {
  import opened Wrappers
  import opened DeletionGuards
  import opened SourceSanitizerState
  import opened SourceSanitizerLaws

  /** No template expression opens at or after i. */
  predicate NoExpressions(s: string, i: nat) {
    forall j :: i <= j < |s| ==> !(s[j] == '$' && At(s, j + 1, '{'))
  }

  predicate NoBraces(w: string) {
    forall j :: 0 <= j < |w| ==> w[j] != '{' && w[j] != '}'
  }

  lemma BlankHasNoBraces(w: string)
    requires IsBlank(w)
    ensures NoBraces(w)
  {
  }

  lemma NoBracesSum(a: string, b: string)
    requires NoBraces(a) && NoBraces(b)
    ensures NoBraces(a + b)
  {
  }

  lemma SplitBlank(masked: string, length: nat, rest: string) returns (w: string)
    requires BlankThen(masked, length, rest)
    ensures masked == w + rest && |w| == length && NoBraces(w)
  {
    w := masked[..length];
  }

  /** Inside a template text the reader and the scanner agree while no expression opens. */
  lemma {:induction false} SameTemplateEnd(s: string, i: nat)
    requires NoExpressions(s, i)
    ensures TemplateTextEnd(s, i) == StringEnd(s, i, '`')
    decreases |s| - i
  {
    if i < |s| && s[i] != '`' {
      SameTemplateEnd(s, if s[i] == '\\' then i + 2 else i + 1);
    }
  }

  lemma CommentPiece(s: string, i: nat) returns (w: string)
    requires i + 1 < |s| && s[i] == '/' && (s[i + 1] == '/' || s[i + 1] == '*')
    ensures Masked(s, i, Code) == w + Masked(s, AfterPiece(s, i), Code)
    ensures |w| == AfterPiece(s, i) - i && NoBraces(w)
  {
    hide Masked, LineEnd, CommentEnd, IsRegexStart, RegexEnd, StringEnd, IsSpace, BlankThen;
    MaskedStep(s, i, Code);
    AtTheEnd(s, '/', Code);
    var stop := AfterPiece(s, i);
    if s[i + 1] == '/' {
      var end := LineEnd(s, i + 2);
      LineCommentIsErased(s, i + 2, end);
      var tail := if end < |s| then "\n" else "";
      w := Spaces(2) + (Spaces(end - (i + 2)) + tail);
      assert Masked(s, i + 2, SingleLineComment) == Spaces(end - (i + 2)) + tail + Masked(s, stop, Code);
    } else {
      BlockCommentIsErased(s, i + 2);
      var rest := SplitBlank(Masked(s, i + 2, MultiLineComment), stop - (i + 2), CodeAfter(s, CommentEnd(s, i + 2)));
      w := Spaces(2) + rest;
    }
  }

  lemma QuotePiece(s: string, i: nat) returns (w: string)
    requires i < |s| && (s[i] == '\'' || s[i] == '"')
    ensures Masked(s, i, Code) == w + Masked(s, AfterPiece(s, i), Code)
    ensures |w| == AfterPiece(s, i) - i && NoBraces(w)
  {
    hide Masked, StringEnd, IsRegexStart, BlankThen;
    MaskedStep(s, i, Code);
    AtTheEnd(s, s[i], Code);
    var stop, end := AfterPiece(s, i), StringEnd(s, i + 1, s[i]);
    QuotedLiteralIsErased(s, i + 1, s[i], end, stop);
    var rest := SplitBlank(Masked(s, i + 1, QuoteState(s[i])), stop - (i + 1), CodeAfter(s, end));
    w := Spaces(1) + rest;
  }

  lemma TemplatePiece(s: string, i: nat) returns (w: string)
    requires i < |s| && s[i] == '`' && NoExpressions(s, i)
    ensures Masked(s, i, Code) == w + Masked(s, AfterPiece(s, i), Code)
    ensures |w| == AfterPiece(s, i) - i && NoBraces(w)
  {
    hide Masked, StringEnd, IsRegexStart, BlankThen, TemplateTextEnd;
    MaskedStep(s, i, Code);
    AtTheEnd(s, '`', Code);
    AtTheEnd(s, '`', TemplateString);
    var stop, end := AfterPiece(s, i), StringEnd(s, i + 1, '`');
    SameTemplateEnd(s, i + 1);
    TemplateTextIsErased(s, i + 1);
    var text := SplitBlank(Masked(s, i + 1, TemplateString), end - (i + 1), Masked(s, end, TemplateString));
    if end < |s| {
      TextEndsHere(s, end);
      AfterTemplateText(s, end);
      w := Spaces(1) + (text + " ");
      SumAssociates(text, " ", Masked(s, stop, Code));
      SumAssociates(Spaces(1), text + " ", Masked(s, stop, Code));
    } else {
      w := Spaces(1) + text;
    }
  }

  lemma TextEndsHere(s: string, end: nat)
    requires end < |s| && s[end] == '`'
    ensures TemplateTextEnd(s, end) == end
  {
  }

  /** What the reader passes over in one go the scanner blanks, or keeps as a single character. */
  lemma PieceIsMasked(s: string, i: nat) returns (w: string)
    requires i < |s| && s[i] != '{' && s[i] != '}' && NoExpressions(s, i)
    ensures Masked(s, i, Code) == w + Masked(s, AfterPiece(s, i), Code)
    ensures |w| == AfterPiece(s, i) - i && NoBraces(w)
  {
    hide Masked, LineEnd, CommentEnd, IsRegexStart, RegexEnd, StringEnd, IsSpace, BlankThen;
    if s[i] == '/' && (At(s, i + 1, '/') || At(s, i + 1, '*')) {
      w := CommentPiece(s, i);
    } else if s[i] == '/' && IsRegexStart(s, i) {
      RegexIsErased(s, i);
      w := SplitBlank(Masked(s, i, Code), AfterPiece(s, i) - i, Masked(s, AfterPiece(s, i), Code));
    } else if s[i] == '`' {
      w := TemplatePiece(s, i);
    } else if s[i] == '\'' || s[i] == '"' {
      w := QuotePiece(s, i);
    } else {
      MaskedStep(s, i, Code);
      w := [s[i]];
      assert s[i..i + 1] == w;
    }
  }

  // ----- Braces of the masked text -----

  lemma {:induction false} NoBracesBalance(w: string)
    requires NoBraces(w)
    ensures Braces(w) == 0
  {
    if w != "" {
      NoBracesBalance(w[..|w| - 1]);
    }
  }

  lemma {:induction false} BracesSum(a: string, b: string)
    ensures Braces(a + b) == Braces(a) + Braces(b)
    decreases |b|
  {
    if b == "" {
      assert a + b == a;
    } else {
      BracesSum(a, b[..|b| - 1]);
      assert (a + b)[..|a + b| - 1] == a + b[..|b| - 1];
    }
  }

  /** Within "masked", which follows "depth" open braces, the brace at "end" is the first to close more
      than were opened; there is none if "end" is the end of the text. */
  ghost predicate FirstUnmatched(masked: string, depth: nat, end: nat) {
    && end <= |masked|
    && (forall j :: 0 <= j <= end ==> depth + Braces(masked[..j]) >= 1)
    && (end < |masked| ==> masked[end] == '}' && depth + Braces(masked[..end]) == 1)
  }

  lemma UnmatchedAfter(w: string, masked: string, depth: nat, after: nat, end: nat)
    requires FirstUnmatched(masked, after, end) && depth >= 1 && depth + Braces(w) == after
    requires NoBraces(w) || |w| == 1
    ensures FirstUnmatched(w + masked, depth, |w| + end)
  {
    var whole := w + masked;
    assert w[..|w|] == w;
    forall j | 0 <= j <= |w| + end ensures depth + Braces(whole[..j]) >= 1 {
      if j < |w| {
        assert whole[..j] == w[..j];
        NoBracesPrefix(w, j);
      } else {
        assert whole[..j] == w + masked[..j - |w|];
        BracesSum(w, masked[..j - |w|]);
      }
    }
    if end < |masked| {
      assert whole[..|w| + end] == w + masked[..end];
      BracesSum(w, masked[..end]);
    }
  }

  lemma NoBracesPrefix(w: string, j: nat)
    requires j < |w| && (NoBraces(w) || |w| == 1)
    ensures Braces(w[..j]) == 0
  {
    if NoBraces(w) {
      NoBracesBalance(w[..j]);
    }
  }

  lemma BraceIsKept(s: string, i: nat)
    requires i < |s| && (s[i] == '{' || s[i] == '}')
    ensures Masked(s, i, Code) == [s[i]] + Masked(s, i + 1, Code)
    ensures Braces([s[i]]) == if s[i] == '{' then 1 else -1
  {
    MaskedStep(s, i, Code);
    assert s[i..i + 1] == [s[i]] && [s[i]][..0] == "";
    hide Masked;
    assert Braces("") == 0;
  }

  lemma FewerExpressions(s: string, i: nat, j: nat)
    requires NoExpressions(s, i) && i <= j
    ensures NoExpressions(s, j)
  {
  }

  /** Unless a template expression opens in it, an expression ends at the first brace of the masked text
      that closes more than were opened: comments, strings, templates and regular expressions hide the
      same braces from the reader and from the scanner. */
  lemma {:induction false} CloseBraceAgrees(s: string, i: nat, depth: nat)
    requires i <= |s| && depth >= 1 && NoExpressions(s, i)
    ensures var end := CloseBrace(s, i, depth);
            && |Masked(s, i, Code)| == |s| - i && i <= end
            && FirstUnmatched(Masked(s, i, Code), depth, end - i)
    decreases |s| - i
  {
    hide NoExpressions, FirstUnmatched, Masked, AfterPiece, Braces;
    if i == |s| {
      NothingUnmatched(depth);
      AtTheEnd(s, '/', Code);
    } else if s[i] == '{' || s[i] == '}' {
      BraceIsKept(s, i);
      FewerExpressions(s, i, i + 1);
      if s[i] == '}' && depth == 1 {
        CloseBraceLength(s, i + 1);
        UnmatchedHere(Masked(s, i + 1, Code));
      } else {
        var after := if s[i] == '{' then depth + 1 else depth - 1;
        CloseBraceAgrees(s, i + 1, after);
        UnmatchedAfter([s[i]], Masked(s, i + 1, Code), depth, after, CloseBrace(s, i, depth) - (i + 1));
      }
    } else {
      var next := AfterPiece(s, i);
      var w := PieceIsMasked(s, i);
      NoBracesBalance(w);
      FewerExpressions(s, i, next);
      CloseBraceAgrees(s, next, depth);
      UnmatchedAfter(w, Masked(s, next, Code), depth, depth, CloseBrace(s, next, depth) - next);
    }
  }

  lemma NothingUnmatched(depth: nat)
    requires depth >= 1
    ensures FirstUnmatched("", depth, 0)
  {
  }

  lemma UnmatchedHere(rest: string)
    ensures FirstUnmatched("}" + rest, 1, 0)
  {
    assert ("}" + rest)[..0] == "";
  }

  /** A text without template expressions is masked to its own length. */
  lemma {:induction false} CloseBraceLength(s: string, i: nat)
    requires i <= |s| && NoExpressions(s, i)
    ensures |Masked(s, i, Code)| == |s| - i
    decreases |s| - i
  {
    hide Masked, AfterPiece, NoExpressions;
    if i == |s| {
      AtTheEnd(s, '/', Code);
    } else if s[i] == '{' || s[i] == '}' {
      BraceIsKept(s, i);
      FewerExpressions(s, i, i + 1);
      CloseBraceLength(s, i + 1);
    } else {
      var w := PieceIsMasked(s, i);
      FewerExpressions(s, i, AfterPiece(s, i));
      CloseBraceLength(s, AfterPiece(s, i));
    }
  }

  // ----- Where they do not agree -----

  const NESTED: string := "`${'`'}`}"

  lemma ReaderLosesEnd()
    ensures CloseBrace(NESTED, 0, 1) == |NESTED| == 9
  {
    hide IsRegexStart;
    assert StringEnd(NESTED, 1, '`') == 4;
    assert AfterPiece(NESTED, 0) == 5;
    assert StringEnd(NESTED, 6, '\'') == 9;
    assert AfterPiece(NESTED, 5) == 9;
  }

  lemma ScannerSteps()
    ensures NextStep(NESTED, 0, Code) == Step(1, TemplateString, Blanked)
    ensures NextStep(NESTED, 1, TemplateString) == Step(7, TemplateString, Expression("'`'", true))
    ensures NextStep(NESTED, 7, TemplateString) == Step(8, Code, Blanked)
    ensures NextStep(NESTED, 8, Code) == Step(9, Code, Kept)
  {
    hide IsRegexStart;
    assert StringEnd(NESTED, 4, '\'') == 5;
    assert AfterPiece(NESTED, 3) == 6;
    assert CloseBrace(NESTED, 3, 1) == CloseBrace(NESTED, 6, 1) == 6;
    assert NESTED[3..6] == "'`'";
  }

  lemma QuotedBacktick()
    ensures IsBlank(Masked("'`'", 0, Code)) && |Masked("'`'", 0, Code)| == 3
  {
    var q := "'`'";
    assert StringEnd(q, 1, '\'') == 2;
    MaskedStep(q, 0, Code);
    hide Masked;
    QuotedLiteralIsErased(q, 1, '\'', 2, 3);
    AtTheEnd(q, '\'', Code);
    var w := SplitBlank(Masked(q, 1, SingleQuote), 2, "");
  }

  /** With an expression nested in a template of the expression they can differ: the reader takes a
      backtick inside the nested expression for the end of the template, and loses the closing brace the
      scanner finds. */
  lemma NestedTemplateMisleadsReader()
    ensures CloseBrace(NESTED, 0, 1) == |NESTED|
    ensures BlankThen(Masked(NESTED, 0, Code), 8, "}")
  {
    ReaderLosesEnd();
    ScannerSteps();
    QuotedBacktick();
    hide NextStep, Masked, CloseBrace, BlankThen, IsBlank;
    MaskedStep(NESTED, 0, Code);
    MaskedStep(NESTED, 1, TemplateString);
    MaskedStep(NESTED, 7, TemplateString);
    MaskedStep(NESTED, 8, Code);
    AtTheEnd(NESTED, '`', Code);
    assert NESTED[8..9] == "}";
    var inner := Masked("'`'", 0, Code);
    BlankParts(inner);
    assert Masked(NESTED, 8, Code) == "}";
    assert Masked(NESTED, 7, TemplateString) == " " + "}";
    assert Masked(NESTED, 1, TemplateString) == "  " + inner + " " + (" " + "}");
    BlankThenRest(" ", "}");
    BlankThenStep("  " + inner + " ", " " + "}", 1, "}", "  " + inner + " " + (" " + "}"), 7);
    BlankThenStep(" ", "  " + inner + " " + (" " + "}"), 7, "}", " " + ("  " + inner + " " + (" " + "}")), 8);
  }

  lemma BlankParts(inner: string)
    requires IsBlank(inner)
    ensures IsBlank(" ") && IsBlank("  " + inner + " ") && Spaces(1) == " "
  {
  }
}
