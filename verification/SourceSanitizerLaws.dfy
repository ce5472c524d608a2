/** What masking keeps of a text, and what it removes. */
module SourceSanitizerLaws {
  import opened Wrappers
  import opened DeletionGuards
  import opened SourceSanitizerState

  // ----- Length -----

  /** The masked text is longer than the text by one character for each template expression met
      that is never closed; so it has the text's length exactly when all are closed. */
  lemma {:induction false} LengthGrowsByUnclosed(s: string, i: nat, state: ScannerState)
    requires i <= |s|
    ensures |Masked(s, i, state)| == |s| - i + Unclosed(s, i, state)
    decreases |s|, |s| - i
  {
    hide NextStep;
    if i < |s| {
      var step := NextStep(s, i, state);
      LengthGrowsByUnclosed(s, step.next, step.state);
      if step.emit.Expression? {
        LengthGrowsByUnclosed(step.emit.value, 0, Code);
      }
    }
  }

  /** A text whose masked form is one character longer: its one expression is never closed. */
  lemma UnclosedExpressionLengthens()
    ensures Unclosed("`${", 0, Code) == 1 && |Masked("`${", 0, Code)| == |"`${"| + 1
  {
    var s := "`${";
    assert s[0] == '`' && s[1] == '$' && s[2] == '{';
    assert NextStep(s, 0, Code) == Step(1, TemplateString, Blanked);
    assert CloseBrace(s, 3, 1) == 3;
    assert NextStep(s, 1, TemplateString) == Step(3, TemplateString, Expression("", false)) by {
      assert s[3..3] == "";
    }
    hide NextStep, Masked;
    assert Unclosed("", 0, Code) == 0 && Unclosed(s, 3, TemplateString) == 0;
    assert Unclosed(s, 1, TemplateString) == 1;
    LengthGrowsByUnclosed(s, 0, Code);
  }

  // ----- Positions -----

  /** Each position holds the input character or a space. */
  ghost predicate Aligned(s: string, r: string) {
    |r| == |s| && forall j :: 0 <= j < |s| ==> r[j] == s[j] || r[j] == ' '
  }

  lemma AlignedSum(a: string, b: string, ra: string, rb: string)
    requires Aligned(a, ra) && Aligned(b, rb)
    ensures Aligned(a + b, ra + rb)
  {
  }

  lemma {:induction false} PositionsKeptOrBlank(s: string, i: nat, state: ScannerState)
    requires i <= |s| && Unclosed(s, i, state) == 0
    ensures Aligned(s[i..], Masked(s, i, state))
    decreases |s|, |s| - i
  {
    hide CodeStep, QuotedStep, CloseBrace, Aligned;
    if i < |s| {
      var step := NextStep(s, i, state);
      var piece := s[i..step.next];
      PositionsKeptOrBlank(s, step.next, step.state);
      if step.emit.Expression? {
        PositionsKeptOrBlank(step.emit.value, 0, Code);
        ExpressionAligned(s, i);
      } else {
        PlainAligned(piece, step.emit);
      }
      AlignedSum(piece, s[step.next..], Written(piece, step.emit), Masked(s, step.next, step.state));
      assert s[i..] == piece + s[step.next..];
    } else {
      PlainAligned("", Kept);
      assert s[i..] == "";
    }
  }

  lemma PlainAligned(piece: string, emit: Emit)
    requires !emit.Expression?
    ensures Aligned(piece, Written(piece, emit))
  {
  }

  lemma ExpressionAligned(s: string, i: nat)
    requires i < |s| && TemplateStep(s, i).emit.Expression? && TemplateStep(s, i).emit.closed
    requires Aligned(TemplateStep(s, i).emit.value[0..], Masked(TemplateStep(s, i).emit.value, 0, Code))
    ensures Aligned(s[i..TemplateStep(s, i).next], Written(s[i..TemplateStep(s, i).next], TemplateStep(s, i).emit))
  {
    hide CloseBrace, Masked;
    var step := TemplateStep(s, i);
    var value, masked := step.emit.value, Masked(step.emit.value, 0, Code);
    assert value[0..] == value && value == s[i + 2..step.next - 1];
    forall j | 0 <= j < step.next - i
      ensures ("  " + masked + " ")[j] == s[i..step.next][j] || ("  " + masked + " ")[j] == ' '
    {
      if 2 <= j < step.next - i - 1 {
        assert masked[j - 2] == value[j - 2] || masked[j - 2] == ' ';
      }
    }
  }

  // ----- What survives -----

  predicate IsPlain(c: char) {
    c !in {'/', '\'', '"', '`'}
  }

  /** Code without slashes and quotes passes unchanged. */
  lemma {:induction false} PlainCodeIsKept(s: string, i: nat)
    requires i <= |s| && forall j :: i <= j < |s| ==> IsPlain(s[j])
    ensures Masked(s, i, Code) == s[i..]
    decreases |s| - i
  {
    if i < |s| {
      assert NextStep(s, i, Code) == Step(i + 1, Code, Kept);
      PlainCodeIsKept(s, i + 1);
    }
  }

  predicate IsBlank(r: string) {
    forall j :: 0 <= j < |r| ==> r[j] == ' ' || r[j] == '\n'
  }

  lemma BlankSum(a: string, b: string)
    requires IsBlank(a) && IsBlank(b)
    ensures IsBlank(a + b)
  {
  }

  lemma WrittenBlank(piece: string, emit: Emit)
    requires emit.Blanked? || emit.Lines?
    ensures IsBlank(Written(piece, emit)) && |Written(piece, emit)| == |piece|
  {
  }

  function QuoteState(quote: char): ScannerState
    requires quote in {'\'', '"'}
  {
    if quote == '\'' then SingleQuote else DoubleQuote
  }

  lemma QuotedStepFacts(s: string, i: nat, quote: char)
    requires i < |s| && quote in {'\'', '"'}
    ensures var step := NextStep(s, i, QuoteState(quote));
            && (step.emit.Blanked? || step.emit.Lines?)
            && if step.state == Code then StringEnd(s, i, quote) == i && step.next == i + 1
               else step.state == QuoteState(quote) && StringEnd(s, i, quote) == StringEnd(s, step.next, quote)
  {
  }

  lemma AtTheEnd(s: string, quote: char, state: ScannerState)
    ensures Masked(s, |s|, state) == "" && IsBlank("")
    ensures StringEnd(s, |s|, quote) == |s| && CommentEnd(s, |s|) == |s| && LineEnd(s, |s|) == |s|
  {
  }

  lemma MaskedStep(s: string, i: nat, state: ScannerState)
    requires i < |s|
    ensures var step := NextStep(s, i, state);
            Masked(s, i, state) == Written(s[i..step.next], step.emit) + Masked(s, step.next, step.state)
  {
  }

  /** "masked" begins with a blank text of the given length, and then comes "rest". */
  ghost predicate BlankThen(masked: string, length: nat, rest: string) {
    |masked| >= length && IsBlank(masked[..length]) && masked[length..] == rest
  }

  lemma BlankThenStep(first: string, masked: string, length: nat, rest: string, whole: string, total: nat)
    requires IsBlank(first) && BlankThen(masked, length, rest)
    requires whole == first + masked && total == |first| + length
    ensures BlankThen(whole, total, rest)
  {
    BlankSum(first, masked[..length]);
    assert (first + masked)[..|first| + length] == first + masked[..length];
    assert (first + masked)[|first| + length..] == masked[length..];
  }

  lemma BlankThenRest(first: string, rest: string)
    requires IsBlank(first)
    ensures BlankThen(first + rest, |first|, rest)
  {
    assert (first + rest)[..|first|] == first;
  }

  /** What is masked after a literal or comment that ends at "end": code, or nothing. */
  function CodeAfter(s: string, end: nat): string {
    if end < |s| then Masked(s, end + 1, Code) else ""
  }

  lemma QuotedPiece(s: string, i: nat, quote: char) returns (first: string, next: nat, closed: bool)
    requires i < |s| && quote in {'\'', '"'}
    ensures i < next <= |s| && IsBlank(first) && |first| == next - i && (closed ==> next == i + 1)
    ensures Masked(s, i, QuoteState(quote)) == first + Masked(s, next, if closed then Code else QuoteState(quote))
    ensures StringEnd(s, i, quote) == if closed then i else StringEnd(s, next, quote)
  {
    hide NextStep, StringEnd, Masked, Written;
    var step := NextStep(s, i, QuoteState(quote));
    QuotedStepFacts(s, i, quote);
    MaskedStep(s, i, QuoteState(quote));
    WrittenBlank(s[i..step.next], step.emit);
    first, next, closed := Written(s[i..step.next], step.emit), step.next, step.state == Code;
  }

  /** Nothing of a quoted literal survives: up to its closing quote, where the skipping function
      used inside template expressions finds it, the masked text is blank; after it comes code. */
  lemma {:induction false} QuotedLiteralIsErased(s: string, i: nat, quote: char, end: nat, stop: nat)
    requires i <= |s| && quote in {'\'', '"'}
    requires end == StringEnd(s, i, quote) && stop == Min(end + 1, |s|)
    ensures i <= stop && BlankThen(Masked(s, i, QuoteState(quote)), stop - i, CodeAfter(s, end))
    decreases |s| - i
  {
    AtTheEnd(s, quote, QuoteState(quote));
    hide StringEnd, Masked, IsBlank, BlankThen, QuoteState;
    if i == |s| {
      BlankThenRest("", "");
    } else {
      var first, next, closed := QuotedPiece(s, i, quote);
      if closed {
        BlankThenRest(first, Masked(s, next, Code));
      } else {
        hide CodeAfter, Min;
        QuotedLiteralIsErased(s, next, quote, end, stop);
        BlankThenStep(first, Masked(s, next, QuoteState(quote)), stop - next, CodeAfter(s, end),
                      Masked(s, i, QuoteState(quote)), stop - i);
      }
    }
  }

  lemma LinePiece(s: string, i: nat)
    requires i < |s|
    ensures if s[i] == '\n' then LineEnd(s, i) == i && Masked(s, i, SingleLineComment) == "\n" + Masked(s, i + 1, Code)
            else
              && LineEnd(s, i) == LineEnd(s, i + 1)
              && Masked(s, i, SingleLineComment) == " " + Masked(s, i + 1, SingleLineComment)
  {
    hide Masked, CodeStep;
    MaskedStep(s, i, SingleLineComment);
    assert s[i..i + 1] == [s[i]];
    assert Spaces(1) == " ";
  }

  /** Nothing of a line comment survives; its newline does. */
  lemma {:induction false} LineCommentIsErased(s: string, i: nat, end: nat)
    requires i <= |s| && end == LineEnd(s, i)
    ensures i <= end
    ensures Masked(s, i, SingleLineComment)
            == Spaces(end - i) + (if end < |s| then "\n" + Masked(s, end + 1, Code) else "")
    decreases |s| - i
  {
    AtTheEnd(s, '/', SingleLineComment);
    hide Masked, LineEnd;
    assert Spaces(0) == "";
    if i < |s| {
      LinePiece(s, i);
      if s[i] != '\n' {
        LineCommentIsErased(s, i + 1, end);
        var rest := if end < |s| then "\n" + Masked(s, end + 1, Code) else "";
        assert Spaces(end - i) == " " + Spaces(end - i - 1);
        SumAssociates(" ", Spaces(end - i - 1), rest);
      }
    }
  }

  /** A block comment ends at the first star and slash. */
  lemma {:induction false} CommentEndIsFirst(s: string, i: nat, j: nat)
    requires i <= j && j + 1 < |s| && s[j] == '*' && s[j + 1] == '/'
    ensures CommentEnd(s, i) <= j + 1
    decreases j - i
  {
    if i < j && !(s[i] == '*' && s[i + 1] == '/') {
      CommentEndIsFirst(s, i + 1, j);
    }
  }

  /** Nothing of a block comment survives but its newlines. */
  lemma {:induction false} BlockCommentIsErased(s: string, i: nat)
    requires i <= |s|
    ensures var end := CommentEnd(s, i);
            && i <= end
            && BlankThen(Masked(s, i, MultiLineComment), Min(end + 1, |s|) - i, CodeAfter(s, end))
    decreases |s| - i
  {
    AtTheEnd(s, '/', MultiLineComment);
    hide NextStep, CommentEnd, Written, Masked, IsBlank, BlankThen;
    if i == |s| {
      BlankThenRest("", "");
    } else {
      var step := NextStep(s, i, MultiLineComment);
      BlockStepFacts(s, i);
      MaskedStep(s, i, MultiLineComment);
      WrittenBlank(s[i..step.next], step.emit);
      if step.state == Code {
        BlankThenRest(Written(s[i..step.next], step.emit), Masked(s, i + 2, Code));
      } else {
        BlockCommentIsErased(s, i + 1);
        var stop := Min(CommentEnd(s, i) + 1, |s|);
        BlankThenStep(Written(s[i..step.next], step.emit), Masked(s, i + 1, MultiLineComment), stop - (i + 1),
                      CodeAfter(s, CommentEnd(s, i)), Masked(s, i, MultiLineComment), stop - i);
      }
    }
  }

  lemma BlockStepFacts(s: string, i: nat)
    requires i < |s|
    ensures var step := NextStep(s, i, MultiLineComment);
            && (step.emit.Blanked? || step.emit.Lines?)
            && if step.state == Code then CommentEnd(s, i) == i + 1 && step.next == i + 2
               else step.state == MultiLineComment && step.next == i + 1 && CommentEnd(s, i) == CommentEnd(s, i + 1)
  {
  }

  lemma SumAssociates(a: string, b: string, c: string)
    ensures (a + b) + c == a + (b + c)
  {
  }

  // ----- Regular expressions and template text -----

  /** Nothing of a regular expression survives but newlines: up to its last flag the masked text is
      blank, and then comes code. */
  lemma RegexIsErased(s: string, i: nat)
    requires i < |s| && s[i] == '/' && !At(s, i + 1, '/') && !At(s, i + 1, '*') && IsRegexStart(s, i)
    ensures var stop := Min(RegexEnd(s, i + 1, false) + 1, |s|);
            i < stop && BlankThen(Masked(s, i, Code), stop - i, Masked(s, stop, Code))
  {
    hide IsRegexStart, RegexEnd, Written, IsBlank, BlankThen, Masked;
    var step := NextStep(s, i, Code);
    MaskedStep(s, i, Code);
    WrittenBlank(s[i..step.next], step.emit);
    BlankThenRest(Written(s[i..step.next], step.emit), Masked(s, step.next, Code));
  }

  /** The backtick or expression that ends the template text at i. */
  function TemplateTextEnd(s: string, i: nat): (r: nat)
    ensures r <= |s| && (i <= |s| ==> i <= r)
    ensures r < |s| ==> s[r] == '`' || (s[r] == '$' && At(s, r + 1, '{'))
    decreases |s| - i
  {
    if i >= |s| then |s|
    else if s[i] == '\\' then TemplateTextEnd(s, i + 2)
    else if s[i] == '`' || (s[i] == '$' && At(s, i + 1, '{')) then i
    else TemplateTextEnd(s, i + 1)
  }

  lemma TemplateTextStep(s: string, i: nat)
    requires i < |s| && TemplateTextEnd(s, i) != i
    ensures var step := NextStep(s, i, TemplateString);
            && step.emit.Lines? && step.state == TemplateString
            && TemplateTextEnd(s, i) == TemplateTextEnd(s, step.next)
  {
  }

  /** Nothing of a template's text survives but newlines. */
  lemma {:induction false} TemplateTextIsErased(s: string, i: nat)
    requires i <= |s|
    ensures var end := TemplateTextEnd(s, i);
            BlankThen(Masked(s, i, TemplateString), end - i, Masked(s, end, TemplateString))
    decreases |s| - i
  {
    var end := TemplateTextEnd(s, i);
    if i == end || i == |s| {
      assert "" + Masked(s, i, TemplateString) == Masked(s, i, TemplateString);
      BlankThenRest("", Masked(s, i, TemplateString));
    } else {
      TemplateTextStep(s, i);
      hide NextStep, TemplateTextEnd, Written, Masked, IsBlank, BlankThen;
      var step := NextStep(s, i, TemplateString);
      MaskedStep(s, i, TemplateString);
      WrittenBlank(s[i..step.next], step.emit);
      TemplateTextIsErased(s, step.next);
      BlankThenStep(Written(s[i..step.next], step.emit), Masked(s, step.next, TemplateString), end - step.next,
                    Masked(s, end, TemplateString), Masked(s, i, TemplateString), end - i);
    }
  }

  /** After the text comes code behind the backtick, or the masked expression and more text. */
  lemma AfterTemplateText(s: string, i: nat)
    requires i < |s| && TemplateTextEnd(s, i) == i
    ensures s[i] == '`' ==> Masked(s, i, TemplateString) == " " + Masked(s, i + 1, Code)
    ensures s[i] != '`' ==>
      var end := CloseBrace(s, i + 2, 1);
      Masked(s, i, TemplateString)
      == "  " + Masked(s[i + 2..end], 0, Code) + " " + Masked(s, Min(end + 1, |s|), TemplateString)
  {
    hide CloseBrace, Masked;
    MaskedStep(s, i, TemplateString);
    assert Spaces(1) == " ";
  }

  // ----- Where a template expression ends -----

  /** Opening minus closing braces. */
  function Braces(s: string): int {
    if s == "" then 0
    else Braces(s[..|s| - 1]) + (if s[|s| - 1] == '{' then 1 else if s[|s| - 1] == '}' then -1 else 0)
  }

  lemma {:induction false} BracesFront(c: char, s: string)
    ensures Braces([c] + s) == Braces(s) + (if c == '{' then 1 else if c == '}' then -1 else 0)
  {
    if s != "" {
      BracesFront(c, s[..|s| - 1]);
      assert ([c] + s)[..|s|] == [c] + s[..|s| - 1];
    } else {
      assert [c] + s == [c] && [c][..0] == "";
    }
  }

  /** Where there is nothing to skip, the closing brace is the first one that leaves more braces
      closed than opened. */
  lemma {:induction false} CloseBraceBalances(s: string, i: nat, depth: nat, j: nat)
    requires depth >= 1 && i <= j <= |s| && forall k :: i <= k < |s| ==> IsPlain(s[k])
    ensures var end := CloseBrace(s, i, depth);
            && (j <= end ==> depth + Braces(s[i..j]) >= 1)
            && (j == end < |s| ==> depth + Braces(s[i..j]) == 1)
    decreases j - i
  {
    if i < j {
      assert s[i..j] == [s[i]] + s[i + 1..j];
      BracesFront(s[i], s[i + 1..j]);
      if !(s[i] == '}' && depth == 1) {
        var after := if s[i] == '{' then depth + 1 else if s[i] == '}' then depth - 1 else depth;
        assert CloseBrace(s, i, depth) == CloseBrace(s, i + 1, after);
        CloseBraceBalances(s, i + 1, after, j);
      }
    }
  }
}
