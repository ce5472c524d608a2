/** The source masker: blanks comments and string literals, keeps code, and masks the code inside
    template expressions. */
module SourceSanitizer {
  import opened Wrappers
  import opened DeletionGuards
  import opened SourceSanitizerState
  import opened SourceSanitizerLaws

  // ----- Looking back -----

  method PreviousNonWhitespace(content: string, end: nat) returns (c: Option<char>)
    requires end <= |content|
    ensures c == var last := LastNonSpace(content, end); if last.None? then None else Some(content[last.value])
  {
    var i := end;
    while i > 0
      invariant 0 <= i <= end && LastNonSpace(content, i) == LastNonSpace(content, end)
    {
      if !IsSpace(content[i - 1]) {
        return Some(content[i - 1]);
      }
      i := i - 1;
    }
    return None;
  }

  method ReadIdentifierStart(content: string, index: nat) returns (start: nat)
    requires index < |content|
    ensures start == IdentifierStart(content, index)
  {
    start := index;
    while start > 0 && IsIdentifierCharacter(content[start - 1])
      invariant start <= index && IdentifierStart(content, start) == IdentifierStart(content, index)
    {
      start := start - 1;
    }
  }

  method IsRegexLiteralStart(content: string, index: nat) returns (starts: bool)
    requires index < |content|
    ensures starts <==> IsRegexStart(content, index)
  {
    hide IsSpace, IdentifierStart, IsRegexPrefixKeyword, IsRegexPrefixPunctuator, IsIdentifierCharacter;
    var i := index;
    while i > 0
      invariant 0 <= i <= index && LastNonSpace(content, i) == LastNonSpace(content, index)
    {
      var ch := content[i - 1];
      if !IsSpace(ch) {
        assert LastNonSpace(content, index) == Some(i - 1);
        hide LastNonSpace;
        if ch == '+' || ch == '-' {
          var previous := PreviousNonWhitespace(content, i - 1);
          if previous == Some(ch) {
            return false;
          }
        }
        if IsIdentifierCharacter(ch) {
          var wordStart := ReadIdentifierStart(content, i - 1);
          return IsRegexPrefixKeyword(content[wordStart..i]);
        }
        if ch == '<' && index + 1 < |content| && (IsLetter(content[index + 1]) || content[index + 1] == '>') {
          return false;
        }
        return IsRegexPrefixPunctuator(ch);
      }
      i := i - 1;
    }
    return true;
  }

  // ----- Skipping -----

  method SkipStringLiteral(content: string, startIndex: nat) returns (end: nat)
    requires startIndex < |content|
    ensures end == StringEnd(content, startIndex + 1, content[startIndex])
  {
    var quote := content[startIndex];
    var i := startIndex + 1;
    while i < |content|
      invariant StringEnd(content, i, quote) == StringEnd(content, startIndex + 1, quote)
    {
      if content[i] == '\\' {
        i := i + 2;
        continue;
      }
      if content[i] == quote {
        return i;
      }
      i := i + 1;
    }
    return |content|;
  }

  method SkipRegexLiteral(content: string, startIndex: nat) returns (end: nat)
    requires startIndex < |content|
    ensures end == RegexEnd(content, startIndex + 1, false)
  {
    var inCharacterClass := false;
    var i := startIndex + 1;
    while i < |content|
      invariant RegexEnd(content, i, inCharacterClass) == RegexEnd(content, startIndex + 1, false)
      decreases |content| - i
    {
      var ch := content[i];
      if ch == '\\' {
        i := i + 2;
        continue;
      }
      if ch == '[' {
        inCharacterClass := true;
      } else if ch == ']' {
        inCharacterClass := false;
      } else if ch == '/' && !inCharacterClass {
        while i + 1 < |content| && IsLetter(content[i + 1])
          invariant i < |content| && FlagsEnd(content, i) == RegexEnd(content, startIndex + 1, false)
        {
          i := i + 1;
        }
        return i;
      }
      i := i + 1;
    }
    return |content|;
  }

  // ----- Template expressions -----

  /** The end of the comment, literal or single character at i. */
  method SkipPiece(content: string, i: nat) returns (after: nat)
    requires i < |content|
    ensures after == AfterPiece(content, i)
  {
    hide LineEnd, CommentEnd, StringEnd, RegexEnd, IsRegexStart;
    var ch := content[i];
    if ch == '/' && At(content, i + 1, '/') {
      return Min(LineEnd(content, i + 2) + 1, |content|);
    }
    if ch == '/' && At(content, i + 1, '*') {
      return Min(CommentEnd(content, i + 2) + 1, |content|);
    }
    if ch == '/' {
      var regex := IsRegexLiteralStart(content, i);
      if regex {
        var end := SkipRegexLiteral(content, i);
        return Min(end + 1, |content|);
      }
    }
    if ch == '\'' || ch == '"' || ch == '`' {
      var end := SkipStringLiteral(content, i);
      return Min(end + 1, |content|);
    }
    return i + 1;
  }

  /** The text between the braces, and where the closing one is. */
  method ReadTemplateExpression(content: string, openBraceIndex: nat) returns (value: string, endIndex: nat)
    requires At(content, openBraceIndex, '{')
    ensures endIndex == CloseBrace(content, openBraceIndex + 1, 1)
    ensures openBraceIndex < endIndex <= |content| && value == content[openBraceIndex + 1..endIndex]
    ensures endIndex < |content| ==> content[endIndex] == '}'
  {
    hide AfterPiece;
    var start := openBraceIndex + 1;
    var depth := 1;
    value := "";
    var i := start;
    while i < |content|
      invariant start <= i <= |content| && depth >= 1 && value == content[start..i]
      invariant CloseBrace(content, i, depth) == CloseBrace(content, start, 1)
    {
      if content[i] == '{' {
        depth := depth + 1;
      } else if content[i] == '}' {
        depth := depth - 1;
        if depth == 0 {
          return value, i;
        }
      }
      var after := i + 1;
      if content[i] != '{' && content[i] != '}' {
        after := SkipPiece(content, i);
      }
      value := value + content[i..after];
      assert value == content[start..after];
      i := after;
    }
    return value, |content|;
  }

  // ----- The scanner -----

  method ScanCode(content: string, i: nat) returns (written: string, next: nat, state: ScannerState)
    requires i < |content|
    ensures var step := CodeStep(content, i);
            next == step.next && state == step.state && written == Written(content[i..next], step.emit)
  {
    hide IsRegexStart, RegexEnd, Masked;
    var ch := content[i];
    if ch == '/' && At(content, i + 1, '/') {
      return "  ", i + 2, SingleLineComment;
    }
    if ch == '/' && At(content, i + 1, '*') {
      return "  ", i + 2, MultiLineComment;
    }
    if ch == '/' {
      var regex := IsRegexLiteralStart(content, i);
      if regex {
        var end := SkipRegexLiteral(content, i);
        var after := Min(end + 1, |content|);
        return BlankPreservingNewlines(content[i..after]), after, Code;
      }
    }
    if ch == '\'' {
      return " ", i + 1, SingleQuote;
    }
    if ch == '"' {
      return " ", i + 1, DoubleQuote;
    }
    if ch == '`' {
      return " ", i + 1, TemplateString;
    }
    return [ch], i + 1, Code;
  }

  method ScanQuoted(content: string, i: nat, current: ScannerState, quote: char)
    returns (written: string, next: nat, state: ScannerState)
    requires i < |content|
    ensures var step := QuotedStep(content, i, current, quote);
            next == step.next && state == step.state && written == Written(content[i..next], step.emit)
  {
    hide Masked;
    if content[i] == '\\' {
      if i + 1 < |content| {
        return "  ", i + 2, current;
      }
      return " ", i + 1, current;
    }
    if content[i] == quote {
      return " ", i + 1, Code;
    }
    return if content[i] == '\n' then "\n" else " ", i + 1, current;
  }

  method ScanTemplate(content: string, i: nat) returns (written: string, next: nat, state: ScannerState)
    requires i < |content|
    ensures var step := TemplateStep(content, i);
            next == step.next && state == step.state && written == Written(content[i..next], step.emit)
    decreases |content|, 0
  {
    hide Masked, CloseBrace;
    var ch := content[i];
    if ch == '\\' {
      if i + 1 < |content| {
        return if content[i + 1] == '\n' then " \n" else "  ", i + 2, TemplateString;
      }
      return " ", i + 1, TemplateString;
    }
    if ch == '$' && At(content, i + 1, '{') {
      var value, end := ReadTemplateExpression(content, i + 1);
      var masked := StripCommentsAndStringLiterals(value);
      return "  " + masked + " ", Min(end + 1, |content|), TemplateString;
    }
    if ch == '`' {
      return " ", i + 1, Code;
    }
    return if ch == '\n' then "\n" else " ", i + 1, TemplateString;
  }

  method ScanComment(content: string, i: nat, current: ScannerState) returns (written: string, next: nat,
                     state: ScannerState)
    requires i < |content| && (current.SingleLineComment? || current.MultiLineComment?)
    ensures var step := NextStep(content, i, current);
            next == step.next && state == step.state && written == Written(content[i..next], step.emit)
  {
    hide Masked, CodeStep, QuotedStep, TemplateStep;
    if current.SingleLineComment? {
      if content[i] == '\n' {
        return "\n", i + 1, Code;
      }
      return " ", i + 1, SingleLineComment;
    }
    if content[i] == '*' && At(content, i + 1, '/') {
      return "  ", i + 2, Code;
    }
    return if content[i] == '\n' then "\n" else " ", i + 1, MultiLineComment;
  }

  /** Masks a text; see SourceSanitizerLaws for what the result keeps and what it erases. */
  method StripCommentsAndStringLiterals(content: string) returns (result: string)
    ensures result == Masked(content, 0, Code)
    ensures |result| == |content| + Unclosed(content, 0, Code)
    ensures Unclosed(content, 0, Code) == 0 ==> Aligned(content, result)
    decreases |content|, 1
  {
    result := "";
    var state := Code;
    var i := 0;
    hide Masked, NextStep, Written, Unclosed, Aligned, CodeStep, QuotedStep, TemplateStep;
    while i < |content|
      invariant 0 <= i <= |content|
      invariant result + Masked(content, i, state) == Masked(content, 0, Code)
    {
      MaskedStep(content, i, state);
      StepOfState(content, i, state);
      var written: string;
      var before := result;
      ghost var at, was := i, state;
      match state {
      case Code => written, i, state := ScanCode(content, i);
      case SingleLineComment => written, i, state := ScanComment(content, i, SingleLineComment);
      case MultiLineComment => written, i, state := ScanComment(content, i, MultiLineComment);
      case SingleQuote => written, i, state := ScanQuoted(content, i, SingleQuote, '\'');
      case DoubleQuote => written, i, state := ScanQuoted(content, i, DoubleQuote, '"');
      case TemplateString => written, i, state := ScanTemplate(content, i);
      }
      assert Masked(content, at, was) == written + Masked(content, i, state);
      result := before + written;
      SumAssociates(before, written, Masked(content, i, state));
    }
    AtTheEnd(content, '/', state);
    LengthGrowsByUnclosed(content, 0, Code);
    if Unclosed(content, 0, Code) == 0 {
      PositionsKeptOrBlank(content, 0, Code);
      assert content[0..] == content;
    }
  }

  lemma StepOfState(s: string, i: nat, state: ScannerState)
    requires i < |s|
    ensures state.Code? ==> NextStep(s, i, state) == CodeStep(s, i)
    ensures state.SingleQuote? ==> NextStep(s, i, state) == QuotedStep(s, i, state, '\'')
    ensures state.DoubleQuote? ==> NextStep(s, i, state) == QuotedStep(s, i, state, '"')
    ensures state.TemplateString? ==> NextStep(s, i, state) == TemplateStep(s, i)
  {
  }
}
