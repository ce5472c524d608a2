/** How the source masker divides a text: literals, comments, template expressions, and code. */
module SourceSanitizerState {
  import opened Wrappers
  import opened DeletionGuards

  datatype ScannerState =
    Code | SingleLineComment | MultiLineComment | SingleQuote | DoubleQuote | TemplateString

  const REGEX_PREFIX_KEYWORDS: set<string> := {
    "await", "case", "delete", "do", "else", "in", "instanceof", "new", "return", "throw", "typeof", "void", "yield"
  }

  predicate IsLetter(c: char) {
    'a' <= c <= 'z' || 'A' <= c <= 'Z'
  }

  predicate IsIdentifierCharacter(c: char) {
    c == '$' || c == '_' || IsLetter(c) || '0' <= c <= '9'
  }

  predicate At(s: string, i: nat, c: char) {
    i < |s| && s[i] == c
  }

  // ----- Looking back: is a slash the start of a regular expression? -----

  /** The last position before "end" that is not white space. */
  function LastNonSpace(s: string, end: nat): (r: Option<nat>)
    requires end <= |s|
    ensures r.Some? ==> r.value < end && !IsSpace(s[r.value])
    ensures forall j :: (if r.Some? then r.value + 1 else 0) <= j < end ==> IsSpace(s[j])
  {
    if end == 0 then None
    else if IsSpace(s[end - 1]) then LastNonSpace(s, end - 1)
    else Some(end - 1)
  }

  function IdentifierStart(s: string, i: nat): (r: nat)
    requires i < |s|
    ensures r <= i && forall j :: r <= j < i ==> IsIdentifierCharacter(s[j])
    ensures r > 0 ==> !IsIdentifierCharacter(s[r - 1])
  {
    if i > 0 && IsIdentifierCharacter(s[i - 1]) then IdentifierStart(s, i - 1) else i
  }

  predicate IsRegexPrefixKeyword(word: string) {
    word in REGEX_PREFIX_KEYWORDS
  }

  predicate IsRegexPrefixPunctuator(c: char) {
    c in "([{:;,=!?&|+-*~^%<>"
  }

  predicate IsRegexStart(s: string, index: nat)
    requires index < |s|
  {
    var last := LastNonSpace(s, index);
    if last.None? then true
    else
      var j, c := last.value, s[last.value];
      if (c == '+' || c == '-') && LastNonSpace(s, j).Some? && s[LastNonSpace(s, j).value] == c then false
      else if IsIdentifierCharacter(c) then IsRegexPrefixKeyword(s[IdentifierStart(s, j)..j + 1])
      else if c == '<' && index + 1 < |s| && (IsLetter(s[index + 1]) || s[index + 1] == '>') then false
      else IsRegexPrefixPunctuator(c)
  }

  // ----- Ends of literals and comments; |s| when they are not closed -----

  /** The closing quote at or after i. */
  function StringEnd(s: string, i: nat, quote: char): (r: nat)
    ensures i <= r || r == |s|
    ensures r <= |s| && (r < |s| ==> i <= r && s[r] == quote)
    decreases |s| - i
  {
    if i >= |s| then |s|
    else if s[i] == '\\' then StringEnd(s, i + 2, quote)
    else if s[i] == quote then i
    else StringEnd(s, i + 1, quote)
  }

  function FlagsEnd(s: string, i: nat): (r: nat)
    requires i < |s|
    ensures i <= r < |s|
    decreases |s| - i
  {
    if i + 1 < |s| && IsLetter(s[i + 1]) then FlagsEnd(s, i + 1) else i
  }

  /** The last character of the regular expression whose body continues at i. */
  function RegexEnd(s: string, i: nat, inClass: bool): (r: nat)
    ensures r <= |s| && (r < |s| ==> i <= r)
    decreases |s| - i
  {
    if i >= |s| then |s|
    else if s[i] == '\\' then RegexEnd(s, i + 2, inClass)
    else if s[i] == '[' then RegexEnd(s, i + 1, true)
    else if s[i] == ']' then RegexEnd(s, i + 1, false)
    else if s[i] == '/' && !inClass then FlagsEnd(s, i)
    else RegexEnd(s, i + 1, inClass)
  }

  /** indexOf('\n', i) */
  function LineEnd(s: string, i: nat): (r: nat)
    ensures r <= |s| && (r < |s| ==> i <= r && s[r] == '\n')
    ensures forall j :: i <= j < r ==> s[j] != '\n'
    decreases |s| - i
  {
    if i >= |s| then |s| else if s[i] == '\n' then i else LineEnd(s, i + 1)
  }

  /** The slash of the first star and slash at or after i. */
  function CommentEnd(s: string, i: nat): (r: nat)
    ensures r <= |s| && (r < |s| ==> i < r && s[r - 1] == '*' && s[r] == '/')
    decreases |s| - i
  {
    if i + 1 >= |s| then |s|
    else if s[i] == '*' && s[i + 1] == '/' then i + 1
    else CommentEnd(s, i + 1)
  }

  // ----- Template expressions -----

  /** Where reading an expression goes on after the character, comment or literal at i. */
  function AfterPiece(s: string, i: nat): (r: nat)
    requires i < |s|
    ensures i < r <= |s|
  {
    if At(s, i, '/') && At(s, i + 1, '/') then Min(LineEnd(s, i + 2) + 1, |s|)
    else if At(s, i, '/') && At(s, i + 1, '*') then Min(CommentEnd(s, i + 2) + 1, |s|)
    else if At(s, i, '/') && IsRegexStart(s, i) then Min(RegexEnd(s, i + 1, false) + 1, |s|)
    else if s[i] in {'\'', '"', '`'} then Min(StringEnd(s, i + 1, s[i]) + 1, |s|)
    else i + 1
  }

  /** The brace that closes the expression, |s| when none does. */
  function CloseBrace(s: string, i: nat, depth: nat): (r: nat)
    ensures r <= |s| && (r < |s| ==> i <= r && s[r] == '}')
    decreases |s| - i
  {
    if i >= |s| then |s|
    else if s[i] == '{' then CloseBrace(s, i + 1, depth + 1)
    else if s[i] == '}' then (if depth <= 1 then i else CloseBrace(s, i + 1, depth - 1))
    else CloseBrace(s, AfterPiece(s, i), depth)
  }

  // ----- One step of the scanner -----

  /** What a step writes for the characters it consumes: themselves, spaces, spaces but for
      newlines, or a masked template expression. */
  datatype Emit = Kept | Blanked | Lines | Expression(value: string, closed: bool)

  datatype Step = Step(next: nat, state: ScannerState, emit: Emit)

  function CodeStep(s: string, i: nat): (r: Step)
    requires i < |s|
    ensures i < r.next <= |s| && !r.emit.Expression?
  {
    if At(s, i, '/') && At(s, i + 1, '/') then Step(i + 2, SingleLineComment, Blanked)
    else if At(s, i, '/') && At(s, i + 1, '*') then Step(i + 2, MultiLineComment, Blanked)
    else if At(s, i, '/') && IsRegexStart(s, i) then Step(Min(RegexEnd(s, i + 1, false) + 1, |s|), Code, Lines)
    else if s[i] == '\'' then Step(i + 1, SingleQuote, Blanked)
    else if s[i] == '"' then Step(i + 1, DoubleQuote, Blanked)
    else if s[i] == '`' then Step(i + 1, TemplateString, Blanked)
    else Step(i + 1, Code, Kept)
  }

  function QuotedStep(s: string, i: nat, state: ScannerState, quote: char): (r: Step)
    requires i < |s|
    ensures i < r.next <= |s| && !r.emit.Expression?
  {
    if s[i] == '\\' then Step(Min(i + 2, |s|), state, Blanked)
    else if s[i] == quote then Step(i + 1, Code, Blanked)
    else Step(i + 1, state, Lines)
  }

  function TemplateStep(s: string, i: nat): (r: Step)
    requires i < |s|
    ensures i < r.next <= |s|
    ensures r.emit.Expression? ==> i + 2 <= |s| && (if r.emit.closed then i + 3 <= r.next else r.next == |s|)
    ensures r.emit.Expression? ==> r.emit.value == s[i + 2..if r.emit.closed then r.next - 1 else |s|]
  {
    if s[i] == '\\' then Step(Min(i + 2, |s|), TemplateString, Lines)
    else if s[i] == '$' && At(s, i + 1, '{') then
      var end := CloseBrace(s, i + 2, 1);
      Step(Min(end + 1, |s|), TemplateString, Expression(s[i + 2..end], end < |s|))
    else if s[i] == '`' then Step(i + 1, Code, Blanked)
    else Step(i + 1, TemplateString, Lines)
  }

  function NextStep(s: string, i: nat, state: ScannerState): (r: Step)
    requires i < |s|
    ensures i < r.next <= |s|
    ensures r.emit.Expression? ==> |r.emit.value| + 2 <= |s| - i
    ensures r.emit.Expression? && !r.emit.closed ==> r.next == |s|
    ensures r.emit.Expression? ==> |r.emit.value| == (if r.emit.closed then r.next - i - 3 else |s| - i - 2)
  {
    match state
    case Code => CodeStep(s, i)
    case SingleLineComment => if s[i] == '\n' then Step(i + 1, Code, Kept) else Step(i + 1, SingleLineComment, Blanked)
    case MultiLineComment =>
      if At(s, i, '*') && At(s, i + 1, '/') then Step(i + 2, Code, Blanked) else Step(i + 1, MultiLineComment, Lines)
    case SingleQuote => QuotedStep(s, i, SingleQuote, '\'')
    case DoubleQuote => QuotedStep(s, i, DoubleQuote, '"')
    case TemplateString => TemplateStep(s, i)
  }

  // ----- The masked text -----

  function Spaces(n: nat): (r: string)
    ensures |r| == n && forall j :: 0 <= j < n ==> r[j] == ' '
  {
    seq(n, _ => ' ')
  }

  function BlankPreservingNewlines(s: string): (r: string)
    ensures |r| == |s| && forall j :: 0 <= j < |s| ==> r[j] == if s[j] == '\n' then '\n' else ' '
  {
    seq(|s|, j requires 0 <= j < |s| => if s[j] == '\n' then '\n' else ' ')
  }

  function Written(consumed: string, emit: Emit): string
    decreases |if emit.Expression? then emit.value else ""|, 2, 0
  {
    match emit
    case Kept => consumed
    case Blanked => Spaces(|consumed|)
    case Lines => BlankPreservingNewlines(consumed)
    case Expression(value, _) => "  " + Masked(value, 0, Code) + " "
  }

  function Masked(s: string, i: nat, state: ScannerState): string
    requires i <= |s|
    decreases |s|, 1, |s| - i
  {
    if i == |s| then ""
    else
      var step := NextStep(s, i, state);
      Written(s[i..step.next], step.emit) + Masked(s, step.next, step.state)
  }

  /** How many template expressions met on the way, nested ones included, are never closed. */
  function Unclosed(s: string, i: nat, state: ScannerState): nat
    requires i <= |s|
    decreases |s|, |s| - i
  {
    if i == |s| then 0
    else
      var step := NextStep(s, i, state);
      (if step.emit.Expression? then (if step.emit.closed then 0 else 1) + Unclosed(step.emit.value, 0, Code) else 0)
      + Unclosed(s, step.next, step.state)
  }
}
