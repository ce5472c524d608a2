/** Where literals end and regular expressions start, told by the text alone. */
module SourceSanitizerLexing {
  import opened Wrappers
  import opened DeletionGuards
  import opened SourceSanitizerState

  // ----- Escapes -----

  /** The character at k is escaped: of the backslashes right before it, from i on, there is an odd
      number. */
  predicate Escaped(s: string, i: nat, k: nat)
    requires k <= |s|
  {
    k > i && s[k - 1] == '\\' && !Escaped(s, i, k - 1)
  }

  lemma {:induction false} EscapedLater(s: string, i: nat, k: nat)
    requires i < |s| && k <= |s| && (if s[i] == '\\' then i + 2 else i + 1) <= k
    ensures Escaped(s, i, k) <==> Escaped(s, if s[i] == '\\' then i + 2 else i + 1, k)
    decreases k
  {
    var next := if s[i] == '\\' then i + 2 else i + 1;
    if k > next {
      EscapedLater(s, i, k - 1);
    } else if next == i + 2 {
      assert Escaped(s, i, i + 1) by { assert !Escaped(s, i, i); }
    }
  }

  /** A quote that is not escaped. */
  predicate ClosesAt(s: string, i: nat, quote: char, k: nat)
    requires k < |s|
  {
    s[k] == quote && !Escaped(s, i, k)
  }

  /** A literal ends at its first quote that is not escaped, or not at all. */
  lemma {:induction false} StringEndsAtFirstQuote(s: string, i: nat, quote: char)
    requires i <= |s| && quote != '\\'
    ensures var end := StringEnd(s, i, quote);
            && i <= end
            && (end < |s| ==> ClosesAt(s, i, quote, end))
            && forall k :: i <= k < end ==> !ClosesAt(s, i, quote, k)
    decreases |s| - i
  {
    if i < |s| {
      var next, end := if s[i] == '\\' then i + 2 else i + 1, StringEnd(s, i, quote);
      if next <= |s| {
        StringEndsAtFirstQuote(s, next, quote);
        forall k | next <= k < |s| ensures ClosesAt(s, i, quote, k) <==> ClosesAt(s, next, quote, k) {
          EscapedLater(s, i, k);
        }
      }
      assert s[i] == '\\' ==> Escaped(s, i, i + 1) by { assert !Escaped(s, i, i); }
    }
  }

  // ----- Regular expressions -----

  /** The character at k is inside a character class: of the brackets that are not escaped the last is an
      opening one. */
  predicate InClass(s: string, i: nat, k: nat, open: bool)
    requires k <= |s|
  {
    if k <= i then open
    else if !Escaped(s, i, k - 1) && (s[k - 1] == '[' || s[k - 1] == ']') then s[k - 1] == '['
    else InClass(s, i, k - 1, open)
  }

  predicate SlashCloses(s: string, i: nat, open: bool, k: nat)
    requires k < |s|
  {
    s[k] == '/' && !Escaped(s, i, k) && !InClass(s, i, k, open)
  }

  /** Reading goes on at the next character with the class state it leaves. */
  function NextOpen(c: char, open: bool): bool {
    if c == '[' then true else if c == ']' then false else open
  }

  lemma {:induction false} InClassLater(s: string, i: nat, k: nat, open: bool)
    requires i < |s| && k <= |s| && (if s[i] == '\\' then i + 2 else i + 1) <= k
    ensures InClass(s, i, k, open)
            <==> InClass(s, if s[i] == '\\' then i + 2 else i + 1, k, NextOpen(s[i], open))
    decreases k
  {
    var next := if s[i] == '\\' then i + 2 else i + 1;
    if k > next {
      EscapedLater(s, i, k - 1);
      InClassLater(s, i, k - 1, open);
    } else if next == i + 2 {
      assert Escaped(s, i, i + 1) by { assert !Escaped(s, i, i); }
      assert InClass(s, i, i + 1, open) == open;
    }
  }

  predicate FlagsReach(s: string, slash: nat, end: nat)
    requires slash <= end < |s|
  {
    && (forall j :: slash < j <= end ==> IsLetter(s[j]))
    && (end + 1 < |s| ==> !IsLetter(s[end + 1]))
  }

  lemma {:induction false} FlagsAreLetters(s: string, i: nat)
    requires i < |s|
    ensures FlagsReach(s, i, FlagsEnd(s, i))
    decreases |s| - i
  {
    if i + 1 < |s| && IsLetter(s[i + 1]) {
      FlagsAreLetters(s, i + 1);
    }
  }

  /** The first slash that closes a regular expression, or the end of the text. */
  ghost predicate FirstClosing(s: string, i: nat, open: bool, slash: nat) {
    && i <= slash <= |s|
    && (slash < |s| ==> SlashCloses(s, i, open, slash))
    && forall k :: i <= k < slash ==> !SlashCloses(s, i, open, k)
  }

  lemma ClosingLater(s: string, i: nat, open: bool, slash: nat)
    requires i < |s| && (if s[i] == '\\' then i + 2 else i + 1) <= |s|
    requires s[i] == '/' ==> open
    requires FirstClosing(s, if s[i] == '\\' then i + 2 else i + 1, NextOpen(s[i], open), slash)
    ensures FirstClosing(s, i, open, slash)
  {
    var next := if s[i] == '\\' then i + 2 else i + 1;
    forall k | next <= k < |s|
      ensures SlashCloses(s, i, open, k) <==> SlashCloses(s, next, NextOpen(s[i], open), k)
    {
      EscapedLater(s, i, k);
      InClassLater(s, i, k, open);
    }
    assert s[i] == '\\' ==> Escaped(s, i, i + 1) by { assert !Escaped(s, i, i); }
  }

  /** A regular expression ends with the letters after its first slash that is neither escaped nor in a
      character class. */
  lemma {:induction false} RegexEndsAtFirstSlash(s: string, i: nat, open: bool) returns (slash: nat)
    requires i <= |s|
    ensures FirstClosing(s, i, open, slash)
    ensures if slash < |s| then slash <= RegexEnd(s, i, open) < |s| && FlagsReach(s, slash, RegexEnd(s, i, open))
            else RegexEnd(s, i, open) == |s|
    decreases |s| - i
  {
    if i == |s| {
      slash := i;
    } else if s[i] == '/' && !open {
      slash := i;
      FlagsAreLetters(s, i);
    } else {
      var next := if s[i] == '\\' then i + 2 else i + 1;
      hide SlashCloses, InClass, Escaped, FlagsReach;
      if next <= |s| {
        slash := RegexEndsAtFirstSlash(s, next, NextOpen(s[i], open));
        ClosingLater(s, i, open, slash);
      } else {
        slash := |s|;
        LoneBackslash(s, i, open);
      }
    }
  }

  lemma LoneBackslash(s: string, i: nat, open: bool)
    requires i + 1 == |s| && s[i] == '\\'
    ensures FirstClosing(s, i, open, |s|)
  {
  }

  // ----- Where a slash starts a regular expression -----

  /** Nothing but white space stands between j and the slash. */
  predicate OnlySpace(s: string, lo: nat, hi: nat)
    requires hi <= |s|
  {
    forall k :: lo <= k < hi ==> IsSpace(s[k])
  }

  lemma {:induction false} LastBeforeSpace(s: string, j: nat, end: nat)
    requires j < end <= |s| && !IsSpace(s[j]) && OnlySpace(s, j + 1, end)
    ensures LastNonSpace(s, end) == Some(j)
    decreases end
  {
    hide IsSpace;
    if end > j + 1 {
      LastBeforeSpace(s, j, end - 1);
    }
  }

  lemma {:induction false} NothingBeforeSpace(s: string, end: nat)
    requires end <= |s| && OnlySpace(s, 0, end)
    ensures LastNonSpace(s, end) == None
    decreases end
  {
    hide IsSpace;
    if end > 0 {
      NothingBeforeSpace(s, end - 1);
    }
  }

  /** A slash with nothing before it starts a regular expression. */
  lemma RegexAtStart(s: string, index: nat)
    requires index < |s| && OnlySpace(s, 0, index)
    ensures IsRegexStart(s, index)
  {
    NothingBeforeSpace(s, index);
  }

  lemma {:induction false} WordStart(s: string, a: nat, j: nat)
    requires a <= j < |s| && (forall k :: a <= k < j ==> IsIdentifierCharacter(s[k]))
    requires a > 0 ==> !IsIdentifierCharacter(s[a - 1])
    ensures IdentifierStart(s, j) == a
    decreases j
  {
    hide IsIdentifierCharacter;
    if a < j {
      WordStart(s, a, j - 1);
    }
  }

  lemma IdentifierIsNoSpace(c: char)
    requires IsIdentifierCharacter(c)
    ensures !IsSpace(c) && c != '+' && c != '-'
  {
  }

  /** After a word a slash starts a regular expression if and only if the word is one of the keywords that
      an expression follows. */
  lemma RegexAfterWord(s: string, index: nat, a: nat, j: nat)
    requires a <= j < index < |s| && OnlySpace(s, j + 1, index)
    requires forall k :: a <= k <= j ==> IsIdentifierCharacter(s[k])
    requires a > 0 ==> !IsIdentifierCharacter(s[a - 1])
    ensures IsRegexStart(s, index) <==> s[a..j + 1] in REGEX_PREFIX_KEYWORDS
  {
    IdentifierIsNoSpace(s[j]);
    LastBeforeSpace(s, j, index);
    WordStart(s, a, j);
    hide IsSpace, IsIdentifierCharacter, LastNonSpace, IdentifierStart;
  }

  /** The sign at j is the second of two, as in an increment. */
  ghost predicate Doubled(s: string, j: nat)
    requires j < |s|
  {
    (s[j] == '+' || s[j] == '-') && exists i :: 0 <= i < j && s[i] == s[j] && OnlySpace(s, i + 1, j)
  }

  /** The slash stands where a closing tag or an empty one would have it. */
  predicate LooksLikeTag(s: string, index: nat, c: char) {
    c == '<' && index + 1 < |s| && (IsLetter(s[index + 1]) || s[index + 1] == '>')
  }

  lemma DoubledMeans(s: string, j: nat)
    requires j < |s| && (s[j] == '+' || s[j] == '-')
    ensures Doubled(s, j) <==> LastNonSpace(s, j).Some? && s[LastNonSpace(s, j).value] == s[j]
  {
    hide IsSpace, LastNonSpace;
    var last := LastNonSpace(s, j);
    if last.Some? && s[last.value] == s[j] {
      assert OnlySpace(s, last.value + 1, j);
    }
    if i :| 0 <= i < j && s[i] == s[j] && OnlySpace(s, i + 1, j) {
      assert !IsSpace(s[i]) by { SignIsNoSpace(s[i]); }
      LastBeforeSpace(s, i, j);
    }
  }

  lemma SignIsNoSpace(c: char)
    requires c == '+' || c == '-'
    ensures !IsSpace(c)
  {
  }

  /** After another character it does if and only if the character is a punctuator that an expression
      follows, is no second sign, and the two do not look like a tag. */
  lemma RegexAfterPunctuation(s: string, index: nat, j: nat)
    requires j < index < |s| && OnlySpace(s, j + 1, index)
    requires !IsSpace(s[j]) && !IsIdentifierCharacter(s[j])
    ensures IsRegexStart(s, index) <==>
      s[j] in "([{:;,=!?&|+-*~^%<>" && !Doubled(s, j) && !LooksLikeTag(s, index, s[j])
    ensures s[j] in ")]}." ==> !IsRegexStart(s, index)
  {
    LastBeforeSpace(s, j, index);
    if s[j] == '+' || s[j] == '-' {
      DoubledMeans(s, j);
    }
    hide IsSpace, IsIdentifierCharacter, LastNonSpace, IsLetter;
  }
}
