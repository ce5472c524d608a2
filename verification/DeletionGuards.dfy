/** Right-to-forget query guards: how a forgotten query is stored as a keyed hash of its
    normalised text, and how a text that is about to be stored is scanned against those hashes. */
module DeletionGuards {
  import opened Wrappers

  const MIN_QUERY_GUARD_CHUNK_LENGTH: nat := 8
  const MAX_QUERY_GUARD_SCAN_CANDIDATES: nat := 20_000

  // ----- Text normalisation -----

  /** White space as String.prototype.trim sees it. */
  predicate IsSpace(c: char) {
    var n := c as int;
    || 9 <= n <= 13 || n == 32 || n == 0xA0 || n == 0x1680 || 0x2000 <= n <= 0x200A
    || n == 0x2028 || n == 0x2029 || n == 0x202F || n == 0x205F || n == 0x3000 || n == 0xFEFF
  }

  function LowerChar(c: char): char {
    if 'A' <= c <= 'Z' then c + ' ' else c
  }

  function Lower(s: string): (r: string)
    ensures |r| == |s|
    ensures forall i :: 0 <= i < |s| ==> r[i] == LowerChar(s[i])
  {
    seq(|s|, i requires 0 <= i < |s| => LowerChar(s[i]))
  }

  function TrimStart(s: string): (r: string)
    ensures |r| <= |s| && r == s[|s| - |r|..]
    ensures r == "" || !IsSpace(r[0])
  {
    if s != "" && IsSpace(s[0]) then TrimStart(s[1..]) else s
  }

  function TrimEnd(s: string): (r: string)
    ensures r <= s
    ensures r == "" || !IsSpace(r[|r| - 1])
  {
    if s != "" && IsSpace(s[|s| - 1]) then TrimEnd(s[..|s| - 1]) else s
  }

  function Trim(s: string): string {
    TrimEnd(TrimStart(s))
  }

  function Normalize(s: string): string {
    Lower(Trim(s))
  }

  /** A text that normalisation leaves alone. */
  predicate IsNormal(s: string) {
    && (s == "" || (!IsSpace(s[0]) && !IsSpace(s[|s| - 1])))
    && IsLower(s)
  }

  lemma NormalizeFixesNormal(s: string)
    requires IsNormal(s)
    ensures Normalize(s) == s
  {
    assert TrimStart(s) == s && TrimEnd(s) == s;
  }

  lemma LowerKeepsSpace(c: char)
    ensures IsSpace(LowerChar(c)) <==> IsSpace(c)
  {
  }

  lemma NormalizeIsNormal(s: string)
    ensures IsNormal(Normalize(s))
  {
    hide TrimStart, TrimEnd, IsSpace;
    var a := TrimStart(s);
    var b := TrimEnd(a);
    var r := Lower(b);
    if b != "" {
      assert b[0] == a[0];
      LowerKeepsSpace(b[0]);
      LowerKeepsSpace(b[|b| - 1]);
    }
    forall i | 0 <= i < |r| ensures r[i] == LowerChar(r[i]) {
      assert r[i] == LowerChar(b[i]);
    }
  }

  predicate AllSpace(s: string) {
    forall i :: 0 <= i < |s| ==> IsSpace(s[i])
  }

  /** The same letter, or the capital and the small form of one. */
  predicate SameLetter(a: char, b: char) {
    a == b || ('A' <= a <= 'Z' && b as int == a as int + 32) || ('A' <= b <= 'Z' && a as int == b as int + 32)
  }

  predicate SameLetters(s: string, t: string) {
    |s| == |t| && forall i :: 0 <= i < |s| ==> SameLetter(s[i], t[i])
  }

  lemma {:induction false} OuterSpaceIsTrimmed(before: string, s: string, after: string)
    requires AllSpace(before) && AllSpace(after)
    ensures Trim(before + s + after) == Trim(s)
    decreases |before| + |after|
  {
    hide IsSpace;
    if before != "" {
      assert (before + s + after)[1..] == before[1..] + s + after;
      OuterSpaceIsTrimmed(before[1..], s, after);
    } else if after != "" {
      var front := after[..|after| - 1];
      assert before + s + after == (s + front) + [after[|after| - 1]] && before + s + front == s + front;
      OuterSpaceIsTrimmed(before, s, front);
      LastSpaceIsTrimmed(s + front, after[|after| - 1]);
    } else {
      assert before + s + after == s;
    }
  }

  lemma {:induction false} TrimStartOfLonger(s: string, c: char)
    requires IsSpace(c)
    ensures TrimStart(s + [c]) == if TrimStart(s) == "" then "" else TrimStart(s) + [c]
    decreases |s|
  {
    hide IsSpace;
    if s == "" {
      assert s + [c] == [c] && [c][1..] == "" && TrimStart([c]) == TrimStart([c][1..]);
    } else {
      assert (s + [c])[1..] == s[1..] + [c] && (s + [c])[0] == s[0];
      if IsSpace(s[0]) {
        TrimStartOfLonger(s[1..], c);
      }
    }
  }

  lemma TrimEndOfLonger(s: string, c: char)
    requires IsSpace(c)
    ensures TrimEnd(s + [c]) == TrimEnd(s)
  {
    hide IsSpace;
    assert (s + [c])[..|s|] == s;
  }

  lemma LastSpaceIsTrimmed(s: string, c: char)
    requires IsSpace(c)
    ensures Trim(s + [c]) == Trim(s)
  {
    TrimStartOfLonger(s, c);
    TrimEndOfLonger(TrimStart(s), c);
    hide TrimStart, TrimEnd, IsSpace;
  }

  lemma SameLetterIffSameLower(a: char, b: char)
    ensures SameLetter(a, b) <==> LowerChar(a) == LowerChar(b)
    ensures SameLetter(a, b) ==> (IsSpace(a) <==> IsSpace(b))
  {
  }

  lemma {:induction false} SameLettersTrimStart(s: string, t: string)
    requires SameLetters(s, t)
    ensures SameLetters(TrimStart(s), TrimStart(t))
    decreases |s|
  {
    hide SameLetter, IsSpace;
    if s != "" {
      SameLetterIffSameLower(s[0], t[0]);
      if IsSpace(s[0]) {
        SameLettersTrimStart(s[1..], t[1..]);
      }
    }
  }

  lemma {:induction false} SameLettersTrimEnd(s: string, t: string)
    requires SameLetters(s, t)
    ensures SameLetters(TrimEnd(s), TrimEnd(t))
    decreases |s|
  {
    hide SameLetter, IsSpace;
    if s != "" {
      SameLetterIffSameLower(s[|s| - 1], t[|t| - 1]);
      if IsSpace(s[|s| - 1]) {
        SameLettersTrimEnd(s[..|s| - 1], t[..|t| - 1]);
      }
    }
  }

  lemma SameLettersIffSameLower(s: string, t: string)
    ensures SameLetters(s, t) <==> Lower(s) == Lower(t)
  {
    hide SameLetter, LowerChar;
    if Lower(s) == Lower(t) {
      forall i | 0 <= i < |s| ensures SameLetter(s[i], t[i]) {
        assert LowerChar(s[i]) == Lower(s)[i] == Lower(t)[i] == LowerChar(t[i]);
        SameLetterIffSameLower(s[i], t[i]);
      }
    }
    if SameLetters(s, t) {
      forall i | 0 <= i < |s| ensures Lower(s)[i] == Lower(t)[i] {
        SameLetterIffSameLower(s[i], t[i]);
      }
    }
  }

  /** Normalisation ignores outer white space and the case of letters. */
  lemma NormalizeIgnoresCaseAndSpace(before: string, s: string, after: string, t: string)
    requires AllSpace(before) && AllSpace(after) && SameLetters(s, t)
    ensures Normalize(before + s + after) == Normalize(t)
  {
    hide TrimStart, TrimEnd, IsSpace, SameLetter, SameLetters, Lower;
    OuterSpaceIsTrimmed(before, s, after);
    SameLettersTrimStart(s, t);
    SameLettersTrimEnd(TrimStart(s), TrimStart(t));
    SameLettersIffSameLower(Trim(s), Trim(t));
  }

  /** It ignores nothing else: texts with one normal form differ in no more than that. */
  lemma NormalizeKeepsTheRest(s: string, t: string)
    requires Normalize(s) == Normalize(t)
    ensures SameLetters(Trim(s), Trim(t)) && Contains(s, Trim(s))
  {
    hide TrimStart, TrimEnd, IsSpace, SameLetter, SameLetters, Lower;
    SameLettersIffSameLower(Trim(s), Trim(t));
    TrimIsSubstring(s);
  }

  // ----- Substrings -----

  predicate OccursAt(text: string, q: string, i: int) {
    0 <= i <= |text| - |q| && text[i..i + |q|] == q
  }

  /** "q" occurs in "text": the plain substring test a selector uses. */
  ghost predicate Contains(text: string, q: string) {
    exists i :: OccursAt(text, q, i)
  }

  lemma ContainsTrans(a: string, b: string, c: string)
    requires Contains(a, b) && Contains(b, c)
    ensures Contains(a, c)
  {
    var i :| OccursAt(a, b, i);
    var j :| OccursAt(b, c, j);
    forall k | 0 <= k < |c| ensures a[i + j..i + j + |c|][k] == c[k] {
      assert c[k] == b[j..j + |c|][k] == b[j + k] == a[i..i + |b|][j + k];
    }
    assert a[i + j..i + j + |c|] == c;
    assert OccursAt(a, c, i + j);
  }

  lemma ContainsSlice(a: string, lo: nat, hi: nat)
    requires lo <= hi <= |a|
    ensures Contains(a, a[lo..hi])
  {
    assert OccursAt(a, a[lo..hi], lo);
  }

  lemma TrimIsSubstring(s: string)
    ensures Contains(s, Trim(s))
  {
    hide TrimStart, TrimEnd;
    var a := TrimStart(s);
    var b := TrimEnd(a);
    assert OccursAt(s, a, |s| - |a|);
    assert OccursAt(a, b, 0);
    ContainsTrans(s, a, b);
  }

  predicate IsLower(s: string) {
    forall i :: 0 <= i < |s| ==> s[i] == LowerChar(s[i])
  }

  lemma SubstringIsLower(s: string, t: string)
    requires IsLower(s) && Contains(s, t)
    ensures IsLower(t) && Lower(t) == t
  {
    var i :| OccursAt(s, t, i);
    forall k | 0 <= k < |t| ensures t[k] == LowerChar(t[k]) {
      assert t[k] == s[i..i + |t|][k] == s[i + k];
    }
  }

  /** Normalising an already lower-cased text leaves a substring of it. */
  lemma NormalizeIsSubstring(s: string)
    requires IsLower(s)
    ensures Contains(s, Normalize(s))
  {
    TrimIsSubstring(s);
    SubstringIsLower(s, Trim(s));
  }

  // ----- Candidate texts of a guard scan -----

  predicate IsTokenStart(c: char) {
    'a' <= c <= 'z' || '0' <= c <= '9'
  }

  predicate IsTokenChar(c: char) {
    IsTokenStart(c) || c in "@._:-"
  }

  function RunLength(s: string): (n: nat)
    ensures n <= |s|
  {
    if s != "" && IsTokenChar(s[0]) then 1 + RunLength(s[1..]) else 0
  }

  /** Every match of the token pattern, leftmost and longest first. */
  function WordTokens(s: string): seq<string>
    decreases |s|
  {
    if s == "" then []
    else if IsTokenStart(s[0]) then
      var n := 1 + RunLength(s[1..]);
      [s[..n]] + WordTokens(s[n..])
    else WordTokens(s[1..])
  }

  lemma {:induction false} WordTokensAreSubstrings(s: string, t: string)
    requires t in WordTokens(s)
    ensures Contains(s, t) && t != ""
    decreases |s|
  {
    if IsTokenStart(s[0]) {
      var n := 1 + RunLength(s[1..]);
      if t == s[..n] {
        ContainsSlice(s, 0, n);
      } else {
        WordTokensAreSubstrings(s[n..], t);
        ContainsSlice(s, n, |s|);
        assert s[n..|s|] == s[n..];
        ContainsTrans(s, s[n..], t);
      }
    } else {
      WordTokensAreSubstrings(s[1..], t);
      ContainsSlice(s, 1, |s|);
      assert s[1..|s|] == s[1..];
      ContainsTrans(s, s[1..], t);
    }
  }

  /** A token starts at "a" or before, and runs from there to the end of the text or a character that is
      none of a token's. */
  ghost predicate CoveredByToken(s: string, i: nat, a: nat, t: string) {
    && a <= i < a + |t| <= |s| && OccursAt(s, t, a)
    && (forall k :: a <= k < a + |t| ==> IsTokenChar(s[k]))
    && (a + |t| < |s| ==> !IsTokenChar(s[a + |t|]))
  }

  lemma {:induction false} RunIsMaximal(s: string)
    ensures forall k :: 0 <= k < RunLength(s) ==> IsTokenChar(s[k])
    ensures RunLength(s) < |s| ==> !IsTokenChar(s[RunLength(s)])
  {
    if s != "" && IsTokenChar(s[0]) {
      RunIsMaximal(s[1..]);
    }
  }

  /** Every letter or digit lies in a token, and the tokens are as long as they can be. */
  lemma {:induction false} EveryWordHasToken(s: string, i: nat) returns (a: nat, t: string)
    requires i < |s| && IsTokenStart(s[i])
    ensures t in WordTokens(s) && CoveredByToken(s, i, a, t)
    decreases |s|
  {
    if IsTokenStart(s[0]) {
      var n := 1 + RunLength(s[1..]);
      RunIsMaximal(s[1..]);
      if i < n {
        a, t := 0, s[..n];
        forall k | 0 <= k < n ensures IsTokenChar(s[k]) {
          assert k > 0 ==> s[k] == s[1..][k - 1];
        }
        assert n < |s| ==> s[n] == s[1..][n - 1];
      } else {
        a, t := EveryWordHasToken(s[n..], i - n);
        a := TokenOfTail(s, n, i - n, a, t);
      }
    } else {
      a, t := EveryWordHasToken(s[1..], i - 1);
      a := TokenOfTail(s, 1, i - 1, a, t);
    }
  }

  lemma TokenOfTail(s: string, n: nat, i: nat, a: nat, t: string) returns (b: nat)
    requires n <= |s| && CoveredByToken(s[n..], i, a, t)
    ensures b == n + a && CoveredByToken(s, n + i, b, t)
  {
    hide IsTokenChar;
    b := n + a;
    assert s[n..][a..a + |t|] == s[n + a..n + a + |t|];
    forall k | b <= k < b + |t| ensures IsTokenChar(s[k]) {
      assert s[k] == s[n..][k - n];
    }
  }

  function GuardTokens(value: string): seq<string> {
    var normalized := Normalize(value);
    if normalized == "" then [] else [normalized] + WordTokens(normalized)
  }

  ghost predicate IsWindowOf(c: string, token: string, lengths: set<nat>) {
    |c| in lengths && c != "" && Contains(token, c)
  }

  /** The texts the scan hashes: the tokens, and every window of a guarded length. */
  ghost predicate IsCandidate(c: string, value: string, lengths: set<nat>) {
    || c in GuardTokens(value)
    || exists t :: t in GuardTokens(value) && IsWindowOf(c, t, lengths)
  }

  ghost predicate AllCandidates(cs: set<string>, value: string, lengths: set<nat>) {
    forall c :: c in cs ==> IsCandidate(c, value, lengths)
  }

  /** More distinct candidates than the scan is prepared to hash. */
  ghost predicate OverCap(value: string, lengths: set<nat>) {
    exists cs: set<string> :: |cs| > MAX_QUERY_GUARD_SCAN_CANDIDATES && AllCandidates(cs, value, lengths)
  }

  lemma TokensAreSubstrings(value: string, t: string)
    requires t in GuardTokens(value)
    ensures Contains(Normalize(value), t)
  {
    var text := Normalize(value);
    if t == text {
      ContainsSlice(text, 0, |text|);
      assert text[0..|text|] == text;
    } else {
      WordTokensAreSubstrings(text, t);
    }
  }

  lemma CandidatesAreSubstrings(value: string, lengths: set<nat>, c: string)
    requires IsCandidate(c, value, lengths)
    ensures Contains(Normalize(value), c)
  {
    if c in GuardTokens(value) {
      TokensAreSubstrings(value, c);
    } else {
      var t :| t in GuardTokens(value) && IsWindowOf(c, t, lengths);
      TokensAreSubstrings(value, t);
      ContainsTrans(Normalize(value), t, c);
    }
  }

  lemma SubstringsAreCandidates(value: string, lengths: set<nat>, q: string)
    requires q != "" && |q| in lengths && Contains(Normalize(value), q)
    ensures IsCandidate(q, value, lengths)
  {
    assert GuardTokens(value)[0] == Normalize(value);
    assert IsWindowOf(q, Normalize(value), lengths);
  }

  /** The candidates of a text are its normal form, the tokens in it, and each piece of it of a guarded
      length. */
  lemma CandidatesAreTokensAndPieces(value: string, lengths: set<nat>, c: string)
    ensures var text := Normalize(value);
            IsCandidate(c, value, lengths) <==>
              (text != "" && (c == text || c in WordTokens(text)))
              || (c != "" && |c| in lengths && Contains(text, c))
  {
    hide Normalize, WordTokens, Contains;
    if IsCandidate(c, value, lengths) {
      CandidatesAreSubstrings(value, lengths, c);
    }
    if c != "" && |c| in lengths && Contains(Normalize(value), c) {
      SubstringsAreCandidates(value, lengths, c);
    }
  }

  /** The candidate list of one scan: distinct texts, all of them candidates, below the cap. */
  ghost predicate IsCandidateList(list: seq<string>, value: string, lengths: set<nat>) {
    && |Elements(list)| == |list| <= MAX_QUERY_GUARD_SCAN_CANDIDATES
    && AllCandidates(Elements(list), value, lengths)
  }

  ghost function Elements(list: seq<string>): set<string> {
    set c | c in list
  }

  /** Appends one candidate unless it was seen; no list comes back when that exceeds the cap. */
  method AddCandidate(list: seq<string>, c: string, value: string, lengths: set<nat>)
    returns (r: Option<seq<string>>)
    requires IsCandidateList(list, value, lengths) && IsCandidate(c, value, lengths)
    ensures r.Some? ==> IsCandidateList(r.value, value, lengths) && Elements(list) + {c} <= Elements(r.value)
    ensures r.None? ==> OverCap(value, lengths)
  {
    if c in list {
      assert Elements(list) == Elements(list) + {c};
      return Some(list);
    }
    var longer := list + [c];
    assert Elements(longer) == Elements(list) + {c};
    if |longer| > MAX_QUERY_GUARD_SCAN_CANDIDATES {
      return None;
    }
    return Some(longer);
  }

  lemma WindowIsCandidate(token: string, start: nat, n: nat, value: string, lengths: set<nat>)
    requires token in GuardTokens(value) && n in lengths && 0 < n && start + n <= |token|
    ensures IsCandidate(token[start..start + n], value, lengths)
  {
    ContainsSlice(token, start, start + n);
    assert IsWindowOf(token[start..start + n], token, lengths);
  }

  /** Appends every window of one length of one token. */
  method AddWindows(list: seq<string>, token: string, n: nat, value: string, lengths: set<nat>)
    returns (r: Option<seq<string>>)
    requires IsCandidateList(list, value, lengths)
    requires token in GuardTokens(value) && n in lengths && 0 < n
    ensures r.Some? ==> IsCandidateList(r.value, value, lengths) && Elements(list) <= Elements(r.value)
    ensures r.Some? ==> forall c :: |c| == n && Contains(token, c) ==> c in Elements(r.value)
    ensures r.None? ==> OverCap(value, lengths)
  {
    hide IsCandidate, OverCap, GuardTokens, IsCandidateList;
    var out := list;
    var start: nat := 0;
    while start + n <= |token|
      invariant IsCandidateList(out, value, lengths) && Elements(list) <= Elements(out)
      invariant forall c, i :: |c| == n && OccursAt(token, c, i) && i < start ==> c in Elements(out)
    {
      WindowIsCandidate(token, start, n, value, lengths);
      var next := AddCandidate(out, token[start..start + n], value, lengths);
      if next.None? {
        return None;
      }
      out := next.value;
      start := start + 1;
    }
    return Some(out);
  }

  /** Appends every window, of every guarded length, of one token. */
  method AddAllWindows(list: seq<string>, token: string, value: string, lengths: set<nat>)
    returns (r: Option<seq<string>>)
    requires IsCandidateList(list, value, lengths) && token in GuardTokens(value)
    ensures r.Some? ==> IsCandidateList(r.value, value, lengths) && Elements(list) <= Elements(r.value)
    ensures r.Some? ==> forall c :: IsWindowOf(c, token, lengths) ==> c in Elements(r.value)
    ensures r.None? ==> OverCap(value, lengths)
  {
    hide IsCandidateList, OverCap, GuardTokens, Contains;
    var out := list;
    var todo := lengths;
    while todo != {}
      invariant todo <= lengths
      invariant IsCandidateList(out, value, lengths) && Elements(list) <= Elements(out)
      invariant forall c :: IsWindowOf(c, token, lengths) && |c| !in todo ==> c in Elements(out)
    {
      var n :| n in todo;
      if n > 0 {
        var next := AddWindows(out, token, n, value, lengths);
        if next.None? {
          return None;
        }
        out := next.value;
      }
      todo := todo - {n};
    }
    return Some(out);
  }

  /** Collects the distinct candidates, giving up beyond the cap. */
  method QueryGuardCandidatesForReplay(value: string, lengths: set<nat>) returns (r: Result<seq<string>, ()>)
    ensures r.Ok? ==> forall c :: c in Elements(r.value) <==> IsCandidate(c, value, lengths)
    ensures r.Err? <==> OverCap(value, lengths)
  {
    hide IsWindowOf, GuardTokens;
    var tokens := GuardTokens(value);
    var result: seq<string> := [];
    for i := 0 to |tokens|
      invariant IsCandidateList(result, value, lengths)
      invariant forall j :: 0 <= j < i ==> tokens[j] in Elements(result)
    {
      var next := AddCandidate(result, tokens[i], value, lengths);
      if next.None? {
        return Err(());
      }
      result := next.value;
    }
    for i := 0 to |tokens|
      invariant IsCandidateList(result, value, lengths)
      invariant forall j :: 0 <= j < |tokens| ==> tokens[j] in Elements(result)
      invariant forall j, c :: 0 <= j < i && IsWindowOf(c, tokens[j], lengths) ==> c in Elements(result)
    {
      var next := AddAllWindows(result, tokens[i], value, lengths);
      if next.None? {
        return Err(());
      }
      result := next.value;
    }
    CompleteListFits(result, value, lengths);
    return Ok(result);
  }

  lemma CompleteListFits(list: seq<string>, value: string, lengths: set<nat>)
    requires IsCandidateList(list, value, lengths)
    requires forall c :: IsCandidate(c, value, lengths) ==> c in Elements(list)
    ensures forall c :: c in Elements(list) <==> IsCandidate(c, value, lengths)
    ensures !OverCap(value, lengths)
  {
    hide IsCandidate;
    forall cs: set<string> | AllCandidates(cs, value, lengths)
      ensures |cs| <= MAX_QUERY_GUARD_SCAN_CANDIDATES
    {
      SubsetSize(cs, Elements(list));
    }
  }

  lemma SubsetSize<T>(a: set<T>, b: set<T>)
    requires a <= b
    ensures |a| <= |b|
  {
    assert b == a + (b - a);
  }

  // ----- Keyed hashes and guards -----

  /** A keyed digest, injective in its key and its text. */
  datatype Hash = Hmac(key: string, text: string)

  datatype QueryGuard = QueryGuard(length: nat, hash: Hash)

  function QueryGuardHash(hashKey: string, query: string): QueryGuard {
    var normalized := Normalize(query);
    QueryGuard(|normalized|, Hmac(hashKey, normalized))
  }

  function GuardedLengths(guards: set<QueryGuard>): set<nat> {
    set g | g in guards :: g.length
  }

  /** The scan: refuse when a candidate hashes to a guard, or when there are too many of them. */
  ghost predicate QueryRefused(guards: set<QueryGuard>, hashKey: string, value: string) {
    && guards != {}
    && (|| OverCap(value, GuardedLengths(guards))
        || exists c :: IsCandidate(c, value, GuardedLengths(guards)) && QueryGuardHash(hashKey, c) in guards)
  }

  method HasAnyDeletionQueryGuard(guards: set<QueryGuard>, hashKey: string, value: string) returns (refused: bool)
    ensures refused <==> QueryRefused(guards, hashKey, value)
  {
    hide IsCandidate, OverCap, QueryGuardHash, GuardedLengths;
    if guards == {} {
      return false;
    }
    var scan := QueryGuardCandidatesForReplay(value, GuardedLengths(guards));
    if scan.Err? {
      return true;
    }
    for i := 0 to |scan.value|
      invariant forall j :: 0 <= j < i ==> QueryGuardHash(hashKey, scan.value[j]) !in guards
    {
      if QueryGuardHash(hashKey, scan.value[i]) in guards {
        assert scan.value[i] in Elements(scan.value);
        return true;
      }
    }
    return false;
  }

  /** Guards as right-to-forget writes them: each hashes a non-empty normal query. */
  ghost predicate WellFormed(guards: set<QueryGuard>, hashKey: string) {
    forall g :: g in guards ==>
      && g.hash.key == hashKey
      && g.length == |g.hash.text| > 0
      && IsNormal(g.hash.text)
  }

  ghost function ForgottenQueries(guards: set<QueryGuard>): set<string> {
    set g | g in guards :: g.hash.text
  }

  lemma ForgottenTextIsRefused(guards: set<QueryGuard>, hashKey: string, value: string, q: string)
    requires WellFormed(guards, hashKey)
    requires q in ForgottenQueries(guards) && Contains(Normalize(value), q)
    ensures QueryRefused(guards, hashKey, value)
  {
    var g :| g in guards && g.hash.text == q;
    SubstringsAreCandidates(value, GuardedLengths(guards), q);
    NormalizeFixesNormal(q);
    assert QueryGuardHash(hashKey, q) == g;
  }

  lemma GuardedCandidateIsForgottenText(guards: set<QueryGuard>, hashKey: string, value: string, c: string)
    requires WellFormed(guards, hashKey)
    requires IsCandidate(c, value, GuardedLengths(guards)) && QueryGuardHash(hashKey, c) in guards
    ensures Normalize(c) in ForgottenQueries(guards) && Contains(Normalize(value), Normalize(c))
  {
    var text := Normalize(value);
    CandidatesAreSubstrings(value, GuardedLengths(guards), c);
    NormalizeIsNormal(value);
    SubstringIsLower(text, c);
    NormalizeIsSubstring(c);
    ContainsTrans(text, c, Normalize(c));
    assert QueryGuardHash(hashKey, c).hash.text == Normalize(c);
  }

  /** The hashed scan refuses exactly what the plain substring test would match, and otherwise
      only a text with more candidates than the cap. */
  lemma ScanIsSubstringTest(guards: set<QueryGuard>, hashKey: string, value: string)
    requires WellFormed(guards, hashKey)
    ensures QueryRefused(guards, hashKey, value) <==>
      || (exists q :: q in ForgottenQueries(guards) && Contains(Normalize(value), q))
      || (guards != {} && OverCap(value, GuardedLengths(guards)))
  {
    if q :| q in ForgottenQueries(guards) && Contains(Normalize(value), q) {
      ForgottenTextIsRefused(guards, hashKey, value, q);
    }
    if QueryRefused(guards, hashKey, value) && !OverCap(value, GuardedLengths(guards)) {
      var c :| IsCandidate(c, value, GuardedLengths(guards)) && QueryGuardHash(hashKey, c) in guards;
      GuardedCandidateIsForgottenText(guards, hashKey, value, c);
    }
  }

  // ----- The guard table of one database -----

  /** "neverStore" lists the keys of never-store decisions, "keys" the hashes of forgotten keys,
      and the other sets the query guards of each scope. */
  datatype Guards = Guards(
    hashKey: string,
    neverStore: set<string>,
    keys: set<Hash>,
    working: set<QueryGuard>,
    episodic: set<QueryGuard>,
    checkpoint: set<QueryGuard>)

  /** What assertNotDeletionGuarded throws on, for the guards modelled here. */
  ghost predicate WorkingRefused(g: Guards, key: string, searchText: string) {
    || key in g.neverStore
    || Hmac(g.hashKey, key) in g.keys
    || QueryRefused(g.working, g.hashKey, key + " " + searchText)
  }

  /** A write is refused if and only if its key is never-stored or forgotten, or key and text contain a
      forgotten query, or have more candidates than the cap. */
  lemma WorkingRefusedIff(g: Guards, key: string, searchText: string)
    requires WellFormed(g.working, g.hashKey)
    ensures var text := key + " " + searchText;
            WorkingRefused(g, key, searchText) <==>
              || key in g.neverStore
              || (exists h :: h in g.keys && h.key == g.hashKey && h.text == key)
              || (exists q :: q in ForgottenQueries(g.working) && Contains(Normalize(text), q))
              || (g.working != {} && OverCap(text, GuardedLengths(g.working)))
  {
    hide OverCap, Normalize, GuardedLengths, QueryRefused, WellFormed, ForgottenQueries;
    ScanIsSubstringTest(g.working, g.hashKey, key + " " + searchText);
    if h :| h in g.keys && h.key == g.hashKey && h.text == key {
      assert h == Hmac(g.hashKey, key);
    }
  }

  predicate Trimmed(s: string) {
    s != "" && !IsSpace(s[0]) && !IsSpace(s[|s| - 1])
  }

  /** Trimming does not reach into a part that neither begins nor ends with white space. */
  lemma TrimKeepsParts(s: string, part: string)
    requires Trimmed(part) && Contains(s, part)
    ensures Contains(Trim(s), part)
  {
    hide TrimStart, TrimEnd, OccursAt, IsSpace;
    var i := Occurrence(s, part);
    TrimStartKeeps(s, part, i);
    var j := i - (|s| - |TrimStart(s)|);
    TrimEndKeeps(TrimStart(s), part, j);
    assert OccursAt(Trim(s), part, j);
  }

  lemma Occurrence(s: string, part: string) returns (i: nat)
    requires Contains(s, part)
    ensures OccursAt(s, part, i)
  {
    i :| OccursAt(s, part, i);
  }

  lemma OccursLater(s: string, part: string, i: nat)
    requires part != "" && OccursAt(s, part, i) && s[0] != part[0]
    ensures i > 0 && OccursAt(s[1..], part, i - 1)
  {
    assert s[i] == s[i..i + |part|][0];
    assert s[1..][i - 1..i - 1 + |part|] == s[i..i + |part|];
  }

  lemma OccursEarlier(s: string, part: string, i: nat)
    requires part != "" && OccursAt(s, part, i) && s[|s| - 1] != part[|part| - 1]
    ensures OccursAt(s[..|s| - 1], part, i)
  {
    assert s[i + |part| - 1] == s[i..i + |part|][|part| - 1];
    assert s[..|s| - 1][i..i + |part|] == s[i..i + |part|];
  }

  lemma TrimStartStep(s: string)
    requires s != ""
    ensures TrimStart(s) == if IsSpace(s[0]) then TrimStart(s[1..]) else s
  {
    hide IsSpace;
  }

  lemma {:induction false} TrimStartKeeps(s: string, part: string, i: nat)
    requires Trimmed(part) && OccursAt(s, part, i)
    ensures |s| - |TrimStart(s)| <= i && OccursAt(TrimStart(s), part, i - (|s| - |TrimStart(s)|))
    decreases |s|
  {
    assert s != "";
    TrimStartStep(s);
    hide IsSpace, OccursAt, TrimStart;
    if IsSpace(s[0]) {
      OccursLater(s, part, i);
      TrimStartKeeps(s[1..], part, i - 1);
    }
  }

  lemma {:induction false} TrimEndKeeps(s: string, part: string, i: nat)
    requires Trimmed(part) && OccursAt(s, part, i)
    ensures OccursAt(TrimEnd(s), part, i)
    decreases |s|
  {
    assert s != "";
    hide IsSpace, OccursAt;
    if IsSpace(s[|s| - 1]) {
      OccursEarlier(s, part, i);
      TrimEndKeeps(s[..|s| - 1], part, i);
    }
  }

  /** What occurs in one part of a text, normalised, occurs in the whole text, normalised. */
  lemma PartIsScanned(whole: string, part: string, q: string)
    requires Contains(whole, part) && q != "" && Contains(Normalize(part), q)
    ensures Contains(Normalize(whole), q)
  {
    hide TrimStart, TrimEnd, IsSpace;
    var inner := Trim(part);
    TrimIsSubstring(part);
    assert inner != "";
    assert Trimmed(inner) by { TrimIsTrimmed(part); }
    ContainsTrans(whole, part, inner);
    TrimKeepsParts(whole, inner);
    LowerKeepsParts(Trim(whole), inner);
    ContainsTrans(Normalize(whole), Normalize(part), q);
  }

  lemma SumContains(a: string, b: string, part: string)
    ensures Contains(a, part) || Contains(b, part) ==> Contains(a + b, part)
  {
    if i :| OccursAt(a, part, i) {
      assert (a + b)[i..i + |part|] == a[i..i + |part|];
      assert OccursAt(a + b, part, i);
    }
    if i :| OccursAt(b, part, i) {
      assert (a + b)[|a| + i..|a| + i + |part|] == b[i..i + |part|];
      assert OccursAt(a + b, part, |a| + i);
    }
  }

  lemma ContainsItself(s: string)
    ensures Contains(s, s)
  {
    assert OccursAt(s, s, 0);
  }

  lemma TrimIsTrimmed(s: string)
    ensures Trim(s) != "" ==> Trimmed(Trim(s))
  {
    hide TrimStart, TrimEnd, IsSpace;
    assert Trim(s) != "" ==> Trim(s)[0] == TrimStart(s)[0];
  }

  lemma LowerKeepsParts(s: string, part: string)
    requires Contains(s, part)
    ensures Contains(Lower(s), Lower(part))
  {
    var i :| OccursAt(s, part, i);
    forall k | 0 <= k < |part| ensures Lower(s)[i..i + |part|][k] == Lower(part)[k] {
      assert s[i + k] == s[i..i + |part|][k];
    }
    assert OccursAt(Lower(s), Lower(part), i);
  }

  method IsWorkingRefused(g: Guards, key: string, searchText: string) returns (refused: bool)
    ensures refused <==> WorkingRefused(g, key, searchText)
  {
    hide QueryRefused;
    if key in g.neverStore || Hmac(g.hashKey, key) in g.keys {
      return true;
    }
    refused := HasAnyDeletionQueryGuard(g.working, g.hashKey, key + " " + searchText);
  }
}
