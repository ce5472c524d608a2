/** Paged collection of accepted events, and keyword search over a text that arrives in chunks. */
module EpisodicRows {
  import opened Wrappers
  import opened DeletionGuards

  const SCAN_BATCH_SIZE: nat := 100

  // ----- Paged collection -----

  /** The accepted rows, in table order. */
  function Accepted<T>(rows: seq<T>, accepts: T -> bool): seq<T> {
    if rows == [] then []
    else Accepted(rows[..|rows| - 1], accepts) +
         (if accepts(rows[|rows| - 1]) then [rows[|rows| - 1]] else [])
  }

  /** The first "limit" accepted rows among the first "rawScanLimit"; a negative limit and a missing
      scan limit mean no bound. */
  function Collected<T>(table: seq<T>, limit: int, accepts: T -> bool, rawScanLimit: Option<nat>): seq<T> {
    var scanned := if rawScanLimit.Some? && rawScanLimit.value < |table| then table[..rawScanLimit.value] else table;
    var accepted := Accepted(scanned, accepts);
    if 0 <= limit < |accepted| then accepted[..limit] else accepted
  }

  lemma {:induction false} AcceptedPrefix<T>(rows: seq<T>, n: nat, accepts: T -> bool)
    requires n <= |rows|
    ensures Accepted(rows[..n], accepts) <= Accepted(rows, accepts)
    decreases |rows|
  {
    if n < |rows| {
      AcceptedPrefix(rows[..|rows| - 1], n, accepts);
      assert rows[..|rows| - 1][..n] == rows[..n];
    } else {
      assert rows[..n] == rows;
    }
  }

  lemma AcceptedStep<T>(rows: seq<T>, n: nat, accepts: T -> bool)
    requires n < |rows|
    ensures Accepted(rows[..n + 1], accepts) ==
      Accepted(rows[..n], accepts) + (if accepts(rows[n]) then [rows[n]] else [])
  {
    assert rows[..n + 1][..n] == rows[..n];
  }

  ghost function Bound<T>(table: seq<T>, rawScanLimit: Option<nat>): (n: nat)
    ensures n <= |table|
  {
    if rawScanLimit.Some? then Min(rawScanLimit.value, |table|) else |table|
  }

  /** Enough found after a prefix of what may be scanned. */
  lemma EnoughFound<T>(table: seq<T>, n: nat, limit: nat, accepts: T -> bool, rawScanLimit: Option<nat>)
    requires n <= Bound(table, rawScanLimit) && |Accepted(table[..n], accepts)| == limit
    ensures Collected(table, limit, accepts, rawScanLimit) == Accepted(table[..n], accepts)
  {
    hide Accepted;
    var scanned := table[..Bound(table, rawScanLimit)];
    AcceptedPrefix(scanned, n, accepts);
    assert scanned[..n] == table[..n];
    assert table[..|table|] == table;
  }

  /** Everything that may be scanned was scanned. */
  lemma AllScanned<T>(table: seq<T>, limit: int, accepts: T -> bool, rawScanLimit: Option<nat>)
    requires limit < 0 || |Accepted(table[..Bound(table, rawScanLimit)], accepts)| <= limit
    ensures Collected(table, limit, accepts, rawScanLimit) == Accepted(table[..Bound(table, rawScanLimit)], accepts)
  {
    hide Accepted;
    assert table[..|table|] == table;
  }

  /** Keeps the accepted rows of one batch until enough are found. */
  method CollectBatch<T>(table: seq<T>, offset: nat, rows: seq<T>, limit: int, accepts: T -> bool, before: seq<T>)
    returns (events: seq<T>, full: bool, ghost scanned: nat)
    requires offset + |rows| <= |table| && rows == table[offset..offset + |rows|]
    requires before == Accepted(table[..offset], accepts) && (limit < 0 || |before| < limit)
    ensures offset + scanned <= |table| && scanned <= |rows|
    ensures events == Accepted(table[..offset + scanned], accepts)
    ensures full ==> |events| == limit
    ensures !full ==> scanned == |rows| && (limit < 0 || |events| < limit)
  {
    hide Accepted;
    events, full := before, false;
    var i := 0;
    while i < |rows| && !full
      invariant 0 <= i <= |rows| && events == Accepted(table[..offset + i], accepts)
      invariant if full then |events| == limit else limit < 0 || |events| < limit
    {
      AcceptedStep(table, offset + i, accepts);
      if accepts(rows[i]) {
        events := events + [rows[i]];
        full := limit >= 0 && |events| >= limit;
      }
      i := i + 1;
    }
    scanned := i;
  }

  /** Fetches rows in batches by offset and keeps the accepted ones until enough are found, the scan
      bound is reached or the table ends. */
  method CollectRowsToEvents<T>(table: seq<T>, limit: int, accepts: T -> bool, rawScanLimit: Option<nat>)
    returns (events: seq<T>)
    ensures events == Collected(table, limit, accepts, rawScanLimit)
  {
    if limit == 0 {
      return [];
    }
    events := [];
    var batchSize := if limit < 0 || limit * 2 < SCAN_BATCH_SIZE then SCAN_BATCH_SIZE else limit * 2;
    var offset: nat := 0;
    var more := true;
    assert Accepted(table[..0], accepts) == [];
    hide Accepted, Collected;
    while more && (limit < 0 || |events| < limit) && (rawScanLimit.None? || offset < rawScanLimit.value)
      invariant offset <= Bound(table, rawScanLimit) && events == Accepted(table[..offset], accepts)
      invariant limit < 0 || |events| < limit
      invariant !more ==> offset == Bound(table, rawScanLimit)
      decreases Bound(table, rawScanLimit) - offset, more
    {
      var fetchLimit := if rawScanLimit.Some? then Min(batchSize, rawScanLimit.value - offset) else batchSize;
      var rows := table[offset..Min(offset + fetchLimit, |table|)];
      var full: bool;
      ghost var scanned: nat;
      events, full, scanned := CollectBatch(table, offset, rows, limit, accepts, events);
      if full {
        EnoughFound(table, offset + scanned, limit, accepts, rawScanLimit);
        return;
      }
      offset := offset + |rows|;
      more := |rows| == fetchLimit;
    }
    AllScanned(table, limit, accepts, rawScanLimit);
  }

  // ----- Keyword search over a streamed text -----

  /** The decrypted details of one event: the text pieces the decoder writes, what it still holds at
      the end, and the piece before which decryption fails (all pieces, when only the final
      authentication fails). */
  datatype Details = Details(pieces: seq<string>, rest: string, failsBefore: Option<nat>)
  {
    predicate Authentic() {
      failsBefore.None? || failsBefore.value > |pieces|
    }

    function Text(): string {
      Joined(pieces) + rest
    }
  }

  function Joined(pieces: seq<string>): string {
    if pieces == [] then "" else Joined(pieces[..|pieces| - 1]) + pieces[|pieces| - 1]
  }

  predicate Includes(text: string, keyword: string): (r: bool)
    ensures r <==> Contains(text, keyword)
  {
    exists i :: 0 <= i <= |text| - |keyword| && OccursAt(text, keyword, i)
  }

  function Elements(keywords: seq<string>): set<string> {
    set k | k in keywords
  }

  function Included(text: string, keywords: seq<string>): set<string> {
    set k | k in keywords && Includes(text, k)
  }

  function LongestLength(keywords: seq<string>): (n: nat)
    ensures n >= 1 && forall k :: k in keywords ==> |k| <= n
  {
    if keywords == [] then 1
    else
      var shorter := LongestLength(keywords[1..]);
      if |keywords[0]| > shorter then |keywords[0]| else shorter
  }

  /** text.slice(-n): the last n characters, but the whole text when n is 0. */
  function SliceFromEnd(text: string, n: nat): string {
    if n == 0 || n > |text| then text else text[|text| - n..]
  }

  predicate IsSuffix(text: string, suffix: string) {
    |suffix| <= |text| && text[|text| - |suffix|..] == suffix
  }

  lemma LowerOfSum(a: string, b: string)
    ensures Lower(a + b) == Lower(a) + Lower(b)
  {
  }

  lemma OccursInOneOf(front: string, overlap: string, piece: string, k: string, i: nat)
    requires OccursAt(front + overlap + piece, k, i) && (front == "" || |k| <= |overlap| + 1)
    ensures Contains(front + overlap, k) || Contains(overlap + piece, k)
  {
    var whole := front + overlap + piece;
    if i + |k| <= |front + overlap| {
      assert (front + overlap)[i..i + |k|] == whole[i..i + |k|];
      assert OccursAt(front + overlap, k, i);
    } else {
      var j := i - |front|;
      assert (overlap + piece)[j..j + |k|] == whole[i..i + |k|];
      assert OccursAt(overlap + piece, k, j);
    }
  }

  /** An occurrence in the text with the piece appended was there before, or lies in the overlap and
      the piece. */
  lemma OverlapFindsNewOccurrences(before: string, overlap: string, piece: string, k: string)
    requires IsSuffix(before, overlap) && (overlap == before || |k| <= |overlap| + 1)
    ensures Contains(before + piece, k) <==> Contains(before, k) || Contains(overlap + piece, k)
  {
    hide Contains, OccursAt;
    var front := before[..|before| - |overlap|];
    assert before == front + overlap && before + piece == front + (overlap + piece);
    SumContains(before, piece, k);
    SumContains(front, overlap + piece, k);
    if Contains(before + piece, k) {
      var i := Occurrence(before + piece, k);
      OccursInOneOf(front, overlap, piece, k, i);
    }
  }

  ghost predicate OverlapLongEnough(before: string, overlap: string, longest: nat) {
    IsSuffix(before, overlap) && (overlap == before || longest <= |overlap| + 1)
  }

  lemma IncludedGrows(before: string, overlap: string, piece: string, keywords: seq<string>, longest: nat)
    requires OverlapLongEnough(before, overlap, longest)
    requires forall k :: k in keywords ==> |k| <= longest
    ensures Included(before + piece, keywords) == Included(before, keywords) + Included(overlap + piece, keywords)
  {
    forall k | k in keywords
      ensures Contains(before + piece, k) <==> Contains(before, k) || Contains(overlap + piece, k)
    {
      OverlapFindsNewOccurrences(before, overlap, piece, k);
    }
  }

  lemma NextOverlap(before: string, overlap: string, piece: string, longest: nat)
    requires longest >= 1 && OverlapLongEnough(before, overlap, longest)
    ensures OverlapLongEnough(before + piece, SliceFromEnd(overlap + piece, longest - 1), longest)
  {
    var whole, window := before + piece, overlap + piece;
    assert whole[|whole| - |window|..] == window;
    var next := SliceFromEnd(window, longest - 1);
    assert whole[|whole| - |next|..] == next;
  }

  lemma {:induction false} FewElements(keywords: seq<string>)
    ensures |Elements(keywords)| <= |keywords|
  {
    if keywords == [] {
      assert Elements(keywords) == {};
    } else {
      FewElements(keywords[1..]);
      assert Elements(keywords) == Elements(keywords[1..]) + {keywords[0]};
    }
  }

  lemma SubsetOfEqualSize(a: set<string>, b: set<string>)
    requires a <= b && |a| == |b|
    ensures a == b
  {
    assert |b - a| == 0;
  }

  /** As many keywords as keywords in the list: then all of them are in the set. */
  lemma AllKeywordsFound(found: set<string>, keywords: seq<string>)
    requires found <= Elements(keywords) && |found| == |keywords|
    ensures found == Elements(keywords)
  {
    FewElements(keywords);
    assert |Elements(keywords) - found| == |Elements(keywords)| - |found|;
    SubsetOfEqualSize(found, Elements(keywords));
  }

  /** What the search is for: the distinct keywords in the summary, or in the whole details text if
      that text authenticates. */
  ghost function KeywordsFound(summary: string, keywords: seq<string>, details: Option<Details>): set<string> {
    Included(Lower(summary), keywords) +
    if details.Some? && details.value.Authentic() then Included(Lower(details.value.Text()), keywords) else {}
  }

  /** A keyword counts if and only if the summary contains it, or the details do and were not tampered
      with; tampered details count for nothing, whatever was read of them. */
  lemma KeywordCounts(summary: string, keywords: seq<string>, details: Option<Details>, k: string)
    ensures k in KeywordsFound(summary, keywords, details) <==>
      && k in keywords
      && (|| Contains(Lower(summary), k)
          || (&& details.Some?
              && (details.value.failsBefore.Some? ==> details.value.failsBefore.value > |details.value.pieces|)
              && Contains(Lower(Joined(details.value.pieces) + details.value.rest), k)))
  {
    hide Contains, Lower, Joined;
  }

  /** What the loop knows after reading some pieces: "before" is their lower-cased text. */
  ghost predicate Searched(before: string, overlap: string, authenticated: set<string>, keywords: seq<string>,
                           longest: nat)
  {
    && OverlapLongEnough(before, overlap, longest) && Lower(overlap) == overlap
    && authenticated <= Included(before, keywords)
    && (overlap == before || authenticated == Included(before, keywords))
  }

  /** Whatever came before, after one more piece the search has found exactly what it should. */
  lemma SearchStep(before: string, overlap: string, authenticated: set<string>, keywords: seq<string>, longest: nat,
                   piece: string)
    requires Searched(before, overlap, authenticated, keywords, longest)
    requires forall k :: k in keywords ==> |k| <= longest
    ensures authenticated + Included(Lower(overlap + piece), keywords) == Included(before + Lower(piece), keywords)
    ensures longest >= 1 ==> Searched(before + Lower(piece), SliceFromEnd(Lower(overlap + piece), longest - 1),
                                      Included(before + Lower(piece), keywords), keywords, longest)
  {
    hide Lower, Included, SliceFromEnd;
    LowerOfSum(overlap, piece);
    var now := Included(overlap + Lower(piece), keywords);
    assert now == Included(Lower(overlap + piece), keywords);
    IncludedGrows(before, overlap, Lower(piece), keywords, longest);
    if longest >= 1 {
      NextOverlap(before, overlap, Lower(piece), longest);
      SliceStaysLower(overlap + piece, longest - 1);
    }
  }

  lemma SliceStaysLower(text: string, n: nat)
    ensures Lower(SliceFromEnd(Lower(text), n)) == SliceFromEnd(Lower(text), n)
  {
  }

  lemma JoinedStep(pieces: seq<string>, i: nat)
    requires i < |pieces|
    ensures Lower(Joined(pieces[..i + 1])) == Lower(Joined(pieces[..i])) + Lower(pieces[i])
  {
    assert pieces[..i + 1][..i] == pieces[..i];
    LowerOfSum(Joined(pieces[..i]), pieces[i]);
  }

  lemma EmptyTextSearched(keywords: seq<string>, longest: nat)
    ensures Lower(Joined([])) == "" && Searched("", "", {}, keywords, longest)
  {
  }

  lemma TextIsPiecesAndRest(details: Details)
    ensures Lower(details.Text()) == Lower(Joined(details.pieces)) + Lower(details.rest)
  {
    LowerOfSum(Joined(details.pieces), details.rest);
  }

  lemma AllFoundInSummary(summary: string, keywords: seq<string>, details: Option<Details>)
    requires |Included(Lower(summary), keywords)| == |keywords|
    ensures KeywordsFound(summary, keywords, details) == Included(Lower(summary), keywords)
  {
    AllKeywordsFound(Included(Lower(summary), keywords), keywords);
  }

  /** Searches the details piece by piece, keeping only a short overlap between pieces. */
  method ScoreOversizedEncryptedDetails(summary: string, keywords: seq<string>, details: Option<Details>)
    returns (score: nat)
    ensures score == |KeywordsFound(summary, keywords, details)|
  {
    hide Lower, Included, Searched, SliceFromEnd, Joined, Details.Text;
    var matched := Included(Lower(summary), keywords);
    if details.None? || |matched| == |keywords| {
      if |matched| == |keywords| {
        AllFoundInSummary(summary, keywords, details);
      }
      return |matched|;
    }
    var Details(pieces, rest, failsBefore) := details.value;
    var longest := LongestLength(keywords);
    var overlap := "";
    var authenticated: set<string> := {};
    ghost var before := "";
    var i := 0;
    assert pieces[..0] == [];
    EmptyTextSearched(keywords, longest);
    while i < |pieces|
      invariant 0 <= i <= |pieces| && before == Lower(Joined(pieces[..i]))
      invariant Searched(before, overlap, authenticated, keywords, longest)
      invariant failsBefore.Some? ==> failsBefore.value >= i
    {
      if failsBefore == Some(i) {
        return |matched|;
      }
      var text := Lower(overlap + pieces[i]);
      SearchStep(before, overlap, authenticated, keywords, longest, pieces[i]);
      JoinedStep(pieces, i);
      authenticated := authenticated + Included(text, keywords);
      overlap := SliceFromEnd(text, longest - 1);
      before := before + Lower(pieces[i]);
      i := i + 1;
    }
    if failsBefore == Some(|pieces|) {
      return |matched|;
    }
    assert pieces[..|pieces|] == pieces;
    SearchStep(before, overlap, authenticated, keywords, longest, rest);
    TextIsPiecesAndRest(details.value);
    authenticated := authenticated + Included(Lower(overlap + rest), keywords);
    matched := matched + authenticated;
    return |matched|;
  }
}
