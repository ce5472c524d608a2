/** Which paths a write may take: the containers it passes, and the reason behind each refusal. */
module JsonPointerPaths {
  import opened Wrappers
  import opened JsonPointerText
  import opened JsonPointerState
  import opened JsonPointerLaws

  // ----- Index texts -----

  function Digit(n: nat): char
    requires n < 10
  {
    '0' + n as char
  }

  function Decimal(n: nat): string {
    if n < 10 then [Digit(n)] else Decimal(n / 10) + [Digit(n % 10)]
  }

  lemma {:induction false} DecimalIsIndex(n: nat)
    ensures IsIndexText(Decimal(n)) && DecimalValue(Decimal(n)) == n
    ensures n > 0 ==> Decimal(n)[0] != '0'
    decreases n
  {
    if n < 10 {
      assert Decimal(n)[..0] == "";
    } else {
      DecimalIsIndex(n / 10);
      var front := Decimal(n / 10);
      assert Decimal(n)[..|front|] == front && Decimal(n)[0] == front[0];
    }
  }

  lemma OneDigitIsDecimal(s: string)
    requires |s| == 1 && '0' <= s[0] <= '9'
    ensures DecimalValue(s) == (s[0] - '0') as nat && Decimal(DecimalValue(s)) == s
  {
    assert s[..0] == "" && DecimalValue("") == 0;
  }

  lemma OneMoreDigit(front: string, n: nat, last: char)
    requires '0' <= last <= '9' && (forall i :: 0 <= i < |front| ==> '0' <= front[i] <= '9')
    requires n > 0 && DecimalValue(front) == n && Decimal(n) == front
    ensures var s := front + [last];
            (forall i :: 0 <= i < |s| ==> '0' <= s[i] <= '9') && DecimalValue(s) > 0 && Decimal(DecimalValue(s)) == s
  {
    var s, d := front + [last], (last - '0') as nat;
    assert s[..|s| - 1] == front && DecimalValue(s) == 10 * n + d;
    assert (10 * n + d) / 10 == n && (10 * n + d) % 10 == d;
  }

  lemma {:induction false} IndexIsDecimal(s: string)
    requires IsIndexText(s)
    ensures Decimal(DecimalValue(s)) == s && (s[0] != '0' ==> DecimalValue(s) > 0)
    decreases |s|
  {
    if |s| == 1 {
      OneDigitIsDecimal(s);
    } else {
      var front, last := s[..|s| - 1], s[|s| - 1];
      assert s == front + [last] && front[0] == s[0];
      hide Decimal, DecimalValue;
      IndexIsDecimal(front);
      OneMoreDigit(front, DecimalValue(front), last);
    }
  }

  /** The segments taken for array indices are the decimal texts of the numbers up to the limit. */
  lemma IndexSegments(s: string, o: Options)
    requires IsLimit(o.maxArrayIndex)
    ensures ParseArrayIndex(s, o) == Ok(true) <==> exists n: nat :: n <= o.maxArrayIndex && s == Decimal(n)
    ensures ParseArrayIndex(s, o) == Err(IndexTooLarge) <==> exists n: nat :: n > o.maxArrayIndex && s == Decimal(n)
    ensures ParseArrayIndex(s, o) == Ok(false) <==> forall n: nat :: s != Decimal(n)
  {
    if IsIndexText(s) {
      IndexIsDecimal(s);
    }
    if n: nat :| s == Decimal(n) {
      DecimalIsIndex(n);
    }
    forall n: nat | s == Decimal(n) ensures IsIndexText(s) && DecimalValue(s) == n {
      DecimalIsIndex(n);
    }
    hide IsIndexText, DecimalValue, Decimal;
  }

  // ----- What a write passes -----

  /** The container the first i segments lead to, read one own property after the other. */
  ghost predicate LeadsTo(h: Heap, c: nat, segments: seq<string>, o: Options, i: nat, d: nat)
    requires Closed(h) && c in h && i <= |segments|
  {
    d in h && Get(h, Ref(c), segments[..i], o) == Ok(Ref(d))
  }

  lemma LeadsFurther(h: Heap, c: nat, segments: seq<string>, o: Options, i: nat, d: nat, child: nat)
    requires Closed(h) && c in h && segments != [] && Has(h[c], segments[0], o) == Ok(true)
    requires h[c].slots[segments[0]] == Ref(child) && child in h && i <= |segments[1..]|
    requires LeadsTo(h, child, segments[1..], o, i, d)
    ensures LeadsTo(h, c, segments, o, i + 1, d)
  {
    hide ParseArrayIndex;
    assert segments[..i + 1][1..] == segments[1..][..i];
  }

  /** On the way to where it begins a write passes arrays and plain objects only, none of which is a
      prototype. */
  lemma {:induction false} WalkPassesOwnContainers(
      h: Heap, c: nat, segments: seq<string>, o: Options, i: nat) returns (d: nat)
    requires Closed(h) && c in h && segments != [] && Walk(h, c, segments, o).Ok?
    requires i <= Walk(h, c, segments, o).value.depth
    ensures LeadsTo(h, c, segments, o, i, d) && (i > 0 ==> !h[d].kind.Foreign? && !h[d].prototype)
    ensures i == 0 ==> d == c
    ensures i == Walk(h, c, segments, o).value.depth ==> d == Walk(h, c, segments, o).value.container
    decreases |segments|
  {
    hide ParseArrayIndex;
    if i == 0 {
      d := c;
    } else {
      var child := Child(h, h[c].slots[segments[0]]).value;
      d := WalkPassesOwnContainers(h, child, segments[1..], o, i - 1);
      LeadsFurther(h, c, segments, o, i - 1, d, child);
    }
  }

  /** A write that is allowed begins in a container that is not frozen and, if it is an array, under an
      index within the limit; it creates containers only if asked to, and only where nothing is. */
  lemma AllowedWrite(h: Heap, c: nat, segments: seq<string>, o: Options, i: nat) returns (d: nat)
    requires Closed(h) && c in h && segments != [] && SetPlace(h, c, segments, o).Ok?
    requires i <= SetPlace(h, c, segments, o).value.depth
    ensures LeadsTo(h, c, segments, o, i, d) && !h[d].prototype && (i > 0 ==> !h[d].kind.Foreign?)
    ensures var place := SetPlace(h, c, segments, o).value;
            && (i == place.depth ==> d == place.container)
            && !h[place.container].frozen
            && (h[place.container].kind.Array? ==> ParseArrayIndex(segments[place.depth], o) == Ok(true))
            && (place.depth + 1 < |segments| ==>
                 o.createMissing && segments[place.depth] !in h[place.container].slots)
  {
    hide ParseArrayIndex, Walk;
    d := WalkPassesOwnContainers(h, c, segments, o, i);
    WalkStopsWhereNothingIs(h, c, segments, o);
    var index := ParseArrayIndex(segments[Walk(h, c, segments, o).value.depth], o);
    assert index.Err? || index == Ok(true) || index == Ok(false) by { IsEither(index); }
  }

  lemma IsEither(r: Result<bool, PointerFailure>)
    ensures r.Err? || r == Ok(true) || r == Ok(false)
  {
    if r.Ok? {
      assert r == Ok(r.value) && (r.value || !r.value);
    }
  }

  lemma {:induction false} WalkStopsWhereNothingIs(h: Heap, c: nat, segments: seq<string>, o: Options)
    requires Closed(h) && c in h && segments != [] && Walk(h, c, segments, o).Ok?
    ensures var place := Walk(h, c, segments, o).value;
            place.depth + 1 < |segments| ==>
              && o.createMissing
              && (segments[place.depth] in h[place.container].slots ==>
                   h[place.container].kind.Array? && ParseArrayIndex(segments[place.depth], o) == Ok(false))
    decreases |segments|
  {
    hide ParseArrayIndex;
    if |segments| > 1 && Has(h[c], segments[0], o) == Ok(true) {
      WalkStopsWhereNothingIs(h, Child(h, h[c].slots[segments[0]]).value, segments[1..], o);
    }
  }

  // ----- Why a write is refused -----

  ghost predicate RefusedAt(h: Heap, c: nat, segments: seq<string>, o: Options, i: nat, e: PointerFailure)
    requires Closed(h) && c in h
  {
    && i < |segments|
    && match e
       case PrototypeObject => exists d :: LeadsTo(h, c, segments, o, i, d) && h[d].prototype
       case NotAContainer =>
         && Get(h, Ref(c), segments[..i], o).Ok?
         && forall d :: LeadsTo(h, c, segments, o, i, d) ==> h[d].kind.Foreign?
       case Missing => !o.createMissing && i + 1 < |segments| && Get(h, Ref(c), segments[..i + 1], o) == Ok(Undefined)
       case Frozen => exists d :: LeadsTo(h, c, segments, o, i, d) && h[d].frozen
       case NotAnIndex =>
         exists d :: LeadsTo(h, c, segments, o, i, d) && h[d].kind.Array? && !IsIndexText(segments[i])
       case IndexTooLarge => IsIndexText(segments[i]) && DecimalValue(segments[i]) > o.maxArrayIndex
       case BadOption => !IsLimit(o.maxArrayIndex)
       case _ => false
  }

  lemma IndexFailure(s: string, o: Options)
    requires ParseArrayIndex(s, o).Err?
    ensures var e := ParseArrayIndex(s, o).error;
            || (e == BadOption && !IsLimit(o.maxArrayIndex))
            || (e == IndexTooLarge && IsIndexText(s) && DecimalValue(s) > o.maxArrayIndex)
  {
  }

  lemma RefusedLater(h: Heap, c: nat, segments: seq<string>, o: Options, i: nat, e: PointerFailure, child: nat)
    requires Closed(h) && c in h && segments != [] && Has(h[c], segments[0], o) == Ok(true)
    requires h[c].slots[segments[0]] == Ref(child) && child in h
    requires RefusedAt(h, child, segments[1..], o, i, e)
    ensures RefusedAt(h, c, segments, o, i + 1, e)
  {
    hide ParseArrayIndex, IsIndexText, DecimalValue;
    var rest := segments[1..];
    assert segments[..i + 1][1..] == rest[..i];
    assert i + 1 < |rest| ==> segments[..i + 2][1..] == rest[..i + 1];
    assert forall d :: LeadsTo(h, c, segments, o, i + 1, d) <==> LeadsTo(h, child, rest, o, i, d);
  }

  lemma {:induction false} WalkRefusal(h: Heap, c: nat, segments: seq<string>, o: Options) returns (i: nat)
    requires Closed(h) && c in h && segments != [] && Walk(h, c, segments, o).Err?
    ensures RefusedAt(h, c, segments, o, i, Walk(h, c, segments, o).error)
    decreases |segments|
  {
    hide IsIndexText, DecimalValue, ParseArrayIndex, RefusedAt;
    match Has(h[c], segments[0], o)
    case Err(e) =>
      i := 0;
      IndexFailure(segments[0], o);
      RefusedByIndex(h, c, segments, o, 0, e);
    case Ok(false) =>
      i := 0;
      RefusedAsMissing(h, c, segments, o);
    case Ok(true) =>
      var child := Child(h, h[c].slots[segments[0]]);
      if child.Err? {
        i := 1;
        RefusedByChild(h, c, segments, o);
      } else {
        var j := WalkRefusal(h, child.value, segments[1..], o);
        i := j + 1;
        RefusedLater(h, c, segments, o, j, Walk(h, c, segments, o).error, child.value);
      }
  }

  lemma RefusedByIndex(h: Heap, c: nat, segments: seq<string>, o: Options, i: nat, e: PointerFailure)
    requires Closed(h) && c in h && i < |segments| && ParseArrayIndex(segments[i], o) == Err(e)
    ensures RefusedAt(h, c, segments, o, i, e)
  {
    IndexFailure(segments[i], o);
    hide IsIndexText, DecimalValue, ParseArrayIndex;
  }

  lemma RefusedAsMissing(h: Heap, c: nat, segments: seq<string>, o: Options)
    requires Closed(h) && c in h && |segments| > 1 && Has(h[c], segments[0], o) == Ok(false) && !o.createMissing
    ensures RefusedAt(h, c, segments, o, 0, Missing)
  {
    hide IsIndexText, DecimalValue, ParseArrayIndex;
    assert segments[..1][0] == segments[0];
  }

  lemma RefusedByChild(h: Heap, c: nat, segments: seq<string>, o: Options)
    requires Closed(h) && c in h && |segments| > 1 && Has(h[c], segments[0], o) == Ok(true)
    requires Child(h, h[c].slots[segments[0]]).Err?
    ensures RefusedAt(h, c, segments, o, 1, Child(h, h[c].slots[segments[0]]).error)
  {
    hide IsIndexText, DecimalValue, ParseArrayIndex;
    var v := h[c].slots[segments[0]];
    assert segments[..1][1..] == [] && segments[..1][0] == segments[0];
    assert Get(h, Ref(c), segments[..1], o) == Ok(v);
    if v.Ref? && h[v.id].prototype {
      assert LeadsTo(h, c, segments, o, 1, v.id);
    }
  }

  lemma {:induction false} ChainRefusal(segments: seq<string>, o: Options) returns (i: nat)
    requires ChainFailure(segments, o).Some?
    ensures i < |segments| && ParseArrayIndex(segments[i], o) == Err(ChainFailure(segments, o).value)
  {
    hide ParseArrayIndex;
    if ParseArrayIndex(segments[0], o).Err? {
      i := 0;
    } else {
      i := ChainRefusal(segments[1..], o);
      i := i + 1;
    }
  }

  /** Every refused write has its reason on the path: a prototype or something else than a container in
      the way, nothing there to follow, a frozen container, an array without an index, or one too large. */
  lemma RefusedWrite(h: Heap, c: nat, segments: seq<string>, o: Options) returns (i: nat)
    requires Closed(h) && c in h && segments != [] && SetPlace(h, c, segments, o).Err?
    ensures RefusedAt(h, c, segments, o, i, SetPlace(h, c, segments, o).error)
  {
    hide ParseArrayIndex, Walk, ChainFailure, IsIndexText, DecimalValue;
    if h[c].prototype {
      i := 0;
      assert LeadsTo(h, c, segments, o, 0, c);
    } else if Walk(h, c, segments, o).Err? {
      i := WalkRefusal(h, c, segments, o);
    } else {
      var place := Walk(h, c, segments, o).value;
      var d := WalkPassesOwnContainers(h, c, segments, o, place.depth);
      if ChainFailure(segments[place.depth + 1..], o).Some? {
        var j := ChainRefusal(segments[place.depth + 1..], o);
        i := place.depth + 1 + j;
        RefusedByIndex(h, c, segments, o, i, ChainFailure(segments[place.depth + 1..], o).value);
      } else {
        i := place.depth;
        if ParseArrayIndex(segments[i], o).Err? {
          RefusedByIndex(h, c, segments, o, i, ParseArrayIndex(segments[i], o).error);
        }
        NoIndexText(segments[i], o);
      }
    }
  }

  lemma NoIndexText(s: string, o: Options)
    ensures ParseArrayIndex(s, o) == Ok(false) ==> !IsIndexText(s)
  {
  }
}
