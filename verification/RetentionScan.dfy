/** The order in which the bounded scan visits rows. */
module RetentionScan {
  import opened Wrappers
  import opened RetentionState

  /** How many leading rows satisfy "p". */
  function Leading<T>(rows: seq<Row<T>>, p: Position -> bool): (n: nat)
    ensures n <= |rows|
  {
    if rows == [] || !p(rows[0].at) then 0 else 1 + Leading(rows[1..], p)
  }

  ghost predicate DownwardClosed(p: Position -> bool) {
    forall a, b :: Less(a, b) && p(b) ==> p(a)
  }

  lemma {:induction false} LeadingSplits<T>(rows: seq<Row<T>>, p: Position -> bool, i: nat)
    requires ScanOrdered(rows) && DownwardClosed(p) && i < |rows|
    ensures p(rows[i].at) <==> i < Leading(rows, p)
    decreases |rows|
  {
    if i > 0 {
      assert Less(rows[0].at, rows[i].at);
      LeadingSplits(rows[1..], p, i - 1);
    }
  }

  lemma {:induction false} NoneFiltered<T>(s: seq<T>, p: T -> bool)
    requires forall i :: 0 <= i < |s| ==> !p(s[i])
    ensures Filter(s, p) == []
    decreases |s|
  {
    if s != [] {
      NoneFiltered(s[1..], p);
    }
  }

  lemma {:induction false} AllFiltered<T>(s: seq<T>, p: T -> bool)
    requires forall i :: 0 <= i < |s| ==> p(s[i])
    ensures Filter(s, p) == s
    decreases |s|
  {
    if s != [] {
      AllFiltered(s[1..], p);
    }
  }

  lemma {:induction false} FilterSum<T>(a: seq<T>, b: seq<T>, p: T -> bool)
    ensures Filter(a + b, p) == Filter(a, p) + Filter(b, p)
    decreases |a|
  {
    if a == [] {
      assert a + b == b;
    } else {
      var first := if p(a[0]) then [a[0]] else [];
      assert (a + b)[1..] == a[1..] + b;
      assert Filter(a + b, p) == first + Filter(a[1..] + b, p);
      assert Filter(a, p) == first + Filter(a[1..], p);
      hide Filter;
      FilterSum(a[1..], b, p);
      assert first + (Filter(a[1..], p) + Filter(b, p)) == (first + Filter(a[1..], p)) + Filter(b, p);
    }
  }

  lemma FilterPieces<T>(x: seq<T>, y: seq<T>, z: seq<T>, p: T -> bool)
    requires forall i :: 0 <= i < |x| ==> !p(x[i])
    requires forall i :: 0 <= i < |y| ==> p(y[i])
    requires forall i :: 0 <= i < |z| ==> !p(z[i])
    ensures Filter(x + y + z, p) == y
  {
    NoneFiltered(x, p);
    AllFiltered(y, p);
    NoneFiltered(z, p);
    hide *;
    FilterSum(x, y, p);
    FilterSum(x + y, z, p);
  }

  lemma FilterRange<T>(s: seq<T>, p: T -> bool, a: nat, b: nat)
    requires a <= b <= |s|
    requires forall i :: 0 <= i < |s| ==> (p(s[i]) <==> a <= i < b)
    ensures Filter(s, p) == s[a..b]
  {
    hide Filter;
    FilterPieces(s[..a], s[a..b], s[b..], p);
    assert s == s[..a] + s[a..b] + s[b..];
  }

  lemma AppendTakes<T>(x: seq<Row<T>>, rows: seq<Row<T>>, p: Row<T> -> bool, limit: nat)
    ensures AppendSelected(Take(x, limit), rows, p, limit) == Take(x + Filter(rows, p), limit)
  {
    var more := Filter(rows, p);
    if |x| < limit {
      assert x + Take(more, limit - |x|) == Take(x + more, limit);
    } else {
      assert Take(x, limit) == (x + more)[..limit] == Take(x + more, limit) || x + more == x;
    }
  }

  /** The number of rows before "c", and the number up to and including it. */
  function Before<T>(rows: seq<Row<T>>, c: Position): nat {
    Leading(rows, (q: Position) => Less(q, c))
  }

  function UpTo<T>(rows: seq<Row<T>>, c: Position): nat {
    Leading(rows, (q: Position) => !Less(c, q))
  }

  lemma BoundsOfCursor<T>(rows: seq<Row<T>>, c: Position)
    requires ScanOrdered(rows)
    ensures Before(rows, c) <= UpTo(rows, c) <= Before(rows, c) + 1 && UpTo(rows, c) <= |rows|
    ensures forall i :: 0 <= i < |rows| ==> (Less(rows[i].at, c) <==> i < Before(rows, c))
    ensures forall i :: 0 <= i < |rows| ==> (Less(c, rows[i].at) <==> i >= UpTo(rows, c))
  {
    forall i | 0 <= i < |rows|
      ensures Less(rows[i].at, c) <==> i < Before(rows, c)
      ensures Less(c, rows[i].at) <==> i >= UpTo(rows, c)
    {
      LeadingSplits(rows, (q: Position) => Less(q, c), i);
      LeadingSplits(rows, (q: Position) => !Less(c, q), i);
    }
    var lo, hi := Before(rows, c), UpTo(rows, c);
    assert hi < |rows| ==> Less(c, rows[hi].at) && !Less(rows[hi].at, c);
    assert lo + 1 < |rows| ==> Less(rows[lo].at, rows[lo + 1].at);
  }

  /** The number of rows no later than "c" by creation time alone. */
  function ThroughTime<T>(rows: seq<Row<T>>, c: Position): nat {
    Leading(rows, (q: Position) => q.createdAt <= c.createdAt)
  }

  lemma BoundsOfTime<T>(rows: seq<Row<T>>, c: Position)
    requires ScanOrdered(rows)
    ensures UpTo(rows, c) <= ThroughTime(rows, c) <= |rows|
    ensures forall i :: 0 <= i < |rows| ==> (rows[i].at.createdAt <= c.createdAt <==> i < ThroughTime(rows, c))
  {
    BoundsOfCursor(rows, c);
    var hi, mid := UpTo(rows, c), ThroughTime(rows, c);
    forall i | 0 <= i < |rows| ensures rows[i].at.createdAt <= c.createdAt <==> i < mid {
      LeadingSplits(rows, (q: Position) => q.createdAt <= c.createdAt, i);
    }
    assert mid < |rows| ==> rows[mid].at.createdAt > c.createdAt && Less(c, rows[mid].at);
  }

  lemma RangesAfter<T>(rows: seq<Row<T>>, c: Position)
    requires ScanOrdered(rows)
    ensures Filter(rows, SameTimeAfter(c)) + Filter(rows, Later(c)) == rows[UpTo(rows, c)..]
  {
    hide UpTo, Before, ThroughTime, Filter;
    BoundsOfCursor(rows, c);
    BoundsOfTime(rows, c);
    var hi, mid := UpTo(rows, c), ThroughTime(rows, c);
    FilterRange(rows, SameTimeAfter(c), hi, mid);
    FilterRange(rows, Later(c), mid, |rows|);
    assert rows[hi..mid] + rows[mid..|rows|] == rows[hi..];
  }

  lemma RangesBefore<T>(rows: seq<Row<T>>, c: Position)
    requires ScanOrdered(rows)
    ensures Filter(rows, Earlier(c)) + Filter(rows, SameTimeBefore(c)) == rows[..Before(rows, c)]
  {
    hide Before, UpTo, BeforeTime, Filter;
    BoundsOfCursor(rows, c);
    BoundsOfEarlier(rows, c);
    var lo, mid := Before(rows, c), BeforeTime(rows, c);
    FilterRange(rows, Earlier(c), 0, mid);
    FilterRange(rows, SameTimeBefore(c), mid, lo);
    assert rows[0..mid] + rows[mid..lo] == rows[..lo];
  }

  /** How many rows are older than the cursor's time. */
  function BeforeTime<T>(rows: seq<Row<T>>, c: Position): (n: nat)
    ensures n <= |rows|
  {
    Leading(rows, (q: Position) => q.createdAt < c.createdAt)
  }

  lemma BoundsOfEarlier<T>(rows: seq<Row<T>>, c: Position)
    requires ScanOrdered(rows)
    ensures BeforeTime(rows, c) <= Before(rows, c)
    ensures forall i :: 0 <= i < |rows| ==> (rows[i].at.createdAt < c.createdAt <==> i < BeforeTime(rows, c))
  {
    BoundsOfCursor(rows, c);
    var lo, mid := Before(rows, c), BeforeTime(rows, c);
    forall i | 0 <= i < |rows| ensures rows[i].at.createdAt < c.createdAt <==> i < mid {
      LeadingSplits(rows, (q: Position) => q.createdAt < c.createdAt, i);
    }
    assert lo < |rows| ==> !Less(rows[lo].at, c) && rows[lo].at.createdAt >= c.createdAt;
  }

  /** Every row but the one at the cursor, in cyclic order after it. */
  function CyclicAfter<T>(rows: seq<Row<T>>, c: Position): seq<Row<T>> {
    rows[UpTo(rows, c)..] + rows[..Before(rows, c)]
  }

  /** The four range queries read the rows after the cursor and then, wrapping around, the rows
      before it: each once, in order, up to the limit. */
  lemma WindowIsCyclic<T>(rows: seq<Row<T>>, c: Position, limit: nat)
    requires ScanOrdered(rows)
    ensures KeysetWindow(rows, c, limit) == Take(CyclicAfter(rows, c), limit)
  {
    hide Filter, UpTo, Before;
    var f1, f2 := Filter(rows, SameTimeAfter(c)), Filter(rows, Later(c));
    var f3, f4 := Filter(rows, Earlier(c)), Filter(rows, SameTimeBefore(c));
    AppendTakes([], rows, SameTimeAfter(c), limit);
    AppendTakes([] + f1, rows, Later(c), limit);
    AppendTakes([] + f1 + f2, rows, Earlier(c), limit);
    AppendTakes([] + f1 + f2 + f3, rows, SameTimeBefore(c), limit);
    RangesAfter(rows, c);
    RangesBefore(rows, c);
    assert [] + f1 + f2 + f3 + f4 == (f1 + f2) + (f3 + f4);
  }

  lemma {:induction false} FilterKeepsOrder<T>(rows: seq<Row<T>>, p: Row<T> -> bool)
    requires ScanOrdered(rows)
    ensures ScanOrdered(Filter(rows, p))
    decreases |rows|
  {
    if rows != [] {
      FilterKeepsOrder(rows[1..], p);
      var rest := Filter(rows[1..], p);
      forall j | 0 <= j < |rest| ensures Less(rows[0].at, rest[j].at) {
        assert rest[j] in rows[1..];
      }
    }
  }

  lemma {:induction false} FilterKeepsDistinctIds<T>(rows: seq<Row<T>>, p: Row<T> -> bool)
    requires DistinctIds(rows)
    ensures DistinctIds(Filter(rows, p))
    decreases |rows|
  {
    if rows != [] {
      FilterKeepsDistinctIds(rows[1..], p);
      var rest := Filter(rows[1..], p);
      forall j | 0 <= j < |rest| ensures rows[0].at.id != rest[j].at.id {
        assert rest[j] in rows[1..];
      }
    }
  }

  lemma {:induction false} FilterShrinks<T>(s: seq<T>, p: T -> bool, x: T)
    requires x in s && !p(x)
    ensures |Filter(s, p)| < |s|
    decreases |s|
  {
    if s[0] != x {
      FilterShrinks(s[1..], p, x);
    }
  }

  lemma {:induction false} FilterAll<T>(s: seq<T>, p: T -> bool)
    requires forall x :: x in s ==> p(x)
    ensures Filter(s, p) == s
    decreases |s|
  {
    if s != [] {
      FilterAll(s[1..], p);
    }
  }
}
