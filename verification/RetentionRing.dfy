/** The table as the scan goes round it: a scan reads the beginning of the ring, and whatever a call
    deletes, the next ring is what is left of this one, turned to where the scan resumes. */
module RetentionRing {
  import opened Wrappers
  import opened RetentionState
  import opened RetentionScan

  /** All rows in cyclic order after the cursor; a row at the cursor itself comes last. */
  function Ring<T>(rows: seq<Row<T>>, cursor: Option<Position>): seq<Row<T>> {
    match cursor
    case Some(c) => rows[Passed(rows, c)..] + rows[..Passed(rows, c)]
    case None => rows
  }

  function Passed<T>(rows: seq<Row<T>>, c: Position): (n: nat)
    ensures n <= |rows|
  {
    Min(UpTo(rows, c), |rows|)
  }

  /** There is a row at the cursor, and the scan leaves it out. */
  predicate LeavesOneOut<T>(rows: seq<Row<T>>, cursor: Option<Position>) {
    cursor.Some? && Before(rows, cursor.value) < UpTo(rows, cursor.value)
  }

  lemma RingSize<T>(rows: seq<Row<T>>, cursor: Option<Position>)
    ensures |Ring(rows, cursor)| == |rows|
    ensures forall r :: r in Ring(rows, cursor) <==> r in rows
  {
    if cursor.Some? {
      var n := Passed(rows, cursor.value);
      assert rows == rows[..n] + rows[n..];
    }
  }

  lemma InRing<T>(rows: seq<Row<T>>, cursor: Option<Position>, r: Row<T>)
    ensures r in Ring(rows, cursor) <==> r in rows
  {
    RingSize(rows, cursor);
  }

  /** A scan reads as much of the ring as its limit allows, but never the row at the cursor. */
  lemma ScanIsRingPrefix<T>(rows: seq<Row<T>>, cursor: Option<Position>, limit: nat)
    requires ScanOrdered(rows)
    ensures LeavesOneOut(rows, cursor) ==> rows != []
    ensures var readable := if LeavesOneOut(rows, cursor) then |rows| - 1 else |rows|;
            && Min(limit, readable) <= |Ring(rows, cursor)|
            && ScanFrom(rows, cursor, limit) == Ring(rows, cursor)[..Min(limit, readable)]
  {
    hide KeysetWindow, UpTo, Before;
    if cursor.Some? {
      WindowIsCyclic(rows, cursor.value, limit);
      BoundsOfCursor(rows, cursor.value);
      var lo, hi := Before(rows, cursor.value), UpTo(rows, cursor.value);
      var all := rows[hi..] + rows[..lo];
      assert Ring(rows, cursor) == rows[hi..] + rows[..hi];
      assert all == Ring(rows, cursor)[..|all|];
    }
  }

  /** The row at the cursor is the last of the ring. */
  lemma LeftOutIsLast<T>(rows: seq<Row<T>>, cursor: Option<Position>)
    requires ScanOrdered(rows) && LeavesOneOut(rows, cursor)
    ensures rows != [] && |Ring(rows, cursor)| == |rows| && Ring(rows, cursor)[|rows| - 1].at == cursor.value
  {
    hide UpTo, Before;
    var c := cursor.value;
    BoundsOfCursor(rows, c);
    RingSize(rows, cursor);
    var r := rows[UpTo(rows, c) - 1];
    assert !Less(r.at, c) && !Less(c, r.at);
    assert Ring(rows, cursor)[|rows| - 1] == r;
  }

  /** Deleting rows and splitting at a position can be done in either order. */
  lemma SplitAfterDeletion<T>(rows: seq<Row<T>>, ids: set<nat>, c: Position)
    requires ScanOrdered(rows)
    ensures UpTo(rows, c) <= |rows| && UpTo(Without(rows, ids), c) <= |Without(rows, ids)|
    ensures Without(rows, ids)[..UpTo(Without(rows, ids), c)] == Without(rows[..UpTo(rows, c)], ids)
    ensures Without(rows, ids)[UpTo(Without(rows, ids), c)..] == Without(rows[UpTo(rows, c)..], ids)
  {
    hide UpTo, Before, Filter;
    var left := Without(rows, ids);
    FilterKeepsOrder(rows, (r: Row<T>) => r.at.id !in ids);
    BoundsOfCursor(rows, c);
    BoundsOfCursor(left, c);
    var n := UpTo(rows, c);
    var a, b := Without(rows[..n], ids), Without(rows[n..], ids);
    WithoutSum(rows[..n], rows[n..], ids);
    assert rows == rows[..n] + rows[n..];
    assert left == a + b;
    forall i | 0 <= i < |left| ensures i < |a| <==> !Less(c, left[i].at) {
      if i < |a| {
        assert a[i] in rows[..n];
      } else {
        assert b[i - |a|] in rows[n..];
      }
    }
    SameSplit(left, |a|, UpTo(left, c), c);
  }

  lemma SameSplit<T>(left: seq<Row<T>>, a: nat, u: nat, c: Position)
    requires a <= |left| && u <= |left|
    requires forall i :: 0 <= i < |left| ==> (i < a <==> !Less(c, left[i].at))
    requires forall i :: 0 <= i < |left| ==> (Less(c, left[i].at) <==> i >= u)
    ensures a == u
  {
    assert a < |left| ==> Less(c, left[a].at);
    assert u < |left| ==> Less(c, left[u].at);
  }

  lemma WithoutSum<T>(a: seq<Row<T>>, b: seq<Row<T>>, ids: set<nat>)
    ensures Without(a + b, ids) == Without(a, ids) + Without(b, ids)
  {
    FilterSum(a, b, (r: Row<T>) => r.at.id !in ids);
  }

  /** The ring turned by m places. */
  function Turned<T>(ring: seq<Row<T>>, m: nat): seq<Row<T>>
    requires m <= |ring|
  {
    ring[m..] + ring[..m]
  }

  /** Splitting at "u" and turning by "m" places is splitting at "v". */
  lemma SplitTurned<T>(rows: seq<T>, u: nat, m: nat, v: nat)
    requires u <= |rows| && 1 <= m <= |rows|
    requires v == if u + m <= |rows| then u + m else u + m - |rows|
    ensures var ring := rows[u..] + rows[..u];
            ring[m..] + ring[..m] == rows[v..] + rows[..v] && ring[m - 1] == rows[v - 1]
  {
    var ring := rows[u..] + rows[..u];
    if u + m <= |rows| {
      assert ring[m..] == rows[v..] + rows[..u];
      assert ring[..m] == rows[u..v];
      assert rows[..u] + rows[u..v] == rows[..v];
    } else {
      assert ring[m..] == rows[v..u];
      assert ring[..m] == rows[u..] + rows[..v];
      assert rows[v..u] + rows[u..] == rows[v..];
    }
  }

  /** Moving the cursor to the m-th row of the ring turns the ring by m places. */
  lemma CursorTurnsRing<T>(rows: seq<Row<T>>, cursor: Option<Position>, m: nat)
    requires ScanOrdered(rows) && 1 <= m <= |rows|
    ensures |Ring(rows, cursor)| == |rows|
    ensures Ring(rows, Some(Ring(rows, cursor)[m - 1].at)) == Turned(Ring(rows, cursor), m)
  {
    var u := SplitPoint(rows, cursor);
    var v := if u + m <= |rows| then u + m else u + m - |rows|;
    RingSplit(rows, cursor);
    SplitTurned(rows, u, m, v);
    PassedRow(rows, v - 1);
    RingSplit(rows, Some(rows[v - 1].at));
    hide Ring, Passed, ScanOrdered;
  }

  /** Where the ring starts. */
  function SplitPoint<T>(rows: seq<Row<T>>, cursor: Option<Position>): (n: nat)
    ensures n <= |rows|
  {
    if cursor.Some? then Passed(rows, cursor.value) else 0
  }

  lemma RingSplit<T>(rows: seq<Row<T>>, cursor: Option<Position>)
    ensures Ring(rows, cursor) == rows[SplitPoint(rows, cursor)..] + rows[..SplitPoint(rows, cursor)]
  {
    hide Passed;
  }

  lemma PassedRow<T>(rows: seq<Row<T>>, j: nat)
    requires ScanOrdered(rows) && j < |rows|
    ensures Passed(rows, rows[j].at) == j + 1
  {
    hide UpTo;
    AfterRow(rows, j);
  }

  lemma AfterRow<T>(rows: seq<Row<T>>, j: nat)
    requires ScanOrdered(rows) && j < |rows|
    ensures UpTo(rows, rows[j].at) == j + 1
  {
    hide UpTo, Before;
    BoundsOfCursor(rows, rows[j].at);
    assert j + 1 < |rows| ==> Less(rows[j].at, rows[j + 1].at);
    assert !Less(rows[j].at, rows[j].at);
  }

  lemma DeletionThinsRing<T>(rows: seq<Row<T>>, cursor: Option<Position>, ids: set<nat>)
    requires ScanOrdered(rows)
    ensures Ring(Without(rows, ids), cursor) == Without(Ring(rows, cursor), ids)
  {
    hide UpTo, Before, Without;
    if cursor.Some? {
      SplitAfterDeletion(rows, ids, cursor.value);
      var n := UpTo(rows, cursor.value);
      WithoutSum(rows[n..], rows[..n], ids);
    }
  }

  /** After a call that deletes "ids" and resumes after the first m rows of the ring. */
  lemma NextRing<T>(rows: seq<Row<T>>, cursor: Option<Position>, m: nat, ids: set<nat>)
    requires ScanOrdered(rows) && m <= |rows|
    ensures |Ring(rows, cursor)| == |rows|
    ensures var resume := if m == 0 then cursor else Some(Ring(rows, cursor)[m - 1].at);
            Ring(Without(rows, ids), resume) == Without(Turned(Ring(rows, cursor), m), ids)
  {
    hide UpTo, Before, Without, Ring;
    RingSize(rows, cursor);
    var ring := Ring(rows, cursor);
    if m == 0 {
      DeletionThinsRing(rows, cursor, ids);
      assert Turned(ring, 0) == ring;
    } else {
      CursorTurnsRing(rows, cursor, m);
      DeletionThinsRing(rows, Some(ring[m - 1].at), ids);
    }
  }

  /** With at most one row the cursor makes no difference to the ring. */
  lemma SmallRing<T>(rows: seq<Row<T>>, cursor: Option<Position>)
    requires |rows| <= 1
    ensures Ring(rows, cursor) == rows
  {
  }
}
