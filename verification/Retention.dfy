/** The enforcer itself: tables and scan position as fields, changed in one transaction. */
module Retention {
  import opened Wrappers
  import opened RetentionState
  import opened RetentionScan
  import opened RetentionLaws
  import opened RetentionBudget

  const DEFAULT_MAX_DELETES: nat := 100

  datatype Failure = InvalidOptions | AuditFailed

  function DefaultScanRows(maxDeletes: nat): nat {
    var rows := if maxDeletes * 10 > 100 then maxDeletes * 10 else 100;
    if rows < MAX_SCAN_ROWS then rows else MAX_SCAN_ROWS
  }

  function ResolveOptions(maxDeletes: Option<nat>, maxScanRows: Option<nat>, maxEntries: Option<nat>): Options {
    var deletes := if maxDeletes.Some? then maxDeletes.value else DEFAULT_MAX_DELETES;
    Options(deletes, if maxScanRows.Some? then maxScanRows.value else DefaultScanRows(deletes), maxEntries)
  }

  /** Unless told otherwise a call deletes a hundred rows and scans ten for each, a hundred at least. */
  lemma DefaultScanIsTenfold(maxDeletes: nat, maxEntries: Option<nat>)
    requires maxDeletes <= MAX_DELETES
    ensures ResolveOptions(Some(maxDeletes), None, maxEntries)
            == Options(maxDeletes, Max(10 * maxDeletes, 100), maxEntries)
    ensures ResolveOptions(None, None, maxEntries) == Options(100, 1_000, maxEntries)
  {
  }

  lemma {:induction false} WithoutOneMore<T>(rows: seq<Row<T>>, ids: set<nat>, id: nat)
    ensures Without(Without(rows, ids), {id}) == Without(rows, ids + {id})
    decreases |rows|
  {
    if rows != [] {
      WithoutOneMore(rows[1..], ids, id);
      var tail := Without(rows[1..], ids);
      if rows[0].at.id !in ids {
        assert Without(rows, ids) == [rows[0]] + tail;
        assert ([rows[0]] + tail)[1..] == tail;
      } else {
        assert Without(rows, ids) == tail;
      }
    }
  }

  lemma WithoutNone<T>(rows: seq<Row<T>>)
    ensures Without(rows, {}) == rows
  {
    var none: set<nat> := {};
    FilterAll(rows, (r: Row<T>) => r.at.id !in none);
  }

  lemma IdsOfPrefix(es: seq<Entry>, i: nat, store: Store)
    requires i < |es|
    ensures Ids(es[..i + 1], store) == Ids(es[..i], store) + (if es[i].store == store then {es[i].id} else {})
  {
    assert es[..i + 1] == es[..i] + [es[i]];
  }

  class RetentionEnforcer {
    var episodic: seq<Row<Episode>>
    var checkpoints: seq<Row<Checkpoint>>
    var episodicCursor: Option<Position>
    var checkpointCursor: Option<Position>
    var floorSearch: Option<nat>
    var floor: Option<nat>

    ghost function View(): State
      reads this
    {
      State(episodic, checkpoints, episodicCursor, checkpointCursor, floorSearch, floor)
    }

    constructor (st: State)
      ensures View() == st
    {
      episodic, checkpoints := st.episodic, st.checkpoints;
      episodicCursor, checkpointCursor, floorSearch, floor :=
        st.episodicCursor, st.checkpointCursor, st.floorSearch, st.floor;
    }

    /** Deletes the selected rows one by one. */
    method DeleteRows(selected: seq<Entry>) returns (events: nat, checkpointRows: nat)
      modifies `episodic, `checkpoints
      ensures episodic == Without(old(episodic), Ids(selected, EpisodicStore))
      ensures checkpoints == Without(old(checkpoints), Ids(selected, CheckpointStore))
      ensures events == |old(episodic)| - |episodic| && checkpointRows == |old(checkpoints)| - |checkpoints|
    {
      hide Without, Ids;
      events, checkpointRows := 0, 0;
      ghost var es, cs := episodic, checkpoints;
      assert Ids(selected[..0], EpisodicStore) == {} == Ids(selected[..0], CheckpointStore) by {
        NoIds();
        assert selected[..0] == [];
      }
      WithoutNone(es);
      WithoutNone(cs);
      for i := 0 to |selected|
        invariant episodic == Without(es, Ids(selected[..i], EpisodicStore))
        invariant checkpoints == Without(cs, Ids(selected[..i], CheckpointStore))
        invariant events == |es| - |episodic| && checkpointRows == |cs| - |checkpoints|
      {
        var id := selected[i].id;
        IdsOfPrefix(selected, i, EpisodicStore);
        IdsOfPrefix(selected, i, CheckpointStore);
        if selected[i].store == EpisodicStore {
          WithoutOneMore(es, Ids(selected[..i], EpisodicStore), id);
          WithoutShrinks(episodic, {id});
          events := events + (|episodic| - |Without(episodic, {id})|);
          episodic := Without(episodic, {id});
        } else {
          WithoutOneMore(cs, Ids(selected[..i], CheckpointStore), id);
          WithoutShrinks(checkpoints, {id});
          checkpointRows := checkpointRows + (|checkpoints| - |Without(checkpoints, {id})|);
          checkpoints := Without(checkpoints, {id});
        }
        assert Ids(selected[..i], EpisodicStore) + {} == Ids(selected[..i], EpisodicStore);
        assert Ids(selected[..i], CheckpointStore) + {} == Ids(selected[..i], CheckpointStore);
      }
      assert selected[..|selected|] == selected;
    }

    /** One bounded enforcement: scan, decide, delete at most the cap, and move the scan position;
        on any failure nothing changes. */
    method EnforceMemoryRetention(maxDeletes: Option<nat>, maxScanRows: Option<nat>, maxEntries: Option<nat>,
                                  auditOk: bool)
      returns (r: Result<(nat, nat), Failure>)
      modifies this
      ensures var o := ResolveOptions(maxDeletes, maxScanRows, maxEntries);
              && (r.Ok? <==> ValidOptions(o) && auditOk)
              && (r.Ok? ==>
                   && View() == Enforced(old(View()), o)
                   && r.value == (|old(episodic)| - |episodic|, |old(checkpoints)| - |checkpoints|))
      ensures var o, st := ResolveOptions(maxDeletes, maxScanRows, maxEntries), old(View());
              r.Ok? && ValidState(st) ==>
                r.value.0 + r.value.1
                == Min(o.maxDeletes,
                       Due(AgedScanned(st, o.maxScanRows), UnprotectedScanned(st, o.maxScanRows), Rows(st), maxEntries))
      ensures r.Err? ==> View() == old(View())
      ensures old(ValidState(View())) ==> ValidState(View()) && LastUsable(checkpoints) == LastUsable(old(checkpoints))
    {
      hide Selected, NextEpisodicCursor, NextCheckpointCursor, NextFloorSearch, NewestUsable, ValidState,
           LastUsable, Without, Ids, AgedScanned, UnprotectedScanned, Due;
      var o := ResolveOptions(maxDeletes, maxScanRows, maxEntries);
      if !ValidOptions(o) {
        return Err(InvalidOptions);
      }
      var st := State(episodic, checkpoints, episodicCursor, checkpointCursor, floorSearch, floor);
      var events, checkpointRows := DeleteRows(Selected(st, o));
      if !auditOk {
        episodic, checkpoints := st.episodic, st.checkpoints;
        return Err(AuditFailed);
      }
      episodicCursor := NextEpisodicCursor(st, o);
      checkpointCursor := NextCheckpointCursor(st, o);
      floorSearch := NextFloorSearch(st, o);
      floor := NewestUsable(st, o.maxScanRows);
      if ValidState(st) {
        EnforcedIsValid(st, o);
        RollbackCheckpointSurvives(st, o);
        DeletesWhatIsDue(st, o);
      }
      return Ok((events, checkpointRows));
    }

    /** The state of the newest checkpoint that parses, read in batches from the newest down. */
    method LastCheckpoint() returns (state: Option<string>)
      ensures state == var last := LastUsable(checkpoints);
                       if last.Some? then Some(last.value.data.state) else None
    {
      hide LastUsable;
      var offset := 0;
      assert checkpoints[..|checkpoints|] == checkpoints;
      while true
        invariant 0 <= offset <= |checkpoints|
        invariant LastUsable(checkpoints) == LastUsable(checkpoints[..|checkpoints| - offset])
        decreases |checkpoints| - offset
      {
        var left := |checkpoints| - offset;
        var rows := Take(Reverse(checkpoints[..left]), CHECKPOINT_BATCH);
        ReverseKeeps(checkpoints[..left]);
        for i := 0 to |rows|
          invariant LastUsable(checkpoints) == LastUsable(checkpoints[..left - i])
        {
          ReverseAt(checkpoints[..left], i);
          LastUsableStep(checkpoints[..left - i]);
          assert checkpoints[..left - i][..left - i - 1] == checkpoints[..left - i - 1];
          if rows[i].data.parses {
            return Some(rows[i].data.state);
          }
        }
        if |rows| < CHECKPOINT_BATCH {
          assert checkpoints[..0] == [];
          LastUsableOfNothing();
          return None;
        }
        offset := offset + CHECKPOINT_BATCH;
      }
    }
  }

  lemma NoIds()
    ensures Ids([], EpisodicStore) == {} == Ids([], CheckpointStore)
  {
  }

  lemma WithoutShrinks<T>(rows: seq<Row<T>>, ids: set<nat>)
    ensures |Without(rows, ids)| <= |rows|
  {
  }

  lemma {:induction false} ReverseAt<T>(s: seq<T>, i: nat)
    requires i < |s|
    ensures |Reverse(s)| == |s| && Reverse(s)[i] == s[|s| - 1 - i]
    decreases |s|
  {
    ReverseKeeps(s[1..]);
    if i < |s| - 1 {
      ReverseAt(s[1..], i);
    }
  }

  lemma LastUsableOfNothing()
    ensures LastUsable([]) == None
  {
  }

  lemma {:induction false} FilterSnoc<T>(s: seq<T>, p: T -> bool, x: T)
    ensures Filter(s + [x], p) == Filter(s, p) + (if p(x) then [x] else [])
    decreases |s|
  {
    if s != [] {
      FilterSnoc(s[1..], p, x);
      assert (s + [x])[1..] == s[1..] + [x];
    }
  }

  lemma LastUsableStep(rows: seq<Row<Checkpoint>>)
    requires rows != []
    ensures var last := rows[|rows| - 1];
            LastUsable(rows) == if last.data.parses then Some(last) else LastUsable(rows[..|rows| - 1])
  {
    FilterSnoc(rows[..|rows| - 1], Parses(), rows[|rows| - 1]);
    assert rows == rows[..|rows| - 1] + [rows[|rows| - 1]];
  }
}
