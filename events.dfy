/** Operations on the events table. */
module DbEvents {
  import opened Common
  import opened Db

  /** A row passes the filters when every filter that is given equals its field. */
  predicate Matches(e: Events, year: Option<string>, activity: Option<string>, group: Option<string>)
  {
    && (year.Some? ==> e.yearId == year.value)
    && (activity.Some? ==> e.filterKey == activity.value)
    && (group.Some? ==> e.genderId == group.value)
  }

  /** The rows that pass the filters, in table order. */
  function Filtered(rows: seq<Events>, year: Option<string>, activity: Option<string>,
                    group: Option<string>): seq<Events>
  {
    if rows == [] then []
    else
      var last := rows[|rows| - 1];
      Filtered(rows[..|rows| - 1], year, activity, group)
        + (if Matches(last, year, activity, group) then [last] else [])
  }

  /** `new`: every argument lands in the field of the same name. */
  function New(id: string, name: string, yearId: string, genderId: string, filterKey: string,
               scores: ScoreBlob): (e: Events)
    ensures e.id == id && e.name == name && e.yearId == yearId
    ensures e.genderId == genderId && e.filterKey == filterKey && e.scores == scores
  {
    Events(id, name, yearId, genderId, filterKey, scores)
  }

  method Insert(pool: Pool, event: Events) returns (r: StoreResult<()>)
    modifies pool`events
    ensures r.Ok? ==> pool.events == old(pool.events) + [event]
    ensures r.StorageError? ==> pool.events == old(pool.events)
  {
    var ok := Connect();
    if !ok {
      return StorageError;
    }
    pool.events := pool.events + [event];
    r := Ok(());
  }

  /** Every row, in table order. */
  method All(pool: Pool) returns (r: StoreResult<seq<Events>>)
    ensures r.Ok? ==> r.value == pool.events
  {
    var ok := Connect();
    if !ok {
      return StorageError;
    }
    var events: seq<Events> := [];
    for i := 0 to |pool.events|
      invariant events == pool.events[..i]
    {
      events := events + [pool.events[i]];
    }
    r := Ok(events);
  }

  /** `where`: every row, then the three optional filters applied in a loop. */
  method Where(pool: Pool, year: Option<string>, activity: Option<string>, group: Option<string>)
    returns (r: StoreResult<seq<Events>>)
    ensures r.Ok? ==> r.value == Filtered(pool.events, year, activity, group)
  {
    var ok := Connect();
    if !ok {
      return StorageError;
    }
    var rows := pool.events;
    var events: seq<Events> := [];
    for i := 0 to |rows|
      invariant events == Filtered(rows[..i], year, activity, group)
    {
      var evt := rows[i];
      assert rows[..i + 1][..i] == rows[..i];
      if year.Some? && evt.yearId != year.value {
        continue;
      }
      if activity.Some? && evt.filterKey != activity.value {
        continue;
      }
      if group.Some? && evt.genderId != group.value {
        continue;
      }
      events := events + [evt];
    }
    assert rows[..|rows|] == rows;
    r := Ok(events);
  }

  /** `set_scores`: the UPDATE that replaces the blob of every row carrying `id`. */
  method SetScores(pool: Pool, id: string, scores: ScoreBlob) returns (r: StoreResult<()>)
    modifies pool`events
    ensures r.Ok? ==> |pool.events| == |old(pool.events)|
    ensures r.Ok? ==> forall i :: 0 <= i < |pool.events| ==>
      pool.events[i] == if old(pool.events)[i].id == id then old(pool.events)[i].(scores := scores)
                        else old(pool.events)[i]
    ensures r.StorageError? ==> pool.events == old(pool.events)
  {
    var ok := Connect();
    if !ok {
      return StorageError;
    }
    var rows := pool.events;
    pool.events := seq(|rows|, i requires 0 <= i < |rows| =>
      if rows[i].id == id then rows[i].(scores := scores) else rows[i]);
    r := Ok(());
  }

  method DeleteAll(pool: Pool) returns (r: StoreResult<()>)
    modifies pool`events
    ensures r.Ok? ==> pool.events == []
    ensures r.StorageError? ==> pool.events == old(pool.events)
  {
    var ok := Connect();
    if !ok {
      return StorageError;
    }
    pool.events := [];
    r := Ok(());
  }

  method Count(pool: Pool) returns (r: StoreResult<int>)
    ensures r.Ok? ==> r.value == |pool.events|
  {
    var ok := Connect();
    if !ok {
      return StorageError;
    }
    r := Ok(|pool.events|);
  }

  // ---------------------------------------------------------------------------
  // Properties of the filter

  /** A row is returned exactly when it is in the table and passes every given filter. */
  lemma {:induction false} FilteredMembership(rows: seq<Events>, year: Option<string>,
                                              activity: Option<string>, group: Option<string>, e: Events)
    ensures e in Filtered(rows, year, activity, group) <==> e in rows && Matches(e, year, activity, group)
  {
    if rows != [] {
      var init := rows[..|rows| - 1];
      assert rows == init + [rows[|rows| - 1]];
      FilteredMembership(init, year, activity, group, e);
    }
  }

  /** With no filter given, every row comes back in table order. */
  lemma {:induction false} FilteredNoFilters(rows: seq<Events>)
    ensures Filtered(rows, None, None, None) == rows
  {
    if rows != [] {
      var init := rows[..|rows| - 1];
      FilteredNoFilters(init);
      assert rows == init + [rows[|rows| - 1]];
    }
  }

  /**
   * The result is the table with some rows deleted: `idx` gives, for each returned
   * row, its strictly increasing position in the table, so table order is kept.
   */
  lemma {:induction false} FilteredIsSubsequence(rows: seq<Events>, year: Option<string>,
                                                 activity: Option<string>, group: Option<string>)
    returns (idx: seq<nat>)
    ensures |idx| == |Filtered(rows, year, activity, group)|
    ensures forall k :: 0 <= k < |idx| ==>
      idx[k] < |rows| && Filtered(rows, year, activity, group)[k] == rows[idx[k]]
    ensures forall k, l :: 0 <= k < l < |idx| ==> idx[k] < idx[l]
  {
    if rows == [] {
      idx := [];
    } else {
      var n := |rows| - 1;
      var init := rows[..n];
      idx := FilteredIsSubsequence(init, year, activity, group);
      if Matches(rows[n], year, activity, group) {
        idx := idx + [n];
      }
    }
  }
}
