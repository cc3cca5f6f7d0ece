/** The `Years` value and the operations on the years table. */
module DbYears {
  import opened Db
  import DbEvents

  /** A year with the events created through it; only id and name reach the table. */
  datatype Years = Years(id: string, name: string, events: seq<Events>)

  function New(id: string, name: string): (y: Years)
    ensures y.id == id && y.name == name && y.events == []
  {
    Years(id, name, [])
  }

  /** Stores the (id, name) row and hands the value back unchanged. */
  method Insert(pool: Pool, year: Years) returns (r: StoreResult<Years>)
    modifies pool`years
    ensures r.Ok? ==> r.value == year && pool.years == old(pool.years) + [YearRow(year.id, year.name)]
    ensures r.StorageError? ==> pool.years == old(pool.years)
  {
    var ok := Connect();
    if !ok {
      return StorageError;
    }
    pool.years := pool.years + [YearRow(year.id, year.name)];
    r := Ok(year);
  }

  /** Every row as a `Years` with an empty event list, in table order. */
  method All(pool: Pool) returns (r: StoreResult<seq<Years>>)
    ensures r.Ok? ==> |r.value| == |pool.years|
    ensures r.Ok? ==> forall i :: 0 <= i < |r.value| ==>
      r.value[i] == Years(pool.years[i].id, pool.years[i].name, [])
  {
    var ok := Connect();
    if !ok {
      return StorageError;
    }
    var years: seq<Years> := [];
    for i := 0 to |pool.years|
      invariant |years| == i
      invariant forall k :: 0 <= k < i ==> years[k] == Years(pool.years[k].id, pool.years[k].name, [])
    {
      years := years + [Years(pool.years[i].id, pool.years[i].name, [])];
    }
    r := Ok(years);
  }

  /**
   * `new_event`: the event row for this year is appended to the value's list and
   * inserted into the events table; the updated value is returned.
   */
  method NewEvent(pool: Pool, year: Years, id: string, name: string, genderId: string,
                  filterKey: string, scores: ScoreBlob) returns (r: StoreResult<Years>)
    modifies pool`events
    ensures var row := Events(id, name, year.id, genderId, filterKey, scores);
      r.Ok? ==> r.value == year.(events := year.events + [row]) && pool.events == old(pool.events) + [row]
    ensures r.StorageError? ==> pool.events == old(pool.events)
  {
    var event := DbEvents.New(id, name, year.id, genderId, filterKey, scores);
    var updated := year.(events := year.events + [event]);
    var inserted := DbEvents.Insert(pool, event);
    if inserted.StorageError? {
      return StorageError;
    }
    r := Ok(updated);
  }

  method DeleteAll(pool: Pool) returns (r: StoreResult<()>)
    modifies pool`years
    ensures r.Ok? ==> pool.years == []
    ensures r.StorageError? ==> pool.years == old(pool.years)
  {
    var ok := Connect();
    if !ok {
      return StorageError;
    }
    pool.years := [];
    r := Ok(());
  }
}
