/**
 * Plan application: the stored schedule is replaced by a plan. Events are purged,
 * then years, then every year row is inserted followed by its event rows.
 */
module Run {
  import opened Common
  import opened Db
  import opened Build
  import DbEvents
  import DbYears

  datatype RunOutcome =
    | Applied        // every row of the plan was written
    | StorageFailed  // an insert failed; the rows written so far stay
    | Panicked       // a purge failed, which the source unwraps

  /** The years rows a plan produces, in plan order. */
  function YearRows(plans: seq<YearPlan>): (rows: seq<YearRow>)
    ensures |rows| == |plans|
    ensures forall i :: 0 <= i < |plans| ==> rows[i] == YearRow(plans[i].id, plans[i].name)
  {
    if plans == [] then []
    else YearRows(plans[..|plans| - 1]) + [YearRow(plans[|plans| - 1].id, plans[|plans| - 1].name)]
  }

  /** The event row stored for one entry of a year plan. */
  function EventRow(yearId: string, ep: EventPlan): Events
  {
    Events(ep.id, ep.name, yearId, ep.genderId, ep.filterKey, IntObject(ep.scores))
  }

  /** The event rows of one year plan, in entry order. */
  function YearEventRows(yp: YearPlan): seq<Events>
  {
    seq(|yp.events|, k requires 0 <= k < |yp.events| => EventRow(yp.id, yp.events[k]))
  }

  /** The event rows of a plan: each year's rows, the years in plan order. */
  function EventRows(plans: seq<YearPlan>): seq<Events>
  {
    if plans == [] then []
    else EventRows(plans[..|plans| - 1]) + YearEventRows(plans[|plans| - 1])
  }

  /** Every event row refers to a stored year. */
  ghost predicate EventsReferToYears(events: seq<Events>, years: seq<YearRow>)
  {
    forall i :: 0 <= i < |events| ==> exists j :: 0 <= j < |years| && years[j].id == events[i].yearId
  }

  /**
   * `run`. On success the tables hold exactly the plan's rows, whatever they held
   * before. A failed insert leaves a prefix of the plan's rows. A failed purge
   * leaves the years table as it was, and the events table purged only when it
   * was the years purge that failed: events go first. Every event row written
   * refers to a year row written before it.
   */
  method Run(plan: Plan, pool: Pool) returns (r: RunOutcome)
    modifies pool`years, pool`events
    ensures r.Applied? ==> pool.years == YearRows(plan.yearPlans) && pool.events == EventRows(plan.yearPlans)
    ensures r.StorageFailed? ==>
      && IsPrefix(pool.years, YearRows(plan.yearPlans))
      && IsPrefix(pool.events, EventRows(plan.yearPlans))
      && (pool.years != YearRows(plan.yearPlans) || pool.events != EventRows(plan.yearPlans))
    ensures !r.Panicked? ==> EventsReferToYears(pool.events, pool.years)
    ensures r.Panicked? ==> pool.years == old(pool.years)
    ensures r.Panicked? ==> pool.events == old(pool.events) || pool.events == []
  {
    var purged := DbEvents.DeleteAll(pool);
    if purged.StorageError? {
      return Panicked;
    }
    purged := DbYears.DeleteAll(pool);
    if purged.StorageError? {
      return Panicked;
    }
    var plans := plan.yearPlans;
    for i := 0 to |plans|
      invariant pool.years == YearRows(plans[..i])
      invariant pool.events == EventRows(plans[..i])
    {
      var year := plans[i];
      assert plans[..i + 1][..i] == plans[..i];
      var inserted := DbYears.Insert(pool, DbYears.New(year.id, year.name));
      if inserted.StorageError? {
        YearInsertFailed(plans, i);
        return StorageFailed;
      }
      var written := InsertEvents(pool, inserted.value, year);
      if written < |year.events| {
        EventInsertFailed(plans, i, written);
        return StorageFailed;
      }
      assert YearEventRows(year)[..|year.events|] == YearEventRows(year);
    }
    assert plans[..|plans|] == plans;
    RowsReferToYears(plans);
    r := Applied;
  }

  /**
   * The inner loop of `run`: the year's entries are inserted in order through
   * `new_event` until one insert fails. `written` counts the rows that made it,
   * all of them when no insert failed.
   */
  method InsertEvents(pool: Pool, yearStruct: DbYears.Years, year: YearPlan) returns (written: nat)
    requires yearStruct.id == year.id
    modifies pool`events
    ensures written <= |year.events|
    ensures pool.events == old(pool.events) + YearEventRows(year)[..written]
  {
    var current := yearStruct;
    written := 0;
    while written < |year.events|
      invariant written <= |year.events|
      invariant pool.events == old(pool.events) + YearEventRows(year)[..written]
      invariant current.id == year.id
    {
      var event := year.events[written];
      var next := DbYears.NewEvent(pool, current, event.id, event.name, event.genderId,
                                   event.filterKey, IntObject(event.scores));
      if next.StorageError? {
        return;
      }
      assert YearEventRows(year)[..written + 1] == YearEventRows(year)[..written] + [EventRow(year.id, event)];
      current := next.value;
      written := written + 1;
    }
  }

  /** What the tables hold when inserting year i fails: the rows of the years before it. */
  lemma YearInsertFailed(plans: seq<YearPlan>, i: nat)
    requires i < |plans|
    ensures IsPrefix(YearRows(plans[..i]), YearRows(plans))
    ensures IsPrefix(EventRows(plans[..i]), EventRows(plans))
    ensures YearRows(plans[..i]) != YearRows(plans)
    ensures EventsReferToYears(EventRows(plans[..i]), YearRows(plans[..i]))
  {
    YearRowsPrefix(plans, i);
    EventRowsPrefix(plans, i, 0);
    assert YearEventRows(plans[i])[..0] == [];
    assert EventRows(plans[..i]) + [] == EventRows(plans[..i]);
    RowsReferToYears(plans[..i]);
  }

  /**
   * What the tables hold when inserting entry k of year i fails: year i's row
   * and the first k of its event rows were written.
   */
  lemma EventInsertFailed(plans: seq<YearPlan>, i: nat, k: nat)
    requires i < |plans| && k < |plans[i].events|
    ensures IsPrefix(YearRows(plans[..i + 1]), YearRows(plans))
    ensures IsPrefix(EventRows(plans[..i]) + YearEventRows(plans[i])[..k], EventRows(plans))
    ensures EventRows(plans[..i]) + YearEventRows(plans[i])[..k] != EventRows(plans)
    ensures EventsReferToYears(EventRows(plans[..i]) + YearEventRows(plans[i])[..k], YearRows(plans[..i + 1]))
  {
    YearRowsPrefix(plans, i + 1);
    EventRowsPrefix(plans, i, k);
    PartialRowsReferToYears(plans, i, k);
  }

  /** The year rows written before a failure at year i are a proper prefix of the plan's. */
  lemma YearRowsPrefix(plans: seq<YearPlan>, i: nat)
    requires i <= |plans|
    ensures IsPrefix(YearRows(plans[..i]), YearRows(plans))
    ensures i < |plans| ==> YearRows(plans[..i]) != YearRows(plans)
  {
  }

  /**
   * The event rows written before a failure at year i, entry k, are a prefix of
   * the plan's, a proper one when the failing call was an event insert.
   */
  lemma EventRowsPrefix(plans: seq<YearPlan>, i: nat, k: nat)
    requires i < |plans| && k <= |plans[i].events|
    ensures IsPrefix(EventRows(plans[..i]) + YearEventRows(plans[i])[..k], EventRows(plans))
    ensures k < |plans[i].events| ==> EventRows(plans[..i]) + YearEventRows(plans[i])[..k] != EventRows(plans)
  {
    EventRowsAppend(plans[..i + 1], plans[i + 1..]);
    assert plans[..i + 1] + plans[i + 1..] == plans;
    assert plans[..i + 1][..i] == plans[..i];
    var pre := EventRows(plans[..i]) + YearEventRows(plans[i])[..k];
    var whole := EventRows(plans[..i + 1]);
    assert whole == EventRows(plans[..i]) + YearEventRows(plans[i]);
    assert pre == whole[..|pre|];
  }

  /** Writing a whole plan leaves no event row without its year row. */
  lemma {:induction false} RowsReferToYears(plans: seq<YearPlan>)
    ensures EventsReferToYears(EventRows(plans), YearRows(plans))
  {
    if plans != [] {
      var n := |plans| - 1;
      RowsReferToYears(plans[..n]);
      var events, years := EventRows(plans), YearRows(plans);
      forall i | 0 <= i < |events|
        ensures exists j :: 0 <= j < |years| && years[j].id == events[i].yearId
      {
        if i < |EventRows(plans[..n])| {
          var j :| 0 <= j < |YearRows(plans[..n])| && YearRows(plans[..n])[j].id == events[i].yearId;
          assert years[j] == YearRows(plans[..n])[j];
        } else {
          assert years[n].id == events[i].yearId;
        }
      }
    }
  }

  /** Nor does a run interrupted at entry k of year i. */
  lemma PartialRowsReferToYears(plans: seq<YearPlan>, i: nat, k: nat)
    requires i < |plans| && k <= |plans[i].events|
    ensures EventsReferToYears(EventRows(plans[..i]) + YearEventRows(plans[i])[..k], YearRows(plans[..i + 1]))
  {
    var whole := plans[..i + 1];
    assert whole[..i] == plans[..i];
    RowsReferToYears(whole);
    var all := EventRows(whole);
    var part := EventRows(plans[..i]) + YearEventRows(plans[i])[..k];
    assert all == EventRows(plans[..i]) + YearEventRows(plans[i]);
    assert part == all[..|part|];
    forall n | 0 <= n < |part|
      ensures exists j :: 0 <= j < |YearRows(whole)| && YearRows(whole)[j].id == part[n].yearId
    {
      assert part[n] == all[n];
    }
  }

  lemma {:induction false} EventRowsAppend(a: seq<YearPlan>, b: seq<YearPlan>)
    ensures EventRows(a + b) == EventRows(a) + EventRows(b)
    decreases |b|
  {
    if b == [] {
      assert a + b == a;
    } else {
      var init, last := b[..|b| - 1], b[|b| - 1];
      assert (a + b)[..|a + b| - 1] == a + init;
      assert (a + b)[|a + b| - 1] == last;
      EventRowsAppend(a, init);
      assert EventRows(a + b) == EventRows(a + init) + YearEventRows(last);
      assert EventRows(b) == EventRows(init) + YearEventRows(last);
    }
  }

  /** Total number of entries over the year plans. */
  function EntryCount(plans: seq<YearPlan>): nat
  {
    if plans == [] then 0 else EntryCount(plans[..|plans| - 1]) + |plans[|plans| - 1].events|
  }

  /** The events table receives exactly one row per entry of the plan. */
  lemma {:induction false} EventRowsCount(plans: seq<YearPlan>)
    ensures |EventRows(plans)| == EntryCount(plans)
  {
    if plans != [] {
      EventRowsCount(plans[..|plans| - 1]);
    }
  }

  /** Each event row carries the id of the year plan it was written under. */
  lemma {:induction false} EventRowsCarryTheirYear(plans: seq<YearPlan>, e: Events)
    requires e in EventRows(plans)
    ensures exists yp :: yp in plans && e.yearId == yp.id && exists ep :: ep in yp.events && e == EventRow(yp.id, ep)
  {
    var init := plans[..|plans| - 1];
    var last := plans[|plans| - 1];
    if e in EventRows(init) {
      EventRowsCarryTheirYear(init, e);
      var yp :| yp in init && e.yearId == yp.id && exists ep :: ep in yp.events && e == EventRow(yp.id, ep);
      assert yp in plans;
    } else {
      var k :| 0 <= k < |last.events| && YearEventRows(last)[k] == e;
      assert last.events[k] in last.events;
    }
  }

  /** When every year plan has m entries, the events table receives |plans| * m rows. */
  lemma {:induction false} UniformRowCount(plans: seq<YearPlan>, m: nat)
    requires forall i :: 0 <= i < |plans| ==> |plans[i].events| == m
    ensures |EventRows(plans)| == |plans| * m
  {
    if plans != [] {
      var n := |plans| - 1;
      UniformRowCount(plans[..n], m);
      assert |YearEventRows(plans[n])| == m;
      assert n * m + m == |plans| * m;
    }
  }

  /**
   * End to end, for a configuration whose events all apply to all years and all
   * genders: the events table ends up with |years| * |events| * |genders| rows.
   */
  lemma AllAllRowCount(config: Parser.Configuration)
    requires forall e :: e in config.events ==> e.applicableYears == Parser.All && e.applicableGenders == Parser.All
    ensures |EventRows(PlanFor(config).yearPlans)| == |config.years| * (|config.events| * |config.genders|)
  {
    var plans := PlanFor(config).yearPlans;
    PlanFollowsYears(config);
    forall i | 0 <= i < |plans|
      ensures |plans[i].events| == |config.events| * |config.genders|
    {
      AllAllCount(config, i);
    }
    UniformRowCount(plans, |config.events| * |config.genders|);
  }

  /** An empty plan empties both tables. */
  lemma EmptyPlanRows()
    ensures YearRows([]) == [] && EventRows([]) == []
  {
  }
}
