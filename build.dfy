/**
 * Plan expansion: the configuration is expanded into one YearPlan per year,
 * each holding one EventPlan per (event, gender) pair whose rules admit that
 * year and that gender, in event order and then gender order.
 */
module Build {
  import opened Parser

  /** One scheduled (year, gender, event) entry; `scores` is the shared zero template. */
  datatype EventPlan = EventPlan(
    id: string,
    name: string,
    genderId: string,
    filterKey: string,
    scores: map<string, int>)

  datatype YearPlan = YearPlan(id: string, name: string, events: seq<EventPlan>)

  datatype Plan = Plan(yearPlans: seq<YearPlan>)

  function FormIds(forms: seq<Form>): set<string>
  {
    set f | f in forms :: f.id
  }

  /** The score template: every form id mapped to 0, filled form by form. */
  function ZeroScores(forms: seq<Form>): (m: map<string, int>)
    ensures m.Keys == FormIds(forms)
    ensures forall k :: k in m ==> m[k] == 0
  {
    if forms == [] then map[]
    else
      var init := forms[..|forms| - 1];
      assert forms == init + [forms[|forms| - 1]];
      ZeroScores(init)[forms[|forms| - 1].id := 0]
  }

  /** The entry for one admitted (year, event, gender) triple. */
  function Entry(year: Year, event: Event, gender: string, scores: map<string, int>): EventPlan
  {
    EventPlan(year.id + "-" + gender + "-" + event.id, event.name, gender, event.id, scores)
  }

  /** The entries of one event within one year, over the genders in order (the inner loop). */
  function GenderEntries(config: Configuration, year: Year, event: Event, genders: seq<string>,
                         scores: map<string, int>): seq<EventPlan>
  {
    if genders == [] then []
    else
      var g := genders[|genders| - 1];
      GenderEntries(config, year, event, genders[..|genders| - 1], scores)
        + (if IsEventApplicableToGender(config, event, g) then [Entry(year, event, g, scores)] else [])
  }

  /** The entries of one year, over the events in order (the outer loop). */
  function YearEntries(config: Configuration, year: Year, events: seq<Event>,
                       scores: map<string, int>): seq<EventPlan>
  {
    if events == [] then []
    else
      var e := events[|events| - 1];
      YearEntries(config, year, events[..|events| - 1], scores)
        + (if IsEventApplicableToYear(config, e, year.id)
           then GenderEntries(config, year, e, config.genders, scores) else [])
  }

  function YearPlanFor(config: Configuration, year: Year): YearPlan
  {
    YearPlan(year.id, year.name, YearEntries(config, year, config.events, ZeroScores(config.forms)))
  }

  /** The plan the configuration denotes. */
  function PlanFor(config: Configuration): Plan
  {
    Plan(seq(|config.years|, i requires 0 <= i < |config.years| => YearPlanFor(config, config.years[i])))
  }

  /** `build_plan`: the nested loops over years, events and genders. */
  method BuildPlan(configuration: Configuration) returns (plan: Plan)
    ensures plan == PlanFor(configuration)
  {
    var config := configuration;
    var emptyScores: map<string, int> := map[];
    for i := 0 to |config.forms|
      invariant emptyScores == ZeroScores(config.forms[..i])
    {
      assert config.forms[..i + 1][..i] == config.forms[..i];
      emptyScores := emptyScores[config.forms[i].id := 0];
    }
    assert config.forms[..|config.forms|] == config.forms;

    plan := Plan([]);
    for y := 0 to |config.years|
      invariant |plan.yearPlans| == y
      invariant forall k :: 0 <= k < y ==> plan.yearPlans[k] == YearPlanFor(config, config.years[k])
    {
      var yearPlan := ExpandYear(config, config.years[y], emptyScores);
      plan := plan.(yearPlans := plan.yearPlans + [yearPlan]);
    }
  }

  /**
   * The body of `build_plan`'s loop over years: the year's entries over the
   * events in order, and within an admitted event over the genders in order.
   */
  method ExpandYear(config: Configuration, year: Year, emptyScores: map<string, int>) returns (yearPlan: YearPlan)
    ensures yearPlan == YearPlan(year.id, year.name, YearEntries(config, year, config.events, emptyScores))
  {
    yearPlan := YearPlan(year.id, year.name, []);
    for e := 0 to |config.events|
      invariant yearPlan == YearPlan(year.id, year.name, YearEntries(config, year, config.events[..e], emptyScores))
    {
      var event := config.events[e];
      assert config.events[..e + 1][..e] == config.events[..e];
      if !IsEventApplicableToYear(config, event, year.id) {
        continue;
      }
      ghost var before := yearPlan.events;
      for g := 0 to |config.genders|
        invariant yearPlan == YearPlan(year.id, year.name,
                                       before + GenderEntries(config, year, event, config.genders[..g], emptyScores))
      {
        var gender := config.genders[g];
        assert config.genders[..g + 1][..g] == config.genders[..g];
        if IsEventApplicableToGender(config, event, gender) {
          yearPlan := yearPlan.(events := yearPlan.events + [EventPlan(
            yearPlan.id + "-" + gender + "-" + event.id,
            event.name,
            gender,
            event.id,
            emptyScores)]);
        }
      }
      assert config.genders[..|config.genders|] == config.genders;
    }
    assert config.events[..|config.events|] == config.events;
  }

  // ---------------------------------------------------------------------------
  // Properties of the expansion

  /** One YearPlan per configured year, in configuration order, id and name copied. */
  lemma PlanFollowsYears(config: Configuration)
    ensures |PlanFor(config).yearPlans| == |config.years|
    ensures forall i :: 0 <= i < |config.years| ==>
      PlanFor(config).yearPlans[i].id == config.years[i].id &&
      PlanFor(config).yearPlans[i].name == config.years[i].name
  {
  }

  lemma {:induction false} GenderEntriesMembership(config: Configuration, year: Year, event: Event,
                                                   genders: seq<string>, scores: map<string, int>, ep: EventPlan)
    ensures ep in GenderEntries(config, year, event, genders, scores) <==>
      exists g :: g in genders && IsEventApplicableToGender(config, event, g) && ep == Entry(year, event, g, scores)
  {
    if genders != [] {
      var init := genders[..|genders| - 1];
      assert genders == init + [genders[|genders| - 1]];
      GenderEntriesMembership(config, year, event, init, scores, ep);
    }
  }

  lemma {:induction false} YearEntriesMembership(config: Configuration, year: Year, events: seq<Event>,
                                                 scores: map<string, int>, ep: EventPlan)
    ensures ep in YearEntries(config, year, events, scores) <==>
      exists e, g :: e in events && g in config.genders
        && IsEventApplicableToYear(config, e, year.id) && IsEventApplicableToGender(config, e, g)
        && ep == Entry(year, e, g, scores)
  {
    if events != [] {
      var init := events[..|events| - 1];
      var last := events[|events| - 1];
      assert events == init + [last];
      YearEntriesMembership(config, year, init, scores, ep);
      GenderEntriesMembership(config, year, last, config.genders, scores, ep);
    }
  }

  /**
   * An entry for (year i, event e, gender g) is in the plan exactly when e's year
   * rule admits the year and e's gender rule admits g.
   */
  lemma EntryInPlanIff(config: Configuration, i: nat, ep: EventPlan)
    requires i < |config.years|
    ensures ep in PlanFor(config).yearPlans[i].events <==>
      exists e, g :: e in config.events && g in config.genders
        && IsEventApplicableToYear(config, e, config.years[i].id)
        && IsEventApplicableToGender(config, e, g)
        && ep == Entry(config.years[i], e, g, ZeroScores(config.forms))
  {
    YearEntriesMembership(config, config.years[i], config.events, ZeroScores(config.forms), ep);
  }

  /**
   * Every entry of the plan names its triple: id `year-gender-event`, the event's
   * name, the gender, the event id as filter key, and the shared zero template.
   */
  lemma EntryFields(config: Configuration, i: nat, k: nat)
    requires i < |config.years|
    requires k < |PlanFor(config).yearPlans[i].events|
    ensures
      var ep := PlanFor(config).yearPlans[i].events[k];
      exists e, g :: (
        && e in config.events && g in config.genders
        && IsEventApplicableToYear(config, e, config.years[i].id)
        && IsEventApplicableToGender(config, e, g)
        && ep.id == config.years[i].id + "-" + g + "-" + e.id
        && ep.name == e.name
        && ep.genderId == g
        && ep.filterKey == e.id)
    ensures
      var ep := PlanFor(config).yearPlans[i].events[k];
      && ep.scores.Keys == FormIds(config.forms)
      && (forall f :: f in ep.scores ==> ep.scores[f] == 0)
  {
    var ep := PlanFor(config).yearPlans[i].events[k];
    EntryInPlanIff(config, i, ep);
  }

  lemma {:induction false} GenderEntriesAppend(config: Configuration, year: Year, event: Event,
                                               g1: seq<string>, g2: seq<string>, scores: map<string, int>)
    ensures GenderEntries(config, year, event, g1 + g2, scores)
         == GenderEntries(config, year, event, g1, scores) + GenderEntries(config, year, event, g2, scores)
    decreases |g2|
  {
    if g2 != [] {
      var init := g2[..|g2| - 1];
      assert (g1 + g2)[..|g1 + g2| - 1] == g1 + init;
      GenderEntriesAppend(config, year, event, g1, init, scores);
    } else {
      assert g1 + g2 == g1;
    }
  }

  lemma {:induction false} YearEntriesAppend(config: Configuration, year: Year,
                                             e1: seq<Event>, e2: seq<Event>, scores: map<string, int>)
    ensures YearEntries(config, year, e1 + e2, scores)
         == YearEntries(config, year, e1, scores) + YearEntries(config, year, e2, scores)
    decreases |e2|
  {
    if e2 != [] {
      var init := e2[..|e2| - 1];
      assert (e1 + e2)[..|e1 + e2| - 1] == e1 + init;
      YearEntriesAppend(config, year, e1, init, scores);
    } else {
      assert e1 + e2 == e1;
    }
  }

  /**
   * Order within a year: all entries of an earlier event precede those of a later
   * one, and within one event the entries follow the gender order.
   */
  lemma EntriesOrdered(config: Configuration, i: nat, events1: seq<Event>, events2: seq<Event>,
                       e: Event, genders1: seq<string>, genders2: seq<string>)
    requires i < |config.years|
    requires config.events == events1 + events2
    requires config.genders == genders1 + genders2
    requires IsEventApplicableToYear(config, e, config.years[i].id)
    ensures PlanFor(config).yearPlans[i].events
         == YearEntries(config, config.years[i], events1, ZeroScores(config.forms))
          + YearEntries(config, config.years[i], events2, ZeroScores(config.forms))
    ensures YearEntries(config, config.years[i], [e], ZeroScores(config.forms))
         == GenderEntries(config, config.years[i], e, genders1, ZeroScores(config.forms))
          + GenderEntries(config, config.years[i], e, genders2, ZeroScores(config.forms))
  {
    var year, scores := config.years[i], ZeroScores(config.forms);
    YearEntriesAppend(config, year, events1, events2, scores);
    GenderEntriesAppend(config, year, e, genders1, genders2, scores);
    assert [e][..0] == [];
  }

  lemma {:induction false} AllGendersCount(config: Configuration, year: Year, event: Event,
                                           genders: seq<string>, scores: map<string, int>)
    requires event.applicableGenders == All
    ensures |GenderEntries(config, year, event, genders, scores)| == |genders|
    ensures forall j :: 0 <= j < |genders| ==>
      GenderEntries(config, year, event, genders, scores)[j] == Entry(year, event, genders[j], scores)
  {
    if genders != [] {
      AllGendersCount(config, year, event, genders[..|genders| - 1], scores);
    }
  }

  lemma {:induction false} AllAllYearCount(config: Configuration, year: Year, events: seq<Event>,
                                           scores: map<string, int>)
    requires forall e :: e in events ==> e.applicableYears == All && e.applicableGenders == All
    ensures |YearEntries(config, year, events, scores)| == |events| * |config.genders|
  {
    if events != [] {
      var init, e := events[..|events| - 1], events[|events| - 1];
      assert forall x :: x in init ==> x in events;
      AllAllYearCount(config, year, init, scores);
      assert e in events;
      assert IsEventApplicableToYear(config, e, year.id);
      AllGendersCount(config, year, e, config.genders, scores);
      var g := |config.genders|;
      assert |YearEntries(config, year, events, scores)| == |init| * g + g;
      MulSucc(|init|, g);
      assert |events| == |init| + 1;
    }
  }

  lemma MulSucc(a: nat, b: nat)
    ensures (a + 1) * b == a * b + b
  {
  }

  /** With All/All rules every year gets |events| * |genders| entries. */
  lemma AllAllCount(config: Configuration, i: nat)
    requires i < |config.years|
    requires forall e :: e in config.events ==> e.applicableYears == All && e.applicableGenders == All
    ensures |PlanFor(config).yearPlans[i].events| == |config.events| * |config.genders|
  {
    AllAllYearCount(config, config.years[i], config.events, ZeroScores(config.forms));
  }

  /** No genders or no events: every YearPlan is empty, whatever the rules say. */
  lemma EmptyAxisGivesNoEntries(config: Configuration, i: nat)
    requires i < |config.years|
    requires config.genders == [] || config.events == []
    ensures PlanFor(config).yearPlans[i].events == []
  {
    if PlanFor(config).yearPlans[i].events != [] {
      var ep := PlanFor(config).yearPlans[i].events[0];
      EntryInPlanIff(config, i, ep);
    }
  }

  /**
   * The worked scenario: year7, genders boys and girls, one all/all sprint gives
   * two entries, year7-boys-sprint then year7-girls-sprint.
   */
  lemma SprintScenario(forms: seq<Form>)
    ensures
      var sprint := Event("sprint", "100m Sprint", All, All);
      var config := Configuration("1", ["boys", "girls"], [], [Year("year7", "Year 7")], forms, [sprint]);
      var plan := PlanFor(config);
      && |plan.yearPlans| == 1
      && plan.yearPlans[0].id == "year7"
      && |plan.yearPlans[0].events| == 2
      && plan.yearPlans[0].events[0].id == "year7-boys-sprint"
      && plan.yearPlans[0].events[1].id == "year7-girls-sprint"
  {
    var sprint := Event("sprint", "100m Sprint", All, All);
    var config := Configuration("1", ["boys", "girls"], [], [Year("year7", "Year 7")], forms, [sprint]);
    var year := Year("year7", "Year 7");
    var scores := ZeroScores(forms);
    AllGendersCount(config, year, sprint, ["boys", "girls"], scores);
    assert [sprint][..0] == [];
    assert IsEventApplicableToYear(config, sprint, year.id);
    var entries := YearEntries(config, year, [sprint], scores);
    assert entries == YearEntries(config, year, [], scores) + GenderEntries(config, year, sprint, ["boys", "girls"], scores);
    assert entries == GenderEntries(config, year, sprint, ["boys", "girls"], scores);
    SprintIds();
    assert entries[0].id == "year7" + "-" + "boys" + "-" + "sprint";
    assert entries[1].id == "year7" + "-" + "girls" + "-" + "sprint";
  }

  lemma SprintIds()
    ensures "year7" + "-" + "boys" + "-" + "sprint" == "year7-boys-sprint"
    ensures "year7" + "-" + "girls" + "-" + "sprint" == "year7-girls-sprint"
  {
  }
}
