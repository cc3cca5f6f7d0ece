/**
 * The declarative schedule configuration: years, genders, forms, scoring tiers
 * and events, where each event says through an applicability rule which years
 * and which genders it is held for.
 */
module Parser {

  /** The four-case rule attached to every event, once for years and once for genders. */
  datatype ApplicabilityRules =
    | All                         // applies to every id
    | None                        // applies to no id (event disabled)
    | Include(ids: seq<string>)   // applies only to the listed ids
    | Exclude(ids: seq<string>)   // applies to every id except the listed ones

  datatype Year = Year(id: string, name: string)

  /** A form (team, class or cohort) that accumulates points. */
  datatype Form = Form(id: string, name: string, colour: string)

  /** A scoring tier; `value` is an i64 in the source. */
  datatype Score = Score(name: string, value: int, default: bool)

  datatype Event = Event(
    id: string,
    name: string,
    applicableYears: ApplicabilityRules,
    applicableGenders: ApplicabilityRules)

  datatype Configuration = Configuration(
    version: string,
    genders: seq<string>,
    scores: seq<Score>,
    years: seq<Year>,
    forms: seq<Form>,
    events: seq<Event>)

  /** Linear membership scan of an id list (`Vec::contains`). */
  function Contains(ids: seq<string>, x: string): (r: bool)
    ensures r <==> x in ids
  {
    if ids == [] then false
    else ids[0] == x || Contains(ids[1..], x)
  }

  /** The `match` both applicability checks perform on their rule. */
  function Admits(rule: ApplicabilityRules, id: string): bool
  {
    match rule
    case All => true
    case None => false
    case Include(ids) => Contains(ids, id)
    case Exclude(ids) => !Contains(ids, id)
  }

  /** Whether `event` is held for year `yearId`; decided by the event's year rule alone. */
  function IsEventApplicableToYear(config: Configuration, event: Event, yearId: string): (r: bool)
    ensures event.applicableYears.All? ==> r
    ensures event.applicableYears.None? ==> !r
    ensures event.applicableYears.Include? ==> (r <==> yearId in event.applicableYears.ids)
    ensures event.applicableYears.Exclude? ==> (r <==> yearId !in event.applicableYears.ids)
  {
    Admits(event.applicableYears, yearId)
  }

  /** Whether `event` is held for gender `genderId`; decided by the event's gender rule alone. */
  function IsEventApplicableToGender(config: Configuration, event: Event, genderId: string): (r: bool)
    ensures event.applicableGenders.All? ==> r
    ensures event.applicableGenders.None? ==> !r
    ensures event.applicableGenders.Include? ==> (r <==> genderId in event.applicableGenders.ids)
    ensures event.applicableGenders.Exclude? ==> (r <==> genderId !in event.applicableGenders.ids)
  {
    Admits(event.applicableGenders, genderId)
  }

  function GetVersion(config: Configuration): (v: string)
    ensures v == config.version
  {
    config.version
  }

  /** For one id list, `Include` and `Exclude` give opposite verdicts on every id. */
  lemma IncludeExcludeComplement(ids: seq<string>, x: string)
    ensures Admits(Include(ids), x) == !Admits(Exclude(ids), x)
  {
  }

  /**
   * The year check reads only the event's year rule and the gender check only its
   * gender rule: neither depends on the configuration or on the other rule.
   */
  lemma ApplicabilityReadsOnlyItsRule(c1: Configuration, c2: Configuration, e1: Event, e2: Event, id: string)
    ensures e1.applicableYears == e2.applicableYears ==>
      IsEventApplicableToYear(c1, e1, id) == IsEventApplicableToYear(c2, e2, id)
    ensures e1.applicableGenders == e2.applicableGenders ==>
      IsEventApplicableToGender(c1, e1, id) == IsEventApplicableToGender(c2, e2, id)
  {
  }
}
