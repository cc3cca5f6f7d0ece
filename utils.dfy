/**
 * The scoreboard arithmetic behind the scoreboard page and the `ternary!` macro.
 *
 * The page tallies, for every year and form, the integer scores found in the
 * events' score records, then derives a total per year, a total per configured
 * form and a grand total. Records that are not objects of strings are skipped,
 * and so are score strings that do not parse as 64-bit integers.
 */
module Utils {
  import opened Common
  import opened Db
  import Parser
  import Build
  import DbYears
  import DbEvents

  /** `ternary!(c => a, b)`: `a` when the condition holds, `b` otherwise. */
  function Ternary<T>(c: bool, a: T, b: T): (r: T)
    ensures c ==> r == a
    ensures !c ==> r == b
  {
    if c then a else b
  }

  // ---------------------------------------------------------------------------
  // Parsing a score string as a signed 64-bit integer

  const MinI64: int := -0x8000_0000_0000_0000
  const MaxI64: int := 0x7fff_ffff_ffff_ffff

  predicate IsDigit(c: char)
  {
    '0' <= c <= '9'
  }

  predicate AllDigits(s: string)
  {
    forall i :: 0 <= i < |s| ==> IsDigit(s[i])
  }

  function DigitValue(c: char): nat
    requires IsDigit(c)
  {
    c as int - '0' as int
  }

  /** The value of a run of decimal digits, most significant digit first. */
  function DigitsValue(s: string): nat
    requires AllDigits(s)
  {
    if s == [] then 0 else DigitsValue(s[..|s| - 1]) * 10 + DigitValue(s[|s| - 1])
  }

  /**
   * Integer parsing as the standard library does it for i64: an optional `+` or
   * `-`, then at least one ASCII digit and nothing else, with the value in range.
   */
  function ParseI64(s: string): (r: Option<int>)
    ensures r.Some? ==> MinI64 <= r.value <= MaxI64
    ensures r.Some? ==> |s| > 0 && (IsDigit(s[0]) || s[0] == '+' || s[0] == '-')
  {
    var digits := if |s| > 0 && (s[0] == '+' || s[0] == '-') then s[1..] else s;
    if digits == [] || !AllDigits(digits) then None
    else
      var v := if |s| > 0 && s[0] == '-' then -(DigitsValue(digits) as int) else DigitsValue(digits);
      if MinI64 <= v <= MaxI64 then Some(v) else None
  }

  function DigitChar(d: nat): (c: char)
    requires d < 10
    ensures IsDigit(c) && DigitValue(c) == d
  {
    ('0' as int + d) as char
  }

  /** Decimal text of a natural number, without leading zeros. */
  function ShowNat(n: nat): (s: string)
    ensures |s| > 0 && AllDigits(s)
  {
    if n < 10 then [DigitChar(n)] else ShowNat(n / 10) + [DigitChar(n % 10)]
  }

  /** Decimal text of an integer, with a `-` for negative values. */
  function Show(n: int): string
  {
    if n < 0 then "-" + ShowNat(-n) else ShowNat(n)
  }

  lemma {:induction false} ShowNatValue(n: nat)
    ensures DigitsValue(ShowNat(n)) == n
  {
    if n >= 10 {
      ShowNatValue(n / 10);
      var s := ShowNat(n);
      assert s[..|s| - 1] == ShowNat(n / 10);
    }
  }

  /** Every i64 written in decimal parses back to itself. */
  lemma ParseShow(n: int)
    requires MinI64 <= n <= MaxI64
    ensures ParseI64(Show(n)) == Some(n)
  {
    if n < 0 {
      ParseNegative(-n);
    } else {
      ParseNatural(n);
    }
  }

  lemma ParseNegative(m: nat)
    requires 0 < m <= -MinI64
    ensures ParseI64("-" + ShowNat(m)) == Some(-(m as int))
  {
    ShowNatValue(m);
    var s := "-" + ShowNat(m);
    assert s[0] == '-';
    assert s[1..] == ShowNat(m);
  }

  lemma ParseNatural(m: nat)
    requires m <= MaxI64
    ensures ParseI64(ShowNat(m)) == Some(m)
  {
    ShowNatValue(m);
    var s := ShowNat(m);
    assert IsDigit(s[0]);
  }

  /** A leading `+` is accepted and changes nothing. */
  lemma ParsePlus(n: nat)
    requires n <= MaxI64
    ensures ParseI64("+" + ShowNat(n)) == Some(n)
  {
    ShowNatValue(n);
    assert ("+" + ShowNat(n))[1..] == ShowNat(n);
  }

  /**
   * A bare run of digits, leading zeros included, parses to its decimal value
   * when that fits in an i64 and is rejected otherwise.
   */
  lemma ParseUnsigned(d: string)
    requires d != [] && AllDigits(d)
    ensures ParseI64(d) == if DigitsValue(d) <= MaxI64 then Some(DigitsValue(d) as int) else None
  {
    assert IsDigit(d[0]);
  }

  /**
   * A sign followed by a run of digits parses to the signed decimal value when
   * it fits in an i64 ("-0" gives 0) and is rejected otherwise.
   */
  lemma ParseSigned(sign: char, d: string)
    requires sign == '+' || sign == '-'
    requires d != [] && AllDigits(d)
    ensures var v := if sign == '-' then -(DigitsValue(d) as int) else DigitsValue(d) as int;
      ParseI64([sign] + d) == if MinI64 <= v <= MaxI64 then Some(v) else None
  {
    assert ([sign] + d)[1..] == d;
  }

  /** Text holding a character that is neither a digit nor a leading sign never parses. */
  lemma ParseRejectsNonDigit(s: string, i: nat)
    requires i < |s| && !IsDigit(s[i])
    requires i > 0 || (s[0] != '+' && s[0] != '-')
    ensures ParseI64(s) == None
  {
    if s[0] == '+' || s[0] == '-' {
      assert s[1..][i - 1] == s[i];
    }
  }

  // ---------------------------------------------------------------------------
  // Sums over map values (a HashMap's `values().sum()`, in no particular order)

  ghost function SumValues(m: map<string, int>): int
    decreases |m|
  {
    if m == map[] then 0
    else
      var k :| k in m;
      m[k] + SumValues(m - {k})
  }

  /** Any key can be taken out first: the sum does not depend on the order. */
  lemma {:induction false} SumValuesRemove(m: map<string, int>, k: string)
    requires k in m
    ensures SumValues(m) == m[k] + SumValues(m - {k})
    decreases |m|
  {
    var j :| j in m && SumValues(m) == m[j] + SumValues(m - {j});
    if j != k {
      SumValuesRemove(m - {j}, k);
      SumValuesRemove(m - {k}, j);
      assert m - {j} - {k} == m - {k} - {j};
    }
  }

  /** Overwriting one entry changes the sum by the difference. */
  lemma SumValuesUpdate(m: map<string, int>, k: string, v: int)
    ensures SumValues(m[k := v]) == SumValues(m) - GetOr(m, k, 0) + v
  {
    SumValuesRemove(m[k := v], k);
    if k in m {
      SumValuesRemove(m, k);
      assert m[k := v] - {k} == m - {k};
    } else {
      assert m[k := v] - {k} == m;
    }
  }

  /** Two maps added key by key, a missing key counting as 0. */
  function Merge(a: map<string, int>, b: map<string, int>): (r: map<string, int>)
    ensures r.Keys == a.Keys + b.Keys
    ensures forall k :: k in r ==> r[k] == GetOr(a, k, 0) + GetOr(b, k, 0)
  {
    map k | k in a.Keys + b.Keys :: GetOr(a, k, 0) + GetOr(b, k, 0)
  }

  /** Summing is additive over a key-by-key merge. */
  lemma {:induction false} SumValuesMerge(a: map<string, int>, b: map<string, int>)
    ensures SumValues(Merge(a, b)) == SumValues(a) + SumValues(b)
    decreases |b|
  {
    if b == map[] {
      MergeEmpty(a);
    } else {
      var k :| k in b;
      var rest := b - {k};
      assert |rest| < |b|;
      SumValuesMerge(a, rest);
      SumValuesMergeStep(a, b, k);
      SumValuesRemove(b, k);
    }
  }

  /** Merging in one more key adds its value to the merged sum. */
  lemma SumValuesMergeStep(a: map<string, int>, b: map<string, int>, k: string)
    requires k in b
    ensures SumValues(Merge(a, b)) == SumValues(Merge(a, b - {k})) + b[k]
  {
    var m := Merge(a, b - {k});
    MergeStep(a, b, k);
    assert GetOr(m, k, 0) == GetOr(a, k, 0);
    SumValuesUpdate(m, k, GetOr(a, k, 0) + b[k]);
  }

  lemma MergeEmpty(a: map<string, int>)
    ensures Merge(a, map[]) == a
  {
    var m := Merge(a, map[]);
    assert m.Keys == a.Keys;
  }

  lemma MergeStep(a: map<string, int>, b: map<string, int>, k: string)
    requires k in b
    ensures Merge(a, b) == Merge(a, b - {k})[k := GetOr(a, k, 0) + b[k]]
  {
    var l, r := Merge(a, b), Merge(a, b - {k})[k := GetOr(a, k, 0) + b[k]];
    assert l.Keys == r.Keys;
    forall j | j in l
      ensures l[j] == r[j]
    {
    }
  }

  function Restrict(m: map<string, int>, keys: set<string>): map<string, int>
  {
    map k | k in keys && k in m :: m[k]
  }

  /** One step of a loop that sums the entries still to visit. */
  lemma SumRestrictStep(m: map<string, int>, rest: set<string>, k: string)
    requires k in rest && rest <= m.Keys
    ensures SumValues(Restrict(m, rest)) == m[k] + SumValues(Restrict(m, rest - {k}))
  {
    SumValuesRemove(Restrict(m, rest), k);
    assert Restrict(m, rest) - {k} == Restrict(m, rest - {k});
  }

  /** `values().sum()`: adds the entries one key at a time, in whatever order. */
  method SumOfValues(m: map<string, int>) returns (total: int)
    ensures total == SumValues(m)
  {
    total := 0;
    var rest := m.Keys;
    assert Restrict(m, rest) == m;
    while rest != {}
      invariant rest <= m.Keys
      invariant total + SumValues(Restrict(m, rest)) == SumValues(m)
      decreases |rest|
    {
      var k :| k in rest;
      SumRestrictStep(m, rest, k);
      total := total + m[k];
      rest := rest - {k};
    }
    assert Restrict(m, rest) == map[];
  }

  // ---------------------------------------------------------------------------
  // The tally of scores per year and form

  /**
   * The record read as an object of strings, when it is one. An empty object
   * reads as one whatever shape it was written in; an object of integers with
   * entries does not.
   */
  function StringEntries(blob: ScoreBlob): Option<map<string, string>>
  {
    match blob
    case StringObject(strs) => Some(strs)
    case IntObject(ints) => if ints == map[] then Some(map[]) else None
    case OtherJson => None
  }

  /** The entries whose score string parses, with their values. */
  function Parsed(scores: map<string, string>): (r: map<string, int>)
    ensures forall f :: f in r <==> f in scores && ParseI64(scores[f]).Some?
    ensures forall f :: f in r ==> r[f] == ParseI64(scores[f]).value
  {
    map f | f in scores && ParseI64(scores[f]).Some? :: ParseI64(scores[f]).value
  }

  /** year -> form -> score, after adding in the events in table order. */
  function Tally(events: seq<Events>): map<string, map<string, int>>
  {
    if events == [] then map[]
    else
      var tally := Tally(events[..|events| - 1]);
      var e := events[|events| - 1];
      match StringEntries(e.scores)
      case None => tally
      case Some(scores) => tally[e.yearId := Merge(GetOr(tally, e.yearId, map[]), Parsed(scores))]
  }

  /** What one event adds to form f's tally: 0 when its record or that entry is skipped. */
  function EventScore(e: Events, f: string): int
  {
    match StringEntries(e.scores)
    case None => 0
    case Some(scores) => GetOr(Parsed(scores), f, 0)
  }

  /** Whether an event carries a parseable score for form f. */
  predicate Scores(e: Events, f: string)
  {
    match StringEntries(e.scores)
    case None => false
    case Some(scores) => f in Parsed(scores)
  }

  /** Form f's scores summed over the events of year y. */
  function YearFormSum(events: seq<Events>, y: string, f: string): int
  {
    if events == [] then 0
    else
      var e := events[|events| - 1];
      YearFormSum(events[..|events| - 1], y, f) + (if e.yearId == y then EventScore(e, f) else 0)
  }

  /** Form f's scores summed over all events. */
  function FormSum(events: seq<Events>, f: string): int
  {
    if events == [] then 0
    else FormSum(events[..|events| - 1], f) + EventScore(events[|events| - 1], f)
  }

  /** Everything one event adds to its year, over all of its parseable entries. */
  ghost function EventTotal(e: Events): int
  {
    match StringEntries(e.scores)
    case None => 0
    case Some(scores) => SumValues(Parsed(scores))
  }

  /** Everything the events of year y add up to. */
  ghost function YearSum(events: seq<Events>, y: string): int
  {
    if events == [] then 0
    else
      var e := events[|events| - 1];
      YearSum(events[..|events| - 1], y) + (if e.yearId == y then EventTotal(e) else 0)
  }

  /** Everything the events add up to over the forms in `forms`. */
  ghost function ConfiguredSum(events: seq<Events>, forms: set<string>): int
  {
    if events == [] then 0
    else
      var e := events[|events| - 1];
      ConfiguredSum(events[..|events| - 1], forms) + SumValues(map f | f in forms :: EventScore(e, f))
  }

  /** The tally of form f in every year that has one. */
  function Column(tally: map<string, map<string, int>>, f: string): (c: map<string, int>)
    ensures c.Keys == tally.Keys
  {
    map y | y in tally :: GetOr(tally[y], f, 0)
  }

  ghost function YearTotalsOf(tally: map<string, map<string, int>>): map<string, int>
  {
    map y | y in tally :: SumValues(tally[y])
  }

  ghost function FormTotal(tally: map<string, map<string, int>>, f: string): int
  {
    SumValues(Column(tally, f))
  }

  ghost function FormTotalsOf(forms: seq<Parser.Form>, tally: map<string, map<string, int>>): map<string, int>
  {
    map f | f in Build.FormIds(forms) :: FormTotal(tally, f)
  }

  /**
   * The tally loop: every event whose record reads as an object of strings gets
   * its year entry (created empty if new), and each parseable score is added to
   * that year's entry for its form.
   */
  method TallyScores(events: seq<Events>) returns (tally: map<string, map<string, int>>)
    ensures tally == Tally(events)
  {
    tally := map[];
    for i := 0 to |events|
      invariant tally == Tally(events[..i])
    {
      var event := events[i];
      assert events[..i + 1][..i] == events[..i];
      var entries := StringEntries(event.scores);
      if entries.Some? {
        var yearScores := AddEntries(GetOr(tally, event.yearId, map[]), entries.value);
        tally := tally[event.yearId := yearScores];
      }
    }
    assert events[..|events|] == events;
  }

  /**
   * The inner loop of the tally: each score string that parses is added to the
   * year's entry for its form, an absent form starting from 0.
   */
  method AddEntries(base: map<string, int>, scores: map<string, string>) returns (yearScores: map<string, int>)
    ensures yearScores == Merge(base, Parsed(scores))
  {
    ghost var parsed := Parsed(scores);
    yearScores := base;
    var rest := scores.Keys;
    while rest != {}
      invariant rest <= scores.Keys
      invariant forall f :: f in yearScores <==> f in base || (f in parsed && f !in rest)
      invariant forall f :: f in yearScores ==>
        yearScores[f] == GetOr(base, f, 0) + (if f in rest then 0 else GetOr(parsed, f, 0))
      decreases |rest|
    {
      var formId :| formId in rest;
      var score := ParseI64(scores[formId]);
      assert score.Some? <==> formId in parsed;
      if score.Some? {
        assert parsed[formId] == score.value;
        yearScores := yearScores[formId := GetOr(yearScores, formId, 0) + score.value];
      }
      rest := rest - {formId};
    }
    IsMerge(yearScores, base, parsed);
  }

  /** A map with the merge's keys and the merge's values at each key is the merge. */
  lemma IsMerge(m: map<string, int>, a: map<string, int>, b: map<string, int>)
    requires forall f :: f in m <==> f in a || f in b
    requires forall f :: f in m ==> m[f] == GetOr(a, f, 0) + GetOr(b, f, 0)
    ensures m == Merge(a, b)
  {
    var merged := Merge(a, b);
    assert m.Keys == merged.Keys;
  }

  /** Year totals: each tallied year mapped to the sum of all its form entries. */
  method YearTotals(tally: map<string, map<string, int>>) returns (totals: map<string, int>)
    ensures totals == YearTotalsOf(tally)
  {
    totals := map[];
    var rest := tally.Keys;
    while rest != {}
      invariant rest <= tally.Keys
      invariant totals.Keys == tally.Keys - rest
      invariant forall y :: y in totals ==> totals[y] == SumValues(tally[y])
      decreases |rest|
    {
      var y :| y in rest;
      var total := SumOfValues(tally[y]);
      totals := totals[y := total];
      rest := rest - {y};
    }
  }

  /** One form's total: its entry in every year's tally, added up (0 where absent). */
  method ColumnTotal(tally: map<string, map<string, int>>, formId: string) returns (total: int)
    ensures total == FormTotal(tally, formId)
  {
    ghost var column := Column(tally, formId);
    total := 0;
    var rest := tally.Keys;
    assert Restrict(column, rest) == column;
    while rest != {}
      invariant rest <= tally.Keys
      invariant total + SumValues(Restrict(column, rest)) == SumValues(column)
      decreases |rest|
    {
      var y :| y in rest;
      SumRestrictStep(column, rest, y);
      var formScores := tally[y];
      if formId in formScores {
        total := total + formScores[formId];
      }
      rest := rest - {y};
    }
    assert Restrict(column, rest) == map[];
  }

  /** Form totals: each configured form mapped to its tally summed over the years. */
  method FormTotals(forms: seq<Parser.Form>, tally: map<string, map<string, int>>) returns (totals: map<string, int>)
    ensures totals == FormTotalsOf(forms, tally)
  {
    totals := map[];
    for i := 0 to |forms|
      invariant totals.Keys == Build.FormIds(forms[..i])
      invariant forall f :: f in totals ==> totals[f] == FormTotal(tally, f)
    {
      var formId := forms[i].id;
      var total := ColumnTotal(tally, formId);
      FormIdsStep(forms, i);
      totals := totals[formId := total];
    }
    assert forms[..|forms|] == forms;
  }

  lemma FormIdsStep(forms: seq<Parser.Form>, i: nat)
    requires i < |forms|
    ensures Build.FormIds(forms[..i + 1]) == Build.FormIds(forms[..i]) + {forms[i].id}
  {
    assert forms[..i + 1] == forms[..i] + [forms[i]];
  }

  /** What the scoreboard template receives. */
  datatype Scoreboard = Scoreboard(
    forms: seq<Parser.Form>,
    years: seq<DbYears.Years>,
    scores: map<string, map<string, int>>,
    yearTotals: map<string, int>,
    formTotals: map<string, int>,
    grandTotal: int)

  /**
   * The aggregation of the scoreboard page: reads the years and events tables,
   * tallies, and totals per year, per configured form and overall.
   */
  method RenderScoreboard(forms: seq<Parser.Form>, pool: Pool) returns (r: StoreResult<Scoreboard>)
    ensures r.Ok? ==> r.value.forms == forms
    ensures r.Ok? ==> |r.value.years| == |pool.years|
    ensures r.Ok? ==> forall i :: 0 <= i < |pool.years| ==>
      r.value.years[i] == DbYears.Years(pool.years[i].id, pool.years[i].name, [])
    ensures r.Ok? ==> r.value.scores == Tally(pool.events)
    ensures r.Ok? ==> r.value.yearTotals == YearTotalsOf(r.value.scores)
    ensures r.Ok? ==> r.value.formTotals == FormTotalsOf(forms, r.value.scores)
    ensures r.Ok? ==> r.value.grandTotal == SumValues(r.value.formTotals)
  {
    var years := DbYears.All(pool);
    if years.StorageError? {
      return StorageError;
    }
    var events := DbEvents.All(pool);
    if events.StorageError? {
      return StorageError;
    }
    var scores := TallyScores(events.value);
    var yearTotals := YearTotals(scores);
    var formTotals := FormTotals(forms, scores);
    var grandTotal := SumOfValues(formTotals);
    r := Ok(Scoreboard(forms, years.value, scores, yearTotals, formTotals, grandTotal));
  }

  // ---------------------------------------------------------------------------
  // What the tallies mean in terms of the events

  /** A year has a tally exactly when one of its events has a record of strings. */
  lemma {:induction false} TallyYears(events: seq<Events>, y: string)
    ensures y in Tally(events) <==>
      exists i :: 0 <= i < |events| && events[i].yearId == y && StringEntries(events[i].scores).Some?
  {
    if events != [] {
      var n := |events| - 1;
      TallyYears(events[..n], y);
      if y in Tally(events[..n]) {
        var i :| 0 <= i < n && events[..n][i].yearId == y && StringEntries(events[..n][i].scores).Some?;
        assert events[i] == events[..n][i];
      }
      if exists i :: 0 <= i < |events| && events[i].yearId == y && StringEntries(events[i].scores).Some? {
        var i :| 0 <= i < |events| && events[i].yearId == y && StringEntries(events[i].scores).Some?;
        if i < n {
          assert events[..n][i] == events[i];
        }
      }
    }
  }

  /** scores[y][f] (0 when absent) is form f's score summed over year y's events. */
  lemma {:induction false} TallyCell(events: seq<Events>, y: string, f: string)
    ensures GetOr(GetOr(Tally(events), y, map[]), f, 0) == YearFormSum(events, y, f)
  {
    if events != [] {
      TallyCell(events[..|events| - 1], y, f);
    }
  }

  /** Some event of year y carries a parseable score for form f. */
  predicate ScoredIn(events: seq<Events>, y: string, f: string)
  {
    exists i :: 0 <= i < |events| && events[i].yearId == y && Scores(events[i], f)
  }

  lemma ScoredInStep(events: seq<Events>, y: string, f: string)
    requires events != []
    ensures var n := |events| - 1;
      ScoredIn(events, y, f) <==> ScoredIn(events[..n], y, f) || (events[n].yearId == y && Scores(events[n], f))
  {
    var n := |events| - 1;
    ScoredInPrefix(events, n, y, f);
  }

  /** Restricted to a prefix, "some event scores f" ranges over that prefix's indices. */
  lemma ScoredInPrefix(events: seq<Events>, n: nat, y: string, f: string)
    requires n <= |events|
    ensures ScoredIn(events[..n], y, f) <==> exists i :: 0 <= i < n && events[i].yearId == y && Scores(events[i], f)
  {
    forall i | 0 <= i < n
      ensures events[..n][i] == events[i]
    {
    }
  }

  /** A form appears under a year exactly when some event of that year scores it. */
  lemma {:induction false} TallyForms(events: seq<Events>, y: string, f: string)
    ensures f in GetOr(Tally(events), y, map[]) <==> ScoredIn(events, y, f)
  {
    if events != [] {
      TallyForms(events[..|events| - 1], y, f);
      TallyFormsStep(events, y, f);
      ScoredInStep(events, y, f);
    }
  }

  lemma TallyFormsStep(events: seq<Events>, y: string, f: string)
    requires events != []
    ensures var n := |events| - 1;
      f in GetOr(Tally(events), y, map[]) <==>
        f in GetOr(Tally(events[..n]), y, map[]) || (events[n].yearId == y && Scores(events[n], f))
  {
    var n := |events| - 1;
    var e := events[n];
    var entries := StringEntries(e.scores);
    if entries.Some? && e.yearId == y {
      var merged := Merge(GetOr(Tally(events[..n]), y, map[]), Parsed(entries.value));
      assert f in merged <==> f in GetOr(Tally(events[..n]), y, map[]) || f in Parsed(entries.value);
    }
  }

  /** year_totals[y] is everything year y's events scored, configured forms or not. */
  lemma {:induction false} YearTotalOfEvents(events: seq<Events>, y: string)
    requires y in Tally(events)
    ensures YearTotalsOf(Tally(events))[y] == YearSum(events, y)
  {
    YearSumOfTally(events, y);
  }

  lemma {:induction false} YearSumOfTally(events: seq<Events>, y: string)
    ensures SumValues(GetOr(Tally(events), y, map[])) == YearSum(events, y)
  {
    if events != [] {
      var n := |events| - 1;
      YearSumOfTally(events[..n], y);
      var e := events[n];
      var tally := Tally(events[..n]);
      if e.yearId == y && StringEntries(e.scores).Some? {
        SumValuesMerge(GetOr(tally, y, map[]), Parsed(StringEntries(e.scores).value));
      }
    }
  }

  /** form_totals[f] is form f's score summed over every event of every year. */
  lemma {:induction false} FormTotalOfEvents(events: seq<Events>, f: string)
    ensures FormTotal(Tally(events), f) == FormSum(events, f)
  {
    if events != [] {
      var n := |events| - 1;
      FormTotalOfEvents(events[..n], f);
      var e := events[n];
      var tally := Tally(events[..n]);
      var entries := StringEntries(e.scores);
      if entries.Some? {
        var cell := GetOr(tally, e.yearId, map[]);
        var merged := Merge(cell, Parsed(entries.value));
        assert GetOr(merged, f, 0) == GetOr(cell, f, 0) + EventScore(e, f);
        ColumnUpdate(tally, e.yearId, merged, f);
        SumValuesUpdate(Column(tally, f), e.yearId, GetOr(merged, f, 0));
      }
    }
  }

  lemma ColumnUpdate(tally: map<string, map<string, int>>, y: string, cell: map<string, int>, f: string)
    ensures Column(tally[y := cell], f) == Column(tally, f)[y := GetOr(cell, f, 0)]
  {
    var l, r := Column(tally[y := cell], f), Column(tally, f)[y := GetOr(cell, f, 0)];
    assert l.Keys == r.Keys;
    forall k | k in l
      ensures l[k] == r[k]
    {
    }
  }

  /** A configured form no event scores totals 0. */
  lemma {:induction false} UnscoredFormTotal(events: seq<Events>, f: string)
    requires forall i :: 0 <= i < |events| ==> !Scores(events[i], f)
    ensures FormTotal(Tally(events), f) == 0
  {
    FormTotalOfEvents(events, f);
    UnscoredFormSum(events, f);
  }

  lemma {:induction false} UnscoredFormSum(events: seq<Events>, f: string)
    requires forall i :: 0 <= i < |events| ==> !Scores(events[i], f)
    ensures FormSum(events, f) == 0
  {
    if events != [] {
      var n := |events| - 1;
      assert !Scores(events[n], f);
      UnscoredFormSum(events[..n], f);
    }
  }

  /** The grand total is everything the events scored for the configured forms. */
  lemma GrandTotalOfEvents(forms: seq<Parser.Form>, events: seq<Events>)
    ensures SumValues(FormTotalsOf(forms, Tally(events))) == ConfiguredSum(events, Build.FormIds(forms))
  {
    var totals := FormTotalsOf(forms, Tally(events));
    forall f | f in totals
      ensures totals[f] == FormSum(events, f)
    {
      FormTotalOfEvents(events, f);
    }
    ConfiguredSumOfForms(events, Build.FormIds(forms), totals);
  }

  /** Summing per-form sums over the events equals summing per-event sums over the forms. */
  lemma {:induction false} ConfiguredSumOfForms(events: seq<Events>, ids: set<string>, sums: map<string, int>)
    requires sums.Keys == ids
    requires forall f :: f in sums ==> sums[f] == FormSum(events, f)
    ensures SumValues(sums) == ConfiguredSum(events, ids)
  {
    if events == [] {
      ZeroSum(sums);
    } else {
      var n := |events| - 1;
      var before := map f | f in ids :: FormSum(events[..n], f);
      ConfiguredSumOfForms(events[..n], ids, before);
      var added := map f | f in ids :: EventScore(events[n], f);
      var merged := Merge(before, added);
      assert sums.Keys == merged.Keys;
      forall f | f in sums
        ensures sums[f] == merged[f]
      {
      }
      assert sums == merged;
      SumValuesMerge(before, added);
    }
  }

  lemma {:induction false} ZeroSum(m: map<string, int>)
    requires forall k :: k in m ==> m[k] == 0
    ensures SumValues(m) == 0
    decreases |m|
  {
    if m != map[] {
      var k :| k in m;
      SumValuesRemove(m, k);
      ZeroSum(m - {k});
    }
  }

  /** One 2024 event scoring "10" for form1 and "20" for form2 tallies exactly that. */
  lemma SingleEventScenario()
    ensures Tally([Events("2024-mixed-event1", "Event 1", "2024", "mixed", "event1",
                          StringObject(map["form1" := "10", "form2" := "20"]))])
         == map["2024" := map["form1" := 10, "form2" := 20]]
  {
    var parsed := map["form1" := 10, "form2" := 20];
    ScenarioParsed();
    MergeIntoEmpty(parsed);
  }

  lemma ScenarioParsed()
    ensures Parsed(map["form1" := "10", "form2" := "20"]) == map["form1" := 10, "form2" := 20]
  {
    ParseShow(10);
    ParseShow(20);
    assert Show(10) == "10" && Show(20) == "20";
  }

  lemma MergeIntoEmpty(m: map<string, int>)
    ensures Merge(map[], m) == m
  {
    assert Merge(map[], m).Keys == m.Keys;
  }

  /**
   * The records plan expansion writes are objects of integers: with at least one
   * form configured, events that still carry them add nothing and create no year.
   */
  lemma {:induction false} PlanRecordsSkipped(events: seq<Events>)
    requires forall i :: 0 <= i < |events| ==> events[i].scores.IntObject? && events[i].scores.ints != map[]
    ensures Tally(events) == map[]
  {
    if events != [] {
      var n := |events| - 1;
      assert events[n].scores.IntObject?;
      PlanRecordsSkipped(events[..n]);
    }
  }
}
