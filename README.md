# Sports-day scoreboard, modelled in Dafny

This project models the core of a school sports-day scoreboard server.

- **Configuration.** A configuration lists years, genders, forms (the teams that collect points), scoring tiers and events. Each event carries two applicability rules, `all`, `none`, `include ids` or `exclude ids`: one for years and one for genders.
- **Plan expansion.** This turns the configuration into a plan. There is one year plan per year, holding one entry per (event, gender) pair that both rules admit. Every entry starts with a zero score for each form.
- **Plan application.** This purges the events and years tables and then writes the plan back, year row first and then its event rows.
- **Scoreboard aggregation.** This reads every event row. It tallies the per-form score strings per year, then derives the year totals, the form totals over the configured forms, and the grand total.
- **Other parts.** The model also covers:
  - the table operations on years, events, users and login sessions;
  - the blocklist guarding the admin SQL console;
  - the default-header middleware;
  - the bounded in-memory log buffer;
  - the registry of live-update channels.

Modules follow the source files:

| module | file |
|---|---|
| `Parser` | `parser.dfy` |
| `Build` | `build.dfy` |
| `Run` | `run.dfy` |
| `Db` | `db.dfy`: the row types and the `Pool` class holding every table |
| `DbEvents` | `events.dfy` |
| `DbYears` | `years.dfy` |
| `DbUsers` | `users.dfy` |
| `DbUserSessions` | `user_sessions.dfy` |
| `Utils` | `utils.dfy`: scoreboard aggregation, integer parsing |
| `AdminSqlite` | `sqlite.dfy` |
| `Headers` | `headers.dfy` |
| `Logger` | `logger.dfy` |
| `WebSocket` | `websocket.dfy` |
| `Common` | `common.dfy`: option type and first-match search |

How the store is modelled:

- The database is the class `Db.Pool`, whose table fields are sequences of rows that the table operations reassign.
- Whether the pool hands out a connection is left open (`Db.Connect`), so every table operation also has a storage-error outcome. On that outcome the table is left as it was.
- Score records are JSON text in the source. `Db.ScoreBlob` keeps the three shapes the readers distinguish: an object of integers (what plan expansion writes), an object of strings (what score entry writes), and anything else.

## Model

| member | source | states |
|---|---|---|
| Parser.Contains | src/configurator/parser.rs:91 | id-list membership holds exactly when the id is in the list |
| Parser.IsEventApplicableToYear | src/configurator/parser.rs:87-94 | `all` admits every year and `none` admits none; `include` admits exactly the listed ids and `exclude` exactly the others |
| Parser.IsEventApplicableToGender | src/configurator/parser.rs:96-104 | the same four cases, on the event's gender rule |
| Parser.GetVersion | src/configurator/parser.rs:107-109 | a plain getter: the configuration's version string, unchanged |
| Parser.IncludeExcludeComplement | src/configurator/parser.rs:91-92 | `include ids` and `exclude ids` give opposite verdicts on every id |
| Parser.ApplicabilityReadsOnlyItsRule | src/configurator/parser.rs:87-104 | the year check depends only on the event's year rule, and the gender check only on its gender rule |
| Build.ZeroScores | src/configurator/build.rs:7-13 | the score template has exactly the form ids as keys, each mapped to 0 |
| Build.BuildPlan | src/configurator/build.rs:3-44 | the nested year/event/gender loops compute exactly the plan the configuration denotes |
| Build.ExpandYear | src/configurator/build.rs:15-40 | one pass of the year loop yields that year's entries: admitted events in order, within each the admitted genders in order |
| Build.PlanFollowsYears | src/configurator/build.rs:15-23 | there is one year plan per configured year, in order, with id and name copied |
| Build.GenderEntriesMembership | src/configurator/build.rs:29-39 | an entry comes from the gender loop iff some listed gender is admitted by the event's gender rule |
| Build.YearEntriesMembership | src/configurator/build.rs:25-39 | an entry comes from the event loop iff some event admitted for the year and some admitted gender produce it |
| Build.EntryInPlanIff | src/configurator/build.rs:25-39 | the (year, event, gender) entry is in that year's plan iff the event's year rule admits the year and its gender rule admits the gender |
| Build.EntryFields | src/configurator/build.rs:31-37 | every entry has id `year-gender-event`, the event's name, the gender, the event id as filter key, and a zero score for each form |
| Build.GenderEntriesAppend | src/configurator/build.rs:29-39 | the gender loop distributes over concatenated gender lists |
| Build.YearEntriesAppend | src/configurator/build.rs:25-40 | the event loop distributes over concatenated event lists |
| Build.EntriesOrdered | src/configurator/build.rs:25-40 | all entries of an earlier event precede those of a later one; within an event, entries follow gender order |
| Build.AllGendersCount | src/configurator/build.rs:29-39 | an `all` gender rule gives one entry per gender, in gender order |
| Build.AllAllYearCount | src/configurator/build.rs:25-40 | with `all`/`all` rules, a year gets \|events\| * \|genders\| entries |
| Build.AllAllCount | src/configurator/build.rs:15-42 | every year plan of an `all`/`all` configuration has \|events\| * \|genders\| entries |
| Build.EmptyAxisGivesNoEntries | src/configurator/build.rs:25-40 | with no genders or no events, every year plan is empty |
| Build.SprintScenario | src/configurator/build.rs:3-44 | year7, boys and girls, and one all/all sprint expand to `year7-boys-sprint` then `year7-girls-sprint` |
| Run.YearRows | src/configurator/run.rs:15-17 | one (id, name) year row per year plan, in plan order |
| Run.Run | src/configurator/run.rs:9-33 | on success the tables hold exactly the plan's rows. A failed insert leaves a prefix of them. A failed purge panics: years stay as they were, and events are either unchanged or purged. Every event row written refers to a stored year |
| Run.InsertEvents | src/configurator/run.rs:18-30 | the inner loop appends the year's event rows in entry order, stopping at the first failed insert; all of them when none fails |
| Run.YearInsertFailed | src/configurator/run.rs:15-17 | when inserting a year fails, the tables hold the earlier years' rows: a proper prefix of the plan's years, a prefix of its events, each event with its year |
| Run.EventInsertFailed | src/configurator/run.rs:18-30 | when inserting an event fails, the tables hold a proper prefix of the plan's event rows, each with its year row already written |
| Run.YearRowsPrefix | src/configurator/run.rs:13-17 | the year rows written before a failure at year i are a proper prefix of the plan's |
| Run.EventRowsPrefix | src/configurator/run.rs:18-30 | the event rows written before a failure are a prefix of the plan's, a proper one when an event insert failed |
| Run.RowsReferToYears | src/configurator/run.rs:13-31 | writing a whole plan leaves no event row without its year row |
| Run.PartialRowsReferToYears | src/configurator/run.rs:13-31 | neither does a run interrupted inside any year |
| Run.EventRowsAppend | src/configurator/run.rs:13-31 | the event rows of concatenated plans concatenate |
| Run.EventRowsCount | src/configurator/run.rs:18-30 | the events table receives one row per plan entry |
| Run.EventRowsCarryTheirYear | src/configurator/run.rs:18-30 | each event row carries the id of the year plan it was written under |
| Run.UniformRowCount | src/configurator/run.rs:13-31 | when every year plan has m entries, the events table receives \|plans\| * m rows |
| Run.AllAllRowCount | src/configurator/run.rs:9-33 | end to end, an `all`/`all` configuration yields \|years\| * \|events\| * \|genders\| event rows |
| Run.EmptyPlanRows | src/configurator/run.rs:11-12 | an empty plan leaves both tables empty |
| DbEvents.New | src/db/events.rs:16-32 | every argument lands in the field of the same name |
| DbEvents.Insert | src/db/events.rs:45-57 | success appends the row; failure leaves the table unchanged |
| DbEvents.All | src/db/events.rs:59-73 | every row, in table order |
| DbEvents.Where | src/db/events.rs:75-110 | the filter loop returns exactly the rows the three optional filters admit, in table order |
| DbEvents.SetScores | src/db/events.rs:112-128 | every row with the id gets the new score record; all other rows are unchanged |
| DbEvents.DeleteAll | src/db/events.rs:130-137 | success empties the table |
| DbEvents.Count | src/db/events.rs:139-145 | the number of rows |
| DbEvents.FilteredMembership | src/db/events.rs:90-104 | a row is returned iff it is in the table and passes every filter that is given |
| DbEvents.FilteredNoFilters | src/db/events.rs:90-104 | with no filter given, the whole table comes back |
| DbEvents.FilteredIsSubsequence | src/db/events.rs:90-104 | the result is the table with some rows removed, order kept |
| DbYears.New | src/db/years.rs:13-19 | a year with the given id and name and no events |
| DbYears.Insert | src/db/years.rs:29-39 | success appends the (id, name) row and returns the value unchanged |
| DbYears.All | src/db/years.rs:41-55 | every row as a year with an empty event list, in table order |
| DbYears.NewEvent | src/db/years.rs:57-71 | the event row for this year is appended to the value and inserted into the table |
| DbYears.DeleteAll | src/db/years.rs:73-80 | success empties the table |
| DbUsers.New | src/db/users.rs:17-24 | a user with no id yet and the given email and flags |
| DbUsers.WithEmail | src/db/users.rs:34-51 | the first row with the email, or none iff no row has it |
| DbUsers.WithId | src/db/users.rs:124-136 | a row with the id, or none iff no row has it |
| DbUsers.FindByEmail | src/db/users.rs:34-51 | the lookup by email over the table |
| DbUsers.FindById | src/db/users.rs:124-136 | the lookup by rowid over the table |
| DbUsers.InsertRow | src/db/users.rs:91-106 | the row is stored under the next rowid, which exceeds every earlier id |
| DbUsers.GetOrCreate | src/db/users.rs:53-89 | a known email returns the stored user and inserts nothing. A new email inserts one row with both flags false and returns it under a rowid no earlier user has |
| DbUsers.Insert | src/db/users.rs:91-106 | stores email and flags under a fresh rowid; rowids stay distinct |
| DbUsers.All | src/db/users.rs:108-122 | every row read back, in table order |
| DbUsers.Update | src/db/users.rs:138-160 | the row with the id gets the new email and flags; other rows are unchanged |
| DbUsers.NewSession | src/db/users.rs:162-164 | a session carrying the user's id and both flags |
| DbUsers.Count | src/db/users.rs:166-172 | the number of rows |
| DbUserSessions.New | src/db/user_sessions.rs:15-23 | a session with the given id, user id and flags |
| DbUserSessions.Insert | src/db/user_sessions.rs:33-41 | success appends the session |
| DbUserSessions.Verify | src/db/user_sessions.rs:43-74 | two stored sessions with the cookie's id make the lookup fail, since it expects at most one row; otherwise verified iff a stored session has the cookie's id, with that row's flags, and unverified with both flags false when none has; the cookie is echoed back |
| Utils.Ternary | src/utils.rs:67-76 | the first value when the condition holds, the second otherwise |
| Utils.ParseI64 | src/utils.rs:25 | a parsed value is within the i64 range and the text starts with a digit or a sign |
| Utils.ParseUnsigned | src/utils.rs:25 | a run of digits, leading zeros included, parses to its decimal value when that fits in an i64, and is rejected when it does not |
| Utils.ParseSigned | src/utils.rs:25 | a `+` or `-` followed by digits parses to the signed value when it fits in an i64 ("-0" gives 0), and is rejected when it does not |
| Utils.ParseShow | src/utils.rs:25 | every i64 written in decimal parses back to itself |
| Utils.ParsePlus | src/utils.rs:25 | a leading `+` is accepted |
| Utils.ParseRejectsNonDigit | src/utils.rs:25 | a non-digit anywhere after the optional sign makes the parse fail, so that score is skipped |
| Utils.Merge | src/utils.rs:23-27 | reference definition of adding a record's scores (key union, sums with missing keys as 0); AddEntries, SumValuesMerge and TallyCell carry the properties |
| Utils.Parsed | src/utils.rs:24-27 | reference definition of the entries whose score string parses, with their values; AddEntries and TallyForms carry the properties |
| Utils.SumValuesMerge | src/utils.rs:23-27 | merging adds the sums of values |
| Utils.SumOfValues | src/utils.rs:35 | the sum of a map's values, whatever key order the loop takes |
| Utils.AddEntries | src/utils.rs:23-28 | the inner loop adds every parsable score of one record into its year's map |
| Utils.TallyScores | src/utils.rs:17-30 | the event loop computes the per-year, per-form tally |
| Utils.YearTotals | src/utils.rs:33-37 | each tallied year maps to the sum of its form scores |
| Utils.ColumnTotal | src/utils.rs:42-47 | a form's total over every tallied year, missing years counting 0 |
| Utils.FormTotals | src/utils.rs:40-49 | every configured form maps to its total, including forms that never scored |
| Utils.RenderScoreboard | src/utils.rs:12-52 | the scoreboard holds the forms, every year row, the tally of every event row, and the year totals, form totals and grand total derived from it |
| Utils.TallyYears | src/utils.rs:18-23 | a year appears in the tally iff one of its event rows holds a string object; integer-object plan records are skipped |
| Utils.TallyCell | src/utils.rs:18-30 | each (year, form) cell is the sum of that form's parsable scores over the year's event rows |
| Utils.TallyForms | src/utils.rs:24-27 | a form appears under a year iff some event row of that year gave it a parsable score |
| Utils.YearTotalOfEvents | src/utils.rs:33-37 | a year's total is the sum of every parsable score recorded for that year |
| Utils.FormTotalOfEvents | src/utils.rs:40-49 | a form's total is the sum of its parsable scores over all event rows |
| Utils.UnscoredFormTotal | src/utils.rs:40-49 | a form that was never scored totals 0 |
| Utils.GrandTotalOfEvents | src/utils.rs:52 | the grand total is the sum, over the configured forms, of their scores in every event row |
| Utils.SingleEventScenario | src/utils.rs:17-30 | one 2024 event scoring "10" for form1 and "20" for form2 tallies to exactly those two cells |
| Utils.PlanRecordsSkipped | src/utils.rs:20-22 | event rows that still hold the non-empty zero template contribute nothing |
| AdminSqlite.Lower | src/routes/admin/sqlite.rs:82 | reference definition of character-by-character ASCII lower-casing; LowerIdempotent and DangerIgnoresCase carry the properties |
| AdminSqlite.LowerIdempotent | src/routes/admin/sqlite.rs:82 | lower-casing twice equals lower-casing once |
| AdminSqlite.Contains | src/routes/admin/sqlite.rs:100 | substring search succeeds iff the pattern occurs at some position |
| AdminSqlite.IsDangerousCommand | src/routes/admin/sqlite.rs:81-106 | a query is dangerous iff its lower-cased text contains one of the eleven patterns |
| AdminSqlite.DangerIgnoresCase | src/routes/admin/sqlite.rs:82 | the verdict does not depend on letter case |
| AdminSqlite.DangerIsMonotone | src/routes/admin/sqlite.rs:99-103 | a query that contains a dangerous query is dangerous |
| AdminSqlite.EmptyQueryIsSafe | src/routes/admin/sqlite.rs:81-106 | the empty query passes |
| AdminSqlite.TrimShape | src/routes/admin/sqlite.rs:40 | the trimmed query is the slice after the leading white space, only white space lies outside it, and neither of its ends is white space |
| AdminSqlite.DangerSurvivesTrim | src/routes/admin/sqlite.rs:40-43 | trimming never changes the verdict, since no pattern starts or ends with white space |
| AdminSqlite.Guard | src/routes/admin/sqlite.rs:40-49 | blocked iff the trimmed query is dangerous, with the fixed failure result; otherwise the trimmed query goes on |
| AdminSqlite.GuardBlocksExactlyDangerous | src/routes/admin/sqlite.rs:40-49 | the console blocks exactly the dangerous queries, whatever their case |
| Headers.Response.ApplyDefaults | src/middleware/headers.rs:56-76 | the headers become the defaulted headers of the old ones |
| Headers.MissingTypeBecomesHtml | src/middleware/headers.rs:58-63 | a missing Content-Type becomes HTML, and Cache-Control is untouched |
| Headers.ExistingTypeKept | src/middleware/headers.rs:58-63 | an existing Content-Type is never overwritten |
| Headers.CacheControlRule | src/middleware/headers.rs:65-74 | a non-HTML Content-Type sets Cache-Control to max-age=600; an HTML one leaves it alone |
| Headers.OtherHeadersUnchanged | src/middleware/headers.rs:56-76 | no other header changes and none is removed |
| Headers.DefaultsIdempotent | src/middleware/headers.rs:56-76 | applying the middleware twice equals applying it once |
| Logger.MakeEntry | src/logger.rs:34-39 | the entry carries the level name and message; the module defaults to "app" |
| Logger.Reversed | src/logger.rs:55 | position i of the reversal is position \|s\|-1-i of the input |
| Logger.LogCollector.constructor | src/logger.rs:25-30 | an empty buffer with the given limit |
| Logger.LogCollector.AddEntry | src/logger.rs:33-49 | at or over the limit the oldest entry is dropped, then the new one is appended; the buffer stays within capacity |
| Logger.LogCollector.GetEntries | src/logger.rs:52-57 | the buffer newest first; the buffer is only read |
| Logger.LogCollector.Clear | src/logger.rs:60-63 | the buffer is empty |
| Logger.NewestComesFirst | src/logger.rs:48-56 | the entry just added is the first one read back |
| Logger.ReversedTwice | src/logger.rs:55 | reading newest first twice gives insertion order |
| Logger.PushedWithinCapacity | src/logger.rs:44-48 | a push keeps the buffer within its capacity |
| Logger.PushWindow | src/logger.rs:44-48 | one push moves the window of most recent entries along by one |
| Logger.KeepsMostRecent | src/logger.rs:33-49 | from empty, the buffer holds exactly the most recent entries, as many as the capacity allows, oldest first |
| WebSocket.Fanout | src/websocket.rs:82-86 | one delivery per subscriber, in order, each carrying the message |
| WebSocket.Channels.constructor | src/websocket.rs:67-71 | no channels |
| WebSocket.Channels.Subscribe | src/websocket.rs:73-79 | the client is appended to the channel's list, and the channel is created if needed |
| WebSocket.Channels.Broadcast | src/websocket.rs:81-87 | the message is delivered once to each subscriber in order; nothing for an unknown channel |
| WebSocket.SubscribeAppends | src/websocket.rs:73-79 | a new subscriber goes last in its channel; other channels are unchanged |
| WebSocket.UnknownChannelDeliversNothing | src/websocket.rs:82 | broadcasting on a channel nobody joined delivers nothing |
| WebSocket.BroadcastAfterSubscribe | src/websocket.rs:73-87 | after a subscription, a broadcast reaches the earlier subscribers and then the new client; other channels are unaffected |
| WebSocket.DeliveredOncePerSubscription | src/websocket.rs:83-85 | each client receives the message as many times as it subscribed |

## Left out

- SQL text, row mapping and the schema's constraints (keys, uniqueness) are not modelled; each table is an ordered list of rows.
- Errors that the source `.unwrap()`s panic. Only the two purges in plan application are modelled, as the `Panicked` outcome. The reads in scoreboard rendering are modelled as storage errors. The unwrapped INSERT statements of users and sessions are modelled as always succeeding once a connection is handed out.
- Utils.RenderScoreboard: the sums are unbounded integers; i64 overflow in the totals is not modelled. The HTML template rendering (src/utils.rs:54-64) is left out.
- JSON is not modelled as text. A score record is one of three shapes. An integer object with at least one form counts as a record that does not deserialise as strings, and the empty object `{}` deserialises as an empty string map.
- Map iteration order is unspecified in the source. The key loops choose keys nondeterministically, and their contracts hold for every order.
- AdminSqlite.Lower: lower-cases ASCII letters only. Unicode lower-casing beyond ASCII is not modelled. For example, U+212A KELVIN SIGN lower-cases to `k` in Unicode, so the source blocks `.bac\u{212A}up`, while the model lets that query through.
- Spawning the sqlite3 process and reporting its output (src/routes/admin/sqlite.rs:50-78) are not modelled, nor is the console page handler `get`.
- Headers: a header map holds one value per lower-case name. Multi-valued headers are not modelled. The wrapped handler is not modelled either: the middleware acts on the response it returns.
- Logger: timestamps, the mutex and shared ownership, and the forwarding logger that feeds the buffer are not modelled.
- WebSocket: the actor runtime is not modelled (session actors, the channels actor and its message handlers, asynchronous `do_send`). A broadcast returns the deliveries it would send.
- DbUserSessions.New: the random UUID is a parameter, so nothing rules out two sessions with the same id. `insert` accepts such a duplicate, because the table's key constraints are not part of this model. `verify` on that id then fails as the source's single-row lookup does.
- Loading the configuration from YAML (src/configurator/parser.rs:80-84) and its deserialisation are not modelled.
- Metrics (src/prometheus.rs), the route handlers, templates and `src/db/forms.rs` are not part of this model.
- Asynchronous execution and concurrent requests are not modelled; every operation runs to completion alone.
