# Verified models of the memos back end and its secret rotation

Dafny models of the algorithms and protocols this repository depends on most, with proofs of what
they are for. `dafny verify dfyconfig.toml` checks everything.

The project is one module per file, in six groups.

- **Cron** (`Calendar`, `Words`, `Strings`, `CronParser`, `CronText`, `CronSpec`, `CronDays`,
  `CronLines`, `CronLoop`). Crontab fields become bit sets; `SpecSchedule.Next` jumps from field to
  field over the Gregorian calendar; the event loop starts what is due. The jumping search is proved
  equal to the second-by-second search in every zone of whole minutes, with the exact condition
  elsewhere, and no due activation is lost by the loop's early `break`. The rule for a day
  restricted in both ways is that of the crontab utility in IEEE Std 1003.1-2017, with the code
  deciding what counts as a star.
- **Filters** (`FilterRewrite`, `Cel`, `FilterSchema`, `FilterParser`, `FilterRows`, `Like`,
  `TagLists`, `Sql`, `FilterFold`, `FilterRender`, `FilterArgs`, `FilterSearch`, `FilterMeaning`,
  `FilterBuild`, `FilterAccepts`, `FilterTruths`, `FilterQueries`, `FilterRelations`, `TagParser`). A checked CEL
  expression becomes a condition tree and then SQL text with arguments, folding constants on the
  way. Read back with NOT binding tighter than AND and AND tighter than OR, and with its
  placeholders looked up among all arguments of the query, the text has on every row the
  three-valued truth of the source.
- **Secret rotation** (`Rotation`, `RotationChecks`). Four steps over two stores, each repeatable
  and each able to stop before or after its effect; the database password is never lost, and exactly
  the rotations that are not stuck on an unreadable previous secret, or switched off, can be brought
  to their end.
- **Caches** (`Cache`, `UserStore`, `SettingStore`). A cache with expiry, a bound and removal of the
  oldest items, and the two stores that read and write through it.
- **Migrations** (`MigrationFiles`, `Migrator`). Versions as section 11 of Semantic Versioning 2.0.0
  orders them, file order, selection, and a crash anywhere around the commit and the version write.
- **Address bar** (`UrlFilters`). The printer and parser of the memo filters, with percent-encoding
  as in section 2.1 of RFC 3986.

Where the source updates state, the model is a class or a method with a loop, and its contract ties
it to a specification function whose properties the lemmas state. What the source takes from outside
(clocks, random passwords, logins that fail, map iteration order, driver errors, stops) is a
parameter or a nondeterministic choice.

## Where the code does less than it promises

Each of these is a theorem below, with the condition under which the promise holds.

- `UserStore.UserKeysCollide`, `UserStore.ReplacedIDsConfuseUsers`: users are cached under the text
  of the character their ID numbers, so all IDs without a character of their own share one key, and
  reading one such user can give another. For every other ID the read is exact.
- `SettingStore.SettingsStore.UpdateUserWebhook`: the list is changed in place before it is written;
  when the write fails, the cache differs from the database exactly when it holds the list and the
  change was one. `SettingStore.FailedWriteIsRead` is such a run.
- `FilterBuild.PositionalCounts`, `FilterBuild.DroppedArgumentShiftsPositions`: arguments of a
  folded-away subtree stay in the argument list, so in SQLite and MySQL the `?` of a statement match
  its arguments exactly when nothing with arguments was dropped. PostgreSQL's numbered placeholders
  are always right.
- `FilterBuild.ReadableExactlyWhenFilled`, `FilterBuild.EmptyListsByDialect`: an empty list that
  survives folding gives text that PostgreSQL and MySQL refuse. SQLite reads `creator_id IN ()` as
  false, but an empty list of tags is written as `()`, which no dialect reads.
- `FilterBuild.RewrittenOperandNeverCompiles`: the prepass turns a number after `&&` or `||` into
  `(n != 0)`, and a comparison that starts with a literal is always refused by the renderer.
- `Rotation.SetSecretReachesPending`, `Rotation.PreviousPortMisleads`: with a previous secret of
  another port, setSecret can report success and change the password of another server. testSecret
  catches it, which is why `Rotation.FinishMovesOnlyWhenSet` holds all the same.
- `Rotation.FinishesExactly`, `Rotation.BeginningGetsStuck`: a previous secret that is no JSON stops
  a rotation whose password is not set yet for good, since only a missing previous secret or key is
  caught. Some run finishes a rotation if and only if it is not in this state and rotation is not
  switched off.
- `MigrationFiles.PathOrderExactly`, `MigrationFiles.TenComesBeforeTwo`: file order is version order
  if and only if, in the first part in which two names differ, the longer number does not begin with
  a smaller one than the shorter; a prefix, which an underscore follows and which may have leading
  zeros, has to begin with a greater one or be no greater itself. The files of 0.10 come before
  those of 0.2. From 0.22 to below 0.100 only the prefixes in one directory matter
  (`Migrator.ModernFilesInVersionOrder`).
- `Migrator.StoppedMigrationRunsTwice`, `Migrator.StoppedInstallRunsEverything`: a stop between
  commit and version write makes the next start run the same files again, and after a fresh
  installation run every file on top of the schema that contains them all.
- `CronSpec.SearchIsRightExactly`, `CronSpec.ActivationMissed`: truncating the absolute time aligns
  the minute only in zones whose offset is a whole number of minutes. In any other zone a search
  that begins with this truncation enters the first open minute late, and is right if and only if
  the seconds it skips are not in the schedule or there is nothing to find. Asked on the hour for
  five past, it answers an hour late.
- `FilterSearch.ContainsExactly`, `FilterSearch.PercentFindsOthers`: searched texts are not escaped.
  A search in a text column is right on every row if and only if the text has no `%` and no `_` and,
  where LIKE escapes (everywhere but in SQLite), no backslash: `50%` finds every text with 50.
- `FilterSearch.TestExactly`, `FilterSearch.ListedExactly`, `FilterSearch.ElementExactly`,
  `FilterSearch.UnderscoreFindsOthers`: a text of characters that tags can hold is looked for
  rightly in tag lists if and only if it has no `_`: tags that start with `a_b` are looked for and
  the tag axb is found. A text with any other character is contained in no tag; it is looked for
  rightly if and only if no list is found, which scanning its pattern along the JSON text of a list
  decides (`TagLists.ScanDecides`): a comma finds the list of a and b.

## Model

| member | source | states |
|---|---|---|
| CronSpec.Next | memos/plugin/cron/spec.go:58-175 | For every schedule, time and zone of whole seconds, empty bit sets included, the five nested loops with one-shot resets and the repaired midnight end and give the result of the search; in zones of whole minutes, exactly what searching every second finds |
| CronSpec.SearchIsRightExactly | memos/plugin/cron/spec.go:56-57 | In any zone the search is the one second by second if and only if the zone is of whole minutes, or the minute is not the first field to fail, or no second below the misalignment is in the schedule, or nothing is to be found |
| CronSpec.RightExactlyInWholeMinutes | memos/plugin/cron/spec.go:151-154 | A zone is right for every schedule and every time if and only if its offset is a whole number of minutes |
| CronSpec.ActivationMissed | memos/plugin/cron/spec.go:148-160 | In every other zone, asked on any hour of a day but the last, the schedule at five past every hour is answered an hour late |
| CronSpec.SearchResultIsLater | memos/plugin/cron/spec.go:56-57 | Whatever the zone, a result is a matching time strictly after the one asked about, and never before the next activation |
| CronDays.EitherDay | memos/plugin/cron/spec.go:184-187 | In a zone of whole minutes, when neither day field has the star bit, a time is the answer if and only if it is the first whole second after the one asked about, through the last year, whose clock is in the schedule and whose day of the month or day of the week is in its bits |
| CronDays.BothDays | memos/plugin/cron/spec.go:184-187 | When one of them has it, the same with the day of the month and the day of the week both in their bits |
| CronDays.AnswerMeetsDays | memos/plugin/cron/spec.go:178-188 | In every zone, an answer has its clock in the schedule, and both days or one of them by the rule of the star |
| CronDays.FirstsAreMonthly | memos/plugin/cron/spec.go:178-188 | `0 0 0 1 * *`, asked at the first midnight of any month, answers with the first midnight of the next one |
| CronDays.MondaysToo | memos/plugin/cron/spec.go:178-188 | `0 0 0 1 * 1`, asked at the midnight of any Sunday, answers with the midnight after it, whatever its day of the month |
| CronSpec.PassStays | memos/plugin/cron/spec.go:97-172 | After one pass of any loop in any zone, the coarser fields still hold in the same year, or the pass wrapped and starts over |
| CronSpec.OffSearch | memos/plugin/cron/spec.go:97-172 | A clock misaligned by r seconds skips no open minute and enters the first one at its second r |
| CronSpec.NextActivationIsEarliest | memos/plugin/cron/spec.go:56-57 | The result is strictly later, matches all fields, and nothing in between matches; there is none exactly when no instant through the end of the fifth year after the upcoming second's matches |
| CronSpec.LinearFinds | memos/plugin/scheduler/parser.go:91-117 | The linear search returns a time that matches when all seconds before it do not |
| CronSpec.LinearIsFirst | memos/plugin/scheduler/parser.go:91-117 | What the linear search returns is the first match of its span, and None means there is none |
| CronSpec.StepTo | memos/plugin/cron/spec.go:97-172 | One pass of any of the five loops on an aligned clock skips no match, moves strictly on, and leaves every field holding or at its minimum |
| CronSpec.Skip | memos/plugin/cron/spec.go:97-172 | Skipping the rest of the span of a field that does not hold skips no match, and leaves every field holding or at its start |
| CronSpec.HourReset | memos/plugin/cron/spec.go:139-142 | Writing the date with zero minutes and seconds is the start of the hour |
| CronSpec.MonthStep | memos/plugin/cron/spec.go:104 | Adding a month moves the clock on by the length of the month it shows, from any time in it and in December too |
| CronSpec.DayStep | memos/plugin/cron/spec.go:122 | Adding a day keeps the time of day, over month and leap-year ends |
| CronSpec.MidnightIsNear | memos/plugin/cron/spec.go:123-131 | The repair after a day step goes to the hour of midnight, by whole hours and never more than twelve |
| CronSpec.MinuteReset | memos/plugin/cron/spec.go:151-154 | In a zone of whole minutes, truncating is the start of the minute |
| CronSpec.TruncateAligns | memos/plugin/cron/spec.go:151-154 | Truncating brings the second hand to 0 if and only if the zone offset is a whole number of minutes |
| Calendar.DateRoundTrip | memos/plugin/cron/spec.go:99-142 | The fields of a written date are those it was written with, for every year, month length and time of day |
| Calendar.DateOfFields | memos/plugin/cron/spec.go:99-142 | Writing the fields of an instant gives the instant |
| Calendar.KnownDates | memos/plugin/cron/spec.go:99-142 | The calendar on known dates: leap years, weekdays and the epoch |
| CronParser.GetBits | memos/plugin/cron/parser.go:346-359 | The shift form for step 1 and the loop form give the same set: from min to max in steps |
| CronParser.RangeBits | memos/plugin/cron/parser.go:254-320 | Whatever text is accepted, its bits are a progression within the bounds, not empty, plus the star bit exactly when written with a star and step 1 |
| CronParser.RangeText | memos/plugin/cron/parser.go:249-334 | Every text of the documented grammar, with digits or names of any letter case at its ends, is read as exactly the bits it means, or refused with the error it deserves |
| CronLines.Ranges | memos/plugin/cron/parser.go:249-320 | A star, a number and two numbers, each with and without a step, are read as every step-th number from the lower end to the upper one, a single number with a step up to the maximum; the errors come in the order of the code |
| CronLines.TooMany | memos/plugin/cron/parser.go:254-300 | A second hyphen after a number and a second slash are refused; after a star, an upper end is not read |
| CronLines.NamedRanges | memos/plugin/cron/spec.go:20-48 | Names of days and months, `mon-fri` and `DEC` among them, stand for their numbers |
| CronParser.GetField | memos/plugin/cron/parser.go:236-247 | A field is accepted exactly when all its ranges are, holds the union of their bits, and else has the error of the first refused one |
| CronParser.FieldBitsInBounds | memos/plugin/cron/parser.go:236-320 | No accepted field has a bit outside its bounds, apart from the star bit |
| CronParser.BoundsAreValid | memos/plugin/cron/spec.go:20-48 | The bounds of the six fields meet what the range lemmas ask for |
| CronParser.NormalizeFields | memos/plugin/cron/parser.go:160-215 | Given fields stand in order at the included places, defaults elsewhere; refused exactly for two optionals or a wrong count |
| CronLines.DocumentedParsers | memos/plugin/cron/parser.go:57-71 | The documented option sets: five fields on second zero, six of which the seconds may be left out, three of which the days of the week may be left out, and two optional fields refused |
| CronText.ParseFields | memos/plugin/cron/parser.go:117-152 | The texts are accepted if and only if their number fits the options and every piece of every field is accepted; the schedule then has for every field the bits of the text at its place, and otherwise the wrong number or the first refused field decides the error |
| CronLines.ParseStandard | memos/plugin/cron/parser.go:117-152 | Five texts are accepted exactly when the minutes, hours, days of the month, months and days of the week are, each in its place and with its own bounds, on second zero; any other number is refused |
| CronLines.ParseMonthly | memos/plugin/cron/parser.go:117-152 | `0 0 1 * *` is parsed to the schedule of the first midnight of every month |
| CronText.ScheduleInBounds | memos/plugin/cron/parser.go:131-138 | A parsed schedule has no bit outside the bounds of its six fields, apart from star bits |
| CronLoop.Every | memos/plugin/cron/constantdelay.go:14-21 | The delay is whole seconds, at least one, and the duration's own whole seconds when it has any |
| CronLoop.NextTimeIsLater | memos/plugin/cron/constantdelay.go:25-27 | The next activation of either kind of schedule, in any zone, is strictly after the time asked about and on a whole second |
| CronLoop.Cron.Schedule | memos/plugin/cron/cron.go:158-174 | The entry gets an ID never given before, and its activation at once if the loop is running; no other entry changes |
| CronLoop.Cron.RemoveEntry | memos/plugin/cron/cron.go:345-353 | Exactly the entry of the ID goes |
| CronLoop.Cron.StartLoop | memos/plugin/cron/cron.go:239-247 | On a stopped loop every entry gets `NextTime(schedule, now)` as activation and keeps ID, schedule and last activation; on a running loop nothing changes |
| CronLoop.Cron.WakeUp | memos/plugin/cron/cron.go:264-277 | The sorted loop with its early break starts every due entry once and no other, and updates exactly those |
| CronLoop.Cron.Sort | memos/plugin/cron/cron.go:250-261 | Sorting keeps all entries and puts those without an activation last; the timer is set to the earliest activation of all entries, or to none exactly when no entry has one |
| CronLoop.LaterNotDue | memos/plugin/cron/cron.go:269-272 | After an entry that is not due, none is: the early break skips nothing |
| CronLoop.StepKeepsValid | memos/plugin/cron/cron.go:249-304 | Every event keeps IDs below the counter and schedules valid |
| CronLoop.WakeIsExact | memos/plugin/cron/cron.go:264-277 | A wake starts exactly the entries whose activation is set and not later, records it, and leaves every activation unset or in the future |
| CronLoop.EntryIsScheduled | memos/plugin/cron/cron.go:239-247 | From the step that adds to a running loop, or that starts a stopped one, the entry waits for the next time of its schedule |
| CronLoop.NoActivationLost | memos/plugin/cron/cron.go:239-305 | Whatever adds, removals and snapshots come between, the first wake at or after an entry's activation starts it |
| CronLoop.AddedEntryRuns | memos/plugin/cron/cron.go:158-174 | Added to a stopped loop that is then started, an entry is started by the first wake at or after the next time of its schedule, whatever undisturbing events come between |
| CronLoop.LateEntryRuns | memos/plugin/cron/cron.go:278-286 | The same for an entry added to a running loop |
| CronLoop.FirstRun | memos/plugin/cron/cron.go:239-277 | Through the code itself: a scheduler is made, given one entry and started, and a wake starts the entry if and only if its activation is not later |
| CronLoop.RemovedNeverStarts | memos/plugin/cron/cron.go:295-299 | In no continuation of a run does a removed entry start |
| CronLoop.IdsAreNeverReused | memos/plugin/cron/cron.go:158-174 | Two additions in one run never get the same ID |
| FilterRewrite.RewriteNumericLogicalOperand | memos/plugin/filter/engine.go:129-191 | The scanner computes the rewritten text, from any quote state, escapes included |
| FilterRewrite.NormalizeLegacyFilter | memos/plugin/filter/engine.go:123-127 | Both operators are rewritten, one after the other |
| FilterRewrite.RewritingSettles | memos/plugin/filter/engine.go:158-183 | Afterwards no operator outside quotes is followed by blanks and a bare number |
| FilterRewrite.IdentityExactlyWhenSettled | memos/plugin/filter/engine.go:129-191 | The text is unchanged if and only if no operator outside quotes is followed by blanks and a sign or digit |
| FilterRewrite.QuotedIsKept | memos/plugin/filter/engine.go:138-156 | Every quoted literal is copied as it is, escapes included |
| FilterRewrite.OtherStaysSettled | memos/plugin/filter/engine.go:123-127 | Rewriting for one operator leaves the other settled |
| FilterRewrite.NormalizingIsIdempotent | memos/plugin/filter/engine.go:123-127 | The prepass settles both operators, and doing it again changes nothing |
| FilterRewrite.NormalizingKeeps | memos/plugin/filter/engine.go:123-127 | The prepass keeps a text if and only if both operators are settled in it, and always its literals |
| FilterRewrite.NumberIsRewritten | memos/plugin/filter/engine.go:158-183 | Outside quotes, the digits after an operator, blanks and an optional sign become a test against 0, and reading goes on after them |
| FilterRewrite.OtherIsKept | memos/plugin/filter/engine.go:158-183 | Anything else after an operator and blanks is kept |
| FilterRewrite.QuotedTextIsKept | memos/plugin/filter/engine.go:138-156 | Text between quotes is kept, and reading goes on after it |
| FilterSchema.MemoSchemaIsValid | memos/plugin/filter/schema.go:101-250 | The memo fields meet what the meaning theorems ask of a schema |
| FilterTruths.MemoFields | memos/plugin/filter/schema.go:101-250 | The columns that the fields of memos are kept in, and which are timestamps |
| FilterTruths.MemoFlags | memos/plugin/filter/schema.go:101-250 | The same for flags, tags and visibility, with their paths in the payload and the alias for tags |
| FilterParser.OnlyExistsIsAccepted | memos/plugin/filter/parser.go:422-516 | Of the comprehension macros only exists is accepted, and exactly for a list field and a test of the loop variable against a literal |
| FilterAccepts.AcceptsConnectives | memos/plugin/filter/parser.go:49-107 | A conjunction, a disjunction and a negation compile if and only if their operands do |
| FilterAccepts.AcceptsBare | memos/plugin/filter/parser.go:10-47 | Of literals, flags and numbers compile, and of fields exactly the flags in columns and inside JSON |
| FilterAccepts.FoldsValues | memos/plugin/filter/parser.go:235-415 | Literals, the clock, sums, differences, products and negated flags are folded to their value, with the wrap-around of 64 bits |
| FilterAccepts.AcceptsComparisons | memos/plugin/filter/render.go:149-311 | A field compared with an expression compiles if and only if the field takes the operator, the expression folds to a literal, and the literal is one the kind and type of the field is compared with in the dialect |
| FilterAccepts.AcceptsSizes | memos/plugin/filter/render.go:173-203 | The size of a field compared with a number compiles if and only if the field is a list |
| FilterAccepts.AcceptsLists | memos/plugin/filter/render.go:313-447 | A list of literals compiles if and only if all are numbers for a column of numbers, all texts for a column of texts or for the tags, or there are none, for any of these and for a column of times |
| FilterAccepts.AcceptsTexts | memos/plugin/filter/render.go:384-564 | A text among the elements, a search in a text and a test of the elements compile if and only if the field is a list, can be searched, or is a list and the test one of three |
| FilterAccepts.AcceptsNothingElse | memos/plugin/filter/parser.go:49-107 | No other call, no wrong number of operands, and no bare list compiles |
| FilterParser.CollectValues | memos/plugin/filter/parser.go:168-176 | The loop over a list literal gives the value of every element, or the error of the first that has none |
| FilterRender.CombineIsFold | memos/plugin/filter/render.go:580-608 | Combining rendered results folds constants as the condition tree does, for AND and OR |
| FilterRender.Renderer.Render | memos/plugin/filter/render.go:32-59 | The statement is the text of the folded tree with all arguments in order; empty when it always holds |
| FilterRender.Renderer.RenderCondition | memos/plugin/filter/render.go:61-87 | Any condition is written as its folded tree, with its arguments appended in order |
| FilterRender.Renderer.RenderLogicalCondition | memos/plugin/filter/render.go:89-107 | Both sides are rendered, left first, then folded |
| FilterRender.Renderer.RenderNotCondition | memos/plugin/filter/render.go:109-124 | A negation is written in parentheses, and constants are swapped |
| FilterRender.Renderer.RenderFieldPredicate | memos/plugin/filter/render.go:126-147 | Only boolean fields stand alone |
| FilterRender.Renderer.RenderComparison | memos/plugin/filter/render.go:149-171 | Only fields and sizes of lists can be compared |
| FilterRender.Renderer.RenderFunctionComparison | memos/plugin/filter/render.go:173-203 | The size of a list against a number |
| FilterRender.Renderer.RenderScalarComparison | memos/plugin/filter/render.go:205-244 | Null tests, and literals of the field's own type |
| FilterRender.Renderer.RenderBoolColumnComparison | memos/plugin/filter/render.go:246-256 | A boolean column against the dialect's boolean argument |
| FilterRender.Renderer.RenderJSONBoolComparison | memos/plugin/filter/render.go:258-311 | A flag inside JSON, per dialect |
| FilterRender.Renderer.RenderInCondition | memos/plugin/filter/render.go:313-333 | Tags and scalar fields have lists, nothing else |
| FilterRender.Renderer.RenderTagInList | memos/plugin/filter/render.go:335-382 | The loop over listed tags writes each tag's two tests joined by OR, with their arguments in order, or the first error |
| FilterRender.Renderer.RenderElementInCondition | memos/plugin/filter/render.go:384-415 | A literal among the elements of a list field |
| FilterRender.Renderer.RenderScalarInCondition | memos/plugin/filter/render.go:417-447 | The loop over a list writes one placeholder per value, in order, or the first error |
| FilterRender.Renderer.RenderContainsCondition | memos/plugin/filter/render.go:449-469 | A text search between two wildcards |
| FilterRender.Renderer.RenderListComprehension | memos/plugin/filter/render.go:471-564 | The test of exists, guarded against missing and empty lists |
| FilterRender.Renderer.AddArg | memos/plugin/filter/render.go:610-617 | Every argument is appended, and its placeholder names its place after the offset |
| Sql.ReadIsPrintInverse | memos/plugin/filter/render.go:109-124 | The printer's parentheses suffice: a printed tree is read back as itself, and not at all exactly when it holds an empty list that the dialect refuses |
| Sql.ReadPrinted | memos/plugin/filter/render.go:376-381 | The same wherever the text stands inside a longer one |
| Sql.ReadJoined | memos/plugin/filter/helpers.go:18-23 | Pieces joined by AND are read as the conjunction of what each stands for |
| FilterArgs.ArgumentPlaces | memos/plugin/filter/render.go:580-617 | Every argument that folding keeps is where its placeholder looks; the kept ones are all, in order, exactly when no argument-bearing subtree was dropped |
| FilterArgs.FoldIsStatic | memos/plugin/filter/render.go:580-608 | A condition is written as a constant exactly when its literals decide it |
| FilterArgs.FoldedShape | memos/plugin/filter/render.go:580-608 | Every folded tree can be printed, and its text read exactly when no empty list survived that the dialect refuses |
| FilterArgs.PlaceholdersRead | memos/plugin/filter/render.go:610-617 | Among any other arguments, every placeholder names the argument it was created for: always if numbered, and if nothing was dropped when positional |
| FilterArgs.ResolveTree | memos/plugin/filter/render.go:610-617 | With the arguments in order, the positional text reads as the numbered one |
| FilterMeaning.FoldingIsSound | memos/plugin/filter/render.go:109-124 | Folding AND, OR and NOT keeps the truth in three-valued logic |
| FilterMeaning.LoopMeaning | memos/plugin/filter/parser.go:461-516 | The loop CEL expands exists to computes whether some element passes the test |
| FilterMeaning.NumericMeaning | memos/plugin/filter/parser.go:365-415 | Folded arithmetic is the exact value when no step leaves 64 bits |
| FilterMeaning.ComprehensionMeaning | memos/plugin/filter/render.go:471-564 | An accepted exists and its guarded LIKE patterns have the same truth on every row, missing lists included |
| FilterMeaning.TagInMeaning | memos/plugin/filter/render.go:335-382 | A list of tags holds exactly of rows with one of them or a tag under one of them |
| FilterSearch.ContainsMeaning | memos/plugin/filter/render.go:449-469 | The search holds exactly of texts that contain the literal, up to the dialect's letter case, for every literal without a character the dialect's LIKE treats specially |
| FilterSearch.ContainsExactly | memos/plugin/filter/render.go:449-469 | For every literal, the search is right on all rows if and only if the literal has no `%`, no `_` and, where LIKE escapes, no backslash |
| FilterSearch.FoundWrongly | memos/plugin/filter/render.go:449-469 | Every other literal finds a text that does not contain it, namely the literal with its special characters filled in |
| FilterSearch.PercentFindsOthers | memos/plugin/filter/render.go:449-469 | Concrete texts: 50 is found by `50%`, and where LIKE escapes a text with a backslash is not found by itself |
| FilterSearch.TestExactly | memos/plugin/filter/render.go:471-564 | For every argument of startsWith, endsWith and contains, the test is right on all lists of tags if and only if the argument is made of tag characters other than `_`, or has another character and no pattern of the test matches the JSON text of any list |
| FilterSearch.ListedExactly | memos/plugin/filter/render.go:335-382 | The same for every tag listed in `tag in [...]`, in each dialect, the empty list of stored tags included |
| FilterSearch.ElementExactly | memos/plugin/filter/render.go:384-415 | The same for a literal looked for among the elements in SQLite; in the other dialects it is right for every literal |
| FilterSearch.ContainsWithWildcards | memos/plugin/filter/render.go:449-469 | With `_` in the literal, the search holds exactly of texts that contain it with any character at each `_` |
| FilterSearch.TestWithWildcards | memos/plugin/filter/render.go:471-564 | With `_` in its argument, each test of exists holds exactly of lists whose JSON text contains the pattern with any character at each `_` |
| FilterSearch.UnderscoreFindsOthers | memos/plugin/filter/render.go:485-534 | Concrete rows found wrongly: the tag axb by a prefix test for `a_b`, the tag a by a search for `a_`, the tags a and b by a search for a comma |
| FilterMeaning.FilterKeepsMeaning | memos/plugin/filter/parser.go:10-107 | Translating, folding and rendering keep the three-valued truth of the source on every row, in every dialect, for every searched text for which the search is right |
| FilterTruths.NumberTests | memos/plugin/filter/parser.go:284-303 | A field that holds the number x, compared with the literal k by each of the six operators, is true exactly when x < k, x > k, x <= k, x >= k, x == k or x != k |
| FilterTruths.TextTests | memos/plugin/filter/parser.go:284-303 | The same for texts, in the order of their first different character |
| FilterTruths.FlagTests | memos/plugin/filter/parser.go:284-303 | The same for flags and the two equalities |
| FilterTruths.MissingTests | memos/plugin/filter/render.go:205-244 | Only a comparison with null decides anything of a missing value |
| FilterTruths.MixedTests | memos/plugin/filter/render.go:205-244 | A number and a text are unequal and in no order |
| FilterTruths.Connected | memos/plugin/filter/parser.go:14-56 | When a conjunction, a disjunction and a negation are true, and when false, in the truth of their operands |
| FilterTruths.ArithmeticValues | memos/plugin/filter/parser.go:365-415 | Sums, differences and products of literals are those of their values |
| FilterTruths.ListTests | memos/plugin/filter/render.go:417-447 | `in` a list of numbers or texts holds exactly of a value that is one of them |
| FilterTruths.ContainsTest | memos/plugin/filter/render.go:449-469 | `contains` holds exactly of a text some part of which is the literal, up to letter case |
| FilterTruths.TagTests | memos/plugin/filter/render.go:335-415 | A tag is in the list when an element equals it; it is among listed tags when it is one of them or lies under one |
| FilterTruths.ExistsTests | memos/plugin/filter/parser.go:422-516 | `exists` with startsWith, endsWith or contains holds exactly of lists some element of which begins with, ends with or has the literal as a part |
| FilterTruths.TextTruth | memos/plugin/filter/render.go:89-124 | `a OR b AND NOT c` as text: NOT binds tightest and OR loosest, in three-valued logic |
| FilterBuild.CompileToStatement | memos/plugin/filter/engine.go:71-77 | A statement exactly when both phases accept, with the text and the arguments of the folded condition |
| FilterTruths.CompileComparison | memos/plugin/filter/engine.go:71-77 | A field compared with a literal compiles exactly when the field takes the operator, and the statement, read back with its one argument, selects exactly the rows whose value is less, greater, equal and so on, in every dialect |
| FilterTruths.CreatedBefore | memos/plugin/filter/parser.go:291-303 | `created_ts < 100` over the memo fields selects the memo of 50 and not the memo of 150, in every dialect |
| FilterTruths.ComparisonText | memos/plugin/filter/render.go:205-244 | The text of a comparison is the column of the field, as seconds where MySQL keeps a timestamp, the operator, and the first placeholder of the dialect |
| FilterTruths.FlagText | memos/plugin/filter/render.go:126-147 | The text of a bare flag is its column or its path, without arguments |
| FilterBuild.StatementMeansFilter | memos/plugin/filter/engine.go:71-96 | Read with its arguments among others, a statement has the truth of its source on every row; one left out holds of every row |
| FilterBuild.PostgresFilterMeaning | memos/plugin/filter/render.go:610-617 | In PostgreSQL at every offset, whatever was folded away |
| FilterBuild.ReadableExactlyWhenFilled | memos/plugin/filter/render.go:417-447 | In every dialect the text can be read if and only if no empty list survived folding that the dialect refuses: none at all outside SQLite, none of tags in SQLite |
| FilterBuild.EmptyListsByDialect | memos/plugin/filter/render.go:417-447 | `creator_id in []` is false, and its negation true, in SQLite and unreadable elsewhere; `tag in []` is unreadable everywhere |
| FilterBuild.PositionalCounts | memos/plugin/filter/render.go:580-617 | The `?` of a statement are at most its arguments, and as many if and only if no argument-bearing subtree was dropped |
| FilterBuild.DroppedArgumentShiftsPositions | memos/plugin/filter/render.go:580-617 | A concrete filter whose dropped argument is read by the next `?` of the query |
| FilterBuild.RewrittenOperandNeverCompiles | memos/plugin/filter/engine.go:176-179 | A filter with the prepass's own test anywhere under its logical operators is refused, whatever stands beside it |
| FilterBuild.QueryBuilder.AppendFilter | memos/plugin/filter/helpers.go:10-23 | One filter is appended with its arguments, or left out with them when it folds to true; what the clause means grows by exactly this filter if it is sound, and in a positional dialect marks and arguments keep their difference if and only if it folds to true or nothing was dropped from it |
| FilterBuild.QueryBuilder.AppendConditions | memos/plugin/filter/helpers.go:9-25 | All filters in order, up to the first that does not compile, with the same for all of them |
| FilterBuild.QueryBuilder.AppendList | memos/store/db/postgres/memo.go:63-70 | One placeholder and one argument per listed value, nothing for an empty list |
| FilterBuild.QueryBuilder.ListMemos | memos/store/db/postgres/memo.go:51-99 | For any filters followed by any find fields, the clause asks for exactly those, and means it if the filters are sound; in the positional form of SQLite its marks and arguments agree in number if and only if every filter folds to true or had nothing dropped |
| FilterBuild.QueryBuilder.AppendColumns | memos/store/db/sqlite/memo.go:63-106 | The column conditions in order, each with its arguments at their places, as many as its marks |
| FilterBuild.WhereMeansWanted | memos/store/db/postgres/memo.go:51-99 | The joined WHERE clause, read with all collected arguments, selects on every row exactly what was asked |
| FilterQueries.FindMemos | memos/store/db/postgres/memo.go:51-99 | Read back with its arguments, the clause holds exactly of the rows that satisfy every filter and whose id, uid, creator, status and visibility are those asked for, field by field, and that are no comments when those are excluded |
| FilterQueries.WantedIsSelected | memos/store/db/sqlite/memo.go:63-106 | The clauses of a query hold together exactly of those rows |
| FilterRelations.ListMemoRelations | memos/store/db/postgres/memo_relation.go:41-80 | Whatever columns are asked for, the joined WHERE text, read back with its arguments, selects exactly the relations whose two memos and type are those asked for, field by field, and both of whose memos satisfy the filter |
| FilterRelations.TwiceRendered | memos/store/db/postgres/memo_relation.go:52-79 | The filter rendered twice at two offsets reads its own arguments both times |
| Like.MatchesInfix | memos/plugin/filter/render.go:538-547 | A pattern between two percent signs matches exactly the texts in which it occurs |
| Like.SearchIsExact | memos/plugin/filter/render.go:449-469 | A pattern around a text matches exactly the texts that contain it, for all of them, if and only if the text has no special character |
| TagLists.ScanDecides | memos/plugin/filter/render.go:471-564 | Scanning a pattern along the shape of the JSON text decides whether it matches the text of some list of tags, wildcards and escapes included |
| TagLists.LeadsIsList | memos/plugin/filter/render.go:538-547 | The texts that the scan reads to their end are texts of lists of tags |
| TagLists.ListLeads | memos/plugin/filter/render.go:538-547 | The text of every list that is not empty is read to its end |
| Like.WholeTagPattern | memos/plugin/filter/render.go:384-415 | The quoted pattern matches the JSON text exactly when some tag is the argument, up to letter case |
| Like.TagPrefixPattern | memos/plugin/filter/render.go:495-516 | The pattern after an opening quote matches exactly when some tag starts with it |
| Like.TagSuffixPattern | memos/plugin/filter/render.go:519-525 | The pattern before a closing quote matches exactly when some tag ends with it |
| Like.TagInfixPattern | memos/plugin/filter/render.go:528-534 | The pattern matches exactly when some tag contains it |
| Like.TrueCasesMatch | memos/plugin/filter/render.go:495-534 | Every true case matches, for every argument without an escaping backslash, `%` and `_` in it included |
| TagParser.Parse | memos/plugin/markdown/parser/tag.go:67-124 | The tag is the longest run of tag characters after the `#`, cut at 100; none exactly when none follows |
| TagParser.MunchIsUnique | memos/plugin/markdown/parser/tag.go:88-110 | There is only one such run |
| TagParser.ParsedTagsFitPatterns | memos/plugin/markdown/parser/tag.go:33-59 | Whatever Unicode says beyond ASCII, a parsed tag holds nothing that separates tags in JSON or that LIKE or JSON escape |
| TagParser.TagCharacters | memos/plugin/markdown/parser/tag.go:33-59 | The tag characters of ASCII one by one; beyond it, letters, numbers and symbols |
| Rotation.World.LambdaHandler | src/lambda_function.py:13-84 | The checks in order, the early return for a current version, and the effect and outcome of the step |
| RotationChecks.EntryChecks | src/lambda_function.py:45-84 | From any state, for any event: what is raised, or that the call is done, for missing inputs, rotation switched off, an unknown version, a version that is current, one that is not pending, and an unknown step; the state stays in all of them |
| RotationChecks.ChangesOnlyPending | src/lambda_function.py:53-84 | From any state, a call changes something only if rotation is on and the version of its token exists, is pending and is not current; versions change in the first and last step only, the database in the second only |
| RotationChecks.SupersededIsRefused | src/lambda_function.py:65-67 | Finishing with the ID of the previous version is refused and leaves the stages where they are |
| RotationChecks.InputsArePrintable | src/lambda_function.py:45-51 | Inputs are accepted exactly when they are printable |
| Rotation.World.CreateSecret | src/lambda_function.py:87-118 | A missing pending value is created from the current secret, an existing one kept |
| RotationChecks.CreateFills | src/lambda_function.py:87-118 | The pending version gets the fields of the current secret with the new password; no stage, no other value and no account changes |
| Rotation.World.SetSecret | src/lambda_function.py:121-204 | The three logins in order, every check and error, and exactly one changed password |
| RotationChecks.SetChangesOwnAccount | src/lambda_function.py:143-204 | What setSecret changes is one account: that of the pending secret, whose user and host are those of the current one, over a login by the current or a previous secret |
| RotationChecks.SetStops | src/lambda_function.py:121-204 | Stopped before its effect, setSecret has none; success without a change means that the pending secret already works |
| RotationChecks.MismatchIsRefused | src/lambda_function.py:158-168 | A pending secret of another user or host is refused without any change, unless it already works |
| Rotation.World.TestSecret | src/lambda_function.py:207-244 | Success only with a login by the pending secret, and no effect |
| RotationChecks.TestNeedsLogin | src/lambda_function.py:207-244 | testSecret succeeds if and only if the pending secret is usable and the database takes its user name and password on its host and port |
| Rotation.World.FinishSecret | src/lambda_function.py:247-274 | The current stage moves to the token from the version that has it, for any iteration order |
| RotationChecks.FinishMoves | src/lambda_function.py:247-274 | Afterwards exactly the token is current and exactly the version it was taken from is previous; values, accounts and other stages stay |
| Rotation.World.GetSecretDict | src/lambda_function.py:391-433 | The secret of a stage or a version, or the error for a missing, malformed or incomplete one |
| RotationChecks.SecretsAccepted | src/lambda_function.py:391-433 | Exactly the secrets of a known engine with host, user name and password are accepted, and what is raised for the others |
| Rotation.RunsAreSafe | src/lambda_function.py:53-84 | Over every run of rotations, steps repeated and stopped anywhere: one current version, and the database has its password or the pending one, which differs in nothing else |
| Rotation.PasswordIsNeverLost | src/lambda_function.py:143-204 | From any state between rotations, after any run, exactly one version is current and the database takes its password or the pending one |
| Rotation.FinishMovesOnlyWhenSet | src/lambda_function.py:260-273 | Whenever the current stage moves, the database already has the password of the version it moves to |
| Rotation.CreateKeepsFirst | src/lambda_function.py:106-118 | A repeated createSecret keeps the first pending password, which is all that differs from the current secret |
| Rotation.SetSecretReachesPending | src/lambda_function.py:143-204 | With working logins setSecret succeeds if and only if the database has the pending, current or previous password of the same user and host, and then sets the pending one if and only if a previous login was to the same port |
| Rotation.SetAgainKeeps | src/lambda_function.py:150-155 | Repeated, setSecret leaves the pending password in place, and changes nothing when its first login gets through |
| Rotation.FinishedRotationIsFinal | src/lambda_function.py:62-64 | Once a rotation is finished, calling its steps again in any order and number changes nothing |
| Rotation.ResumedRotationCompletes | src/lambda_function.py:69-84 | Wherever a rotation was left, the four steps with working logins complete it |
| Rotation.PreviousPortMisleads | src/lambda_function.py:170-204 | A concrete state where setSecret succeeds and changes another server |
| Rotation.BadPreviousBlocksForGood | src/lambda_function.py:143-146 | A rotation that is switched off, or whose pending password is not set while the previous secret is no JSON, never finishes, whatever is called |
| Rotation.FinishesExactly | src/lambda_function.py:53-84 | From any safe state, some run finishes the rotation under way if and only if it is not in such a state |
| Rotation.BeginningGetsStuck | src/lambda_function.py:143-146 | A state between rotations, with a usable current secret, in which beginning a rotation is enough |
| Cache.Cache.SetWithTTL | memos/store/cache/cache.go:98-120 | The item is stored and counted once, and when the bound is exceeded a fifth of it goes, or one below ten, the oldest first; the bound then holds |
| Cache.Cache.Get | memos/store/cache/cache.go:123-147 | Only the last value set, neither expired nor deleted, is returned; an expired one is dropped and uncounted |
| Cache.Cache.Delete | memos/store/cache/cache.go:150-160 | Exactly this key goes, counted only if it was there |
| Cache.Cache.Clear | memos/store/cache/cache.go:163-179 | Nothing is left and the count is zero |
| Cache.Cache.Size | memos/store/cache/cache.go:182-184 | The count is the number of stored keys and within a positive bound |
| Cache.Cache.Cleanup | memos/store/cache/cache.go:218-250 | Exactly the expired items go, for any iteration order |
| Cache.Cache.CleanupOldest | memos/store/cache/cache.go:253-313 | A fifth of the bound when that is two or more, else one, goes; every survivor expires no earlier than every removed item |
| Cache.Cache.FindOldest | memos/store/cache/cache.go:264-296 | The selection loop ends with the items that expire first, for any iteration order |
| UserStore.UserKeysCollide | memos/store/user.go:98 | Two IDs share a cache key if and only if they are equal or both have no character of their own |
| UserStore.Users.GetUser | memos/store/user.go:124-148 | Reading by ID gives the stored user, whatever was cached, expired or evicted, for every ID with its own key; a driver error shows only on a miss |
| UserStore.Users.UpdateUser | memos/store/user.go:102-110 | Database and cache change together, or neither |
| UserStore.Users.ListUsers | memos/store/user.go:112-122 | Listing keeps the cache coherent |
| UserStore.Users.DeleteUser | memos/store/user.go:150-157 | The user goes from database and cache together |
| UserStore.ReplacedIDsConfuseUsers | memos/store/user.go:124-134 | For any two IDs without their own key there is a run that asks for one user and gets the other |
| SettingStore.SettingKeyIsInjective | memos/store/cache.go:7-9 | No two settings share a cache key, negative user IDs included |
| SettingStore.KnownKeys | memos/store/cache.go:7-9 | The key of every kind of setting, for negative user IDs too, as text |
| SettingStore.SettingsStore.UpsertUserSetting | memos/store/user_setting.go:37-56 | Database and cache change together, or neither |
| SettingStore.SettingsStore.GetUserSetting | memos/store/user_setting.go:79-103 | Reading a user's setting gives the stored one, whatever was cached, expired or evicted |
| SettingStore.SettingsStore.RemoveUserRefreshToken | memos/store/user_setting.go:162-185 | Exactly the tokens of this ID go, or nothing changes |
| SettingStore.SettingsStore.GetUserRefreshTokenByID | memos/store/user_setting.go:188-199 | The first stored token of this ID, or none, where the tokens stored are the list of the setting, all of it |
| SettingStore.SettingsStore.AddUserWebhook | memos/store/user_setting.go:307-341 | The webhook takes the place of those with its ID, or comes last |
| SettingStore.SettingsStore.UpdateUserWebhook | memos/store/user_setting.go:371-395 | The first webhook of the ID is changed; after a failed write the cache is stale if and only if it holds the list and the change was one, and with room in the cache if and only if the list was read and the change was one |
| SettingStore.FailedWriteIsRead | memos/store/user_setting.go:371-395 | A run in which a failed change of a webhook is read back from the cache while the database has the old one |
| SettingStore.FindAfterUpsert | memos/store/user_setting.go:313-328 | An added webhook is found, and every other one as before |
| SettingStore.FindAfterHookRemoval | memos/store/user_setting.go:350-355 | A removed webhook is not found, and every other one as before |
| SettingStore.FindAfterChange | memos/store/user_setting.go:371-395 | A changed webhook is found as changed, and every other one as before |
| SettingStore.FindAfterRemoval | memos/store/user_setting.go:168-173 | A removed token is not found, and every other one as before |
| SettingStore.SettingsStore.PerformAll | memos/store/user_setting.go:37-395 | Over any sequence of reads, writes, removals, webhook changes whose write succeeds and cleanups, whatever else the driver refuses, the cache stays coherent and the database is what the successful steps make of it in order |
| SettingStore.SettingsStore.AfterRemoval | memos/store/user_setting.go:162-199 | After a refresh token was removed, no run of such steps that does not add it again ends with the token being returned |
| SettingStore.SettingsStore.AfterAdding | memos/store/user_setting.go:137-199 | After a refresh token of an unused ID was added, every run of steps that neither removes that ID nor writes the tokens of this user as a whole ends with the token being returned |
| SettingStore.SettingsStore.AfterAddingHook | memos/store/user_setting.go:280-341 | The same for webhooks, whether the ID was in use or not |
| SettingStore.SettingsStore.AfterRemovingHook | memos/store/user_setting.go:344-368 | After a webhook was removed, no run that does not touch its ID ends with a webhook of it |
| SettingStore.AddedTokenStays | memos/store/user_setting.go:140-160 | On the database alone, over any such run of steps of which any may fail, an added token stays the one found for its ID |
| SettingStore.EffectKeepsToken | memos/store/user_setting.go:140-185 | Adding and removing a token leave every token of another ID as findable as before |
| SettingStore.FindTokenIsFirst | memos/store/user_setting.go:188-199 | The token found is the first of the list with the ID, and none only if no token has it |
| SettingStore.RemovedTokenStaysAway | memos/store/user_setting.go:162-199 | A removed token is not found again after any further operations until it is added again |
| MigrationFiles.PathGivesVersion | memos/store/migrator.go:319-337 | A well-named file leads to the version of its directory with its prefix plus one as patch |
| MigrationFiles.FirstOfRelease | memos/store/migrator.go:319-337 | The file 0.22/00 leads to 0.22.1, after 0.22.0 and 0.9.30 and before 1.0.0 |
| MigrationFiles.MinorOfRelease | memos/internal/version/version.go:21-28 | The directory of a release is named by its first two parts |
| MigrationFiles.PathOrderIsVersionOrder | memos/store/migrator.go:149 | With names of equal width, the order of paths is the order of versions, then of the rest of the names, both ways |
| MigrationFiles.PathOrderExactly | memos/store/migrator.go:149 | For names of any width, two files are in version order if and only if in the first part in which they differ the longer number does not begin with a smaller one than the shorter, or, for prefixes, begins with a greater one or is itself no greater |
| Migrator.SortedFilesInVersionOrder | memos/store/migrator.go:145-149 | Sorted files are in version order if and only if the names of any two agree in the first part in which they differ |
| MigrationFiles.TenComesBeforeTwo | memos/store/migrator.go:149 | Files of 0.10 come before those of 0.2 |
| Migrator.CurrentVersionIsHighest | memos/store/migrator.go:302-314 | When the prefixes of its directory agree, the version a release asks for is the highest there, or patch 0 of an empty directory |
| Migrator.ModernFilesInVersionOrder | memos/store/migrator.go:144-149 | From 0.22 on and below 0.100, the files that run are in version order as soon as the prefixes of each directory agree |
| Migrator.SelectedAre | memos/store/migrator.go:76-82 | Exactly the files beyond the recorded version and up to the target run |
| Migrator.SelectedOnce | memos/store/migrator.go:170-198 | Each runs once, and in version order when the files are |
| Migrator.MigratingInTwoSteps | memos/store/migrator.go:144-198 | Migrating to a middle version and then to the target runs the same files in the same order as at once |
| Migrator.SteppingThroughReleases | memos/store/migrator.go:104-140 | Upgrading through an intermediate release leaves exactly what upgrading directly does |
| Migrator.SteppingThroughModernReleases | memos/store/migrator.go:104-140 | The same without asking for version order, from 0.22 on and below 0.100, for well-named files whose prefixes agree |
| Migrator.ReleasesSelectAlike | memos/store/migrator.go:144-198 | Releases of one history select the same files up to the lower of their versions |
| Migrator.Database.Migrate | memos/store/migrator.go:104-140 | Downgrade check, application and outcome, for a stop anywhere |
| Migrator.Database.PreMigrate | memos/store/migrator.go:215-256 | The latest schema and its version for a new database, and the minimum version for an old one |
| Migrator.Database.ApplyMigrations | memos/store/migrator.go:144-212 | The loop commits exactly the selected files, or nothing, and only then writes the version |
| Migrator.MigrateIsSound | memos/store/migrator.go:104-140 | Wherever it stops, a recorded version implies that every migration up to it is in effect and never decreases; a downgrade is refused exactly when it is one, and changes nothing |
| Migrator.RunsAreSound | memos/store/migrator.go:200-211 | The same over every run of any releases of one history |
| Migrator.MigrateAll | memos/store/migrator.go:104-140 | Releases started one after the other leave the state that the run laws speak of |
| Migrator.SecondMigrateChangesNothing | memos/store/migrator.go:125-130 | Migrating again with the same release runs nothing |
| Migrator.MigrateRunsOnlyNew | memos/store/migrator.go:200-211 | While nothing stops between commit and version write, no file runs that is already in effect |
| Migrator.EveryMigrationOnce | memos/store/migrator.go:104-212 | From an empty database, over any run of releases stopped anywhere but between commit and version write, every migration takes effect once and none beyond the recorded version |
| Migrator.StoppedMigrationRunsTwice | memos/store/migrator.go:200-211 | Stopped there, a migration runs its files again the next time |
| Migrator.StoppedInstallRunsEverything | memos/store/migrator.go:237-249 | Stopped there during installation, every migration runs on top of the schema that contains it |
| UrlFilters.FiltersRoundTrip | memos/web/src/contexts/MemoFilterContext.tsx:22-39 | Parsing what was printed gives the filters back, for any list of known factors and any values |
| UrlFilters.DecodesEncoded | memos/web/src/contexts/MemoFilterContext.tsx:37-39 | Percent-decoding undoes percent-encoding, over UTF-8 bytes |
| UrlFilters.UnescapedCharacters | memos/web/src/contexts/MemoFilterContext.tsx:37-39 | The characters that are not escaped, one by one |
| UrlFilters.KnownEncodings | memos/web/src/contexts/MemoFilterContext.tsx:37-39 | Characters of one to four bytes as text |
| UrlFilters.OnlyItsOwnBytes | memos/web/src/contexts/MemoFilterContext.tsx:22-35 | Bytes are read as a character if and only if they are its own encoding: nothing overlong, no surrogate, nothing cut |
| UrlFilters.KnownText | memos/web/src/contexts/MemoFilterContext.tsx:37-39 | Two filters as text: a colon between factor and value, a comma between filters |
| UrlFilters.KnownQueries | memos/web/src/contexts/MemoFilterContext.tsx:22-35 | A filter without a colon has the empty value; malformed text leaves no filters |
| UrlFilters.KnownFactors | memos/web/src/contexts/MemoFilterContext.tsx:5-13 | The names of the factors |
| UrlFilters.FilterKeyIsInjective | memos/web/src/contexts/MemoFilterContext.tsx:20 | The key of a filter identifies it |

## Left out

- CronSpec.Next: zones have fixed offsets of whole seconds; daylight saving and named zones depend on zone data outside the repository. The zero time is None, and years are unbounded.
- CronText.ParseFields: starts from the fields; the time-zone prefix, descriptors and the splitting on white space are not modelled.
- CronParser.RangeBits: letter case of month and day names is folded for ASCII only.
- CronLoop.Cron.WakeUp: entries are values in a sequence, not shared pointers; jobs, timers, goroutines and the logger are not modelled, and the event loop is a sequence of events.
- FilterMeaning.FilterKeepsMeaning: starts from the checked expression; parsing and type checking of CEL are not part of this model. Excluded by its conditions, each readable off the filter or the row: empty lists that the dialect refuses, overflow of 64 bits, exactly the searched texts for which the search is wrong, and comparisons of a missing JSON flag in SQLite. Letter case is taken to concern tag characters only: no character that tags cannot hold is folded with another.
- FilterParser.OnlyExistsIsAccepted: covers the five macros as CEL expands them; the one shape that a hand-built tree could pass besides them is not reachable from filter text.
- FilterBuild.StatementMeansFilter: the SQL of a single comparison is one token with a small explicit meaning (column, JSON path, LIKE over the JSON text of a list); its characters, quoting of names and the engines' collations beyond letter case are not modelled. Equality, membership in a list of values and order are taken as exact in every dialect: that MySQL's default collation ignores letter case there, so that `visibility == "public"` finds PUBLIC, is not modelled. Floating-point literals and attachments are left out, and the clock is read once per compilation.
- FilterBuild.QueryBuilder.ListMemos: ordering, limits and the joins of the query are not modelled, nor that MySQL puts the condition on comments after the grouping.
- FilterRelations.ListMemoRelations: PostgreSQL only, where the filter is rendered at two offsets; both ends of a relation are taken to be stored memos.
- Like.TagInfixPattern: arguments of tag characters without the one-character wildcard; all others are the subject of FilterSearch.
- TagParser.Parse: works on decoded characters and undecodable bytes, not on byte positions; Unicode categories beyond ASCII are a parameter.
- Rotation.World.SetSecret: SSL fallback, connection parameters other than host and port, and SQL quoting are not modelled; ports are compared as text, and secrets hold strings.
- Rotation.World.GetSecretDict: a secret that is JSON but neither an object nor a list nor a text, such as a number, counts as unreadable, since its failure is not caught either; so does a list or text that has engine in it.
- Cache.Cache.SetWithTTL: sequential runs; eviction callbacks, size estimates and concurrent interleavings are left out.
- UserStore.Users.GetUser: cached users are values, so a caller that changes a returned user in place is not modelled.
- SettingStore.SettingsStore.UpdateUserWebhook: the last-used time of access tokens is updated in the same way and is not repeated; adding and removing access tokens is the same code as for refresh tokens.
- SettingStore.SettingsStore.PerformAll: webhook changes whose write fails are not among its steps; UpdateUserWebhook says what they leave behind.
- SettingStore.SettingsStore.GetUserSetting: encoding settings as JSON and decoding them is taken as an inverse pair.
- MigrationFiles.ScriptVersion: the patch is the prefix plus one over unbounded integers; the source adds in 64 bits and wraps at the greatest prefix it can read.
- MigrationFiles.PathGivesVersion: directory names of the form major.minor; pre-releases, other forms and files whose name ends in LATEST.sql are left out.
- Migrator.Database.ApplyMigrations: SQL errors are stops before the commit; demo seeding is left out.
- UrlFilters.FiltersRoundTrip: values are well-formed text, without lone surrogates.
- The scheduler package has its own day rule and limit; only its linear search is used, with the cron package's rule.
- HTTP, RSS, files, e-mail, sign-in, webhooks' delivery, the user interface and the other drivers are plumbing around these cores.
