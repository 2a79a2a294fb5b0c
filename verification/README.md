# Supporter management: a verified model

This project models the in-memory logic of a Next.js + Supabase application
for a volunteer-support office. The office keeps supporters (volunteers), the
service users they visit, and the activities that pair the two on a date and
time slot. The model covers:

- the matching search: supporters with status 登録完了 or 面接済み who have every
  requested skill and time slot, each annotated with its completed-activity count;
- the list pages: activities with id, date-range and name search filters;
  supporters with store filters, a skill-name post-filter and de-duplication
  by id through a `Map`;
- the filter panels of the activity, supporter, service-user and matching
  pages, which turn their state into URL parameters;
- the URL helpers: parameters that are empty, whitespace-only or `all` are
  dropped, and `application/x-www-form-urlencoded` serialisation (section 5.2
  of the WHATWG URL Standard) is modelled with UTF-8 and a proved round trip;
- the narrowing of raw search parameters to strings;
- the Zod form schemas, as predicates together with the issues they report;
- the Sunday-first month grid of the activity calendar, which is built over a
  Gregorian date type with day numbers and weekdays;
- the grouping of activities by `yyyy-MM-dd` key, and the calendar's
  month-navigation handlers;
- the forms: supporter create/edit with delete-then-insert join rows, and
  activity completion with its appended report;
- the skills and activity-status settings pages, whose list state is proved
  to stay in step with the store table after every accepted write;
- the navigation's active-item rule;
- the middleware's redirect decision and its path matcher.

Each source file with state is a `class` whose methods say exactly what they
change. The loops of the source (`forEach` bucketing, the `seen` set, the
`Map` de-duplication, the count annotation, the URL builder) are methods with
loop invariants, specified by functions whose properties are proved as lemmas.
The store is an in-memory table or sequence. A failed call is a boolean
parameter. Server-side filters and `order` are filters and a proved sort over
that table.

Three behaviours of the code a reader may not expect, which the model keeps:

- With neither `skills` nor `time_slots` set, the matching search returns
  every eligible supporter rather than none. Only the page hides them behind
  its prompt (`MatchingPage.NoParametersKeepsAll`, `MatchingPage.NoFiltersPage`).
- The dashboard entry of the navigation is active for `/` and also for any
  path starting with `//`, because the test is `startsWith('/' + '/')`
  (`Navigation.RootActive`).
- A supporter name search for the word `all` lights the panel's filter
  indicator but is dropped from the URL (`SupporterFilters.SearchAllDropped`).

## Model

| member | source | states |
|---|---|---|
| ArrayUtils.IsNotNull | lib/utils/array-utils.ts:9-11 | true exactly when the value is neither `null` nor `undefined` |
| ArrayUtils.FilterNotNull | lib/utils/array-utils.ts:29 | the present values in input order: wrapped back, they are exactly the input filtered by `isNotNull` |
| ArrayUtils.FilterNullableStrings | lib/utils/array-utils.ts:16-20 | keeps every non-null string in its original order and drops only `null`/`undefined`; a string is in the result iff it is present in the input |
| ArrayUtils.FilterNotNullLift | lib/utils/array-utils.ts:29 | an input with no `null`/`undefined` comes back unchanged |
| ArrayUtils.FilterNotNullMembers | lib/utils/array-utils.ts:29 | a value is kept iff it occurs present in the input |
| ArrayUtils.UniqueBy | lib/utils/array-utils.ts:35-43 | reference definition of the `seen`-set filter: no two kept items share a key, none has a key already seen, and it is no longer than its input |
| ArrayUtils.GetUniqueValues | lib/utils/array-utils.ts:29-33 | without a selector: no duplicates, no `null`/`undefined`, exactly the present input values, as a subsequence of the input |
| ArrayUtils.UniqueMembers | lib/utils/array-utils.ts:32 | the set spread keeps exactly the values of its input |
| ArrayUtils.GetUniqueValuesBy | lib/utils/array-utils.ts:35-43 | the scanning filter with its mutable `seen` set computes the reference filter over the present items |
| ArrayUtils.UniqueByStep | lib/utils/array-utils.ts:37-42 | one step of the scan: an item whose key was seen is skipped, otherwise it is kept and its key becomes seen |
| ArrayUtils.UniqueByCovers | lib/utils/array-utils.ts:35-43 | every key of the input is carried by some kept item (or was seen before) |
| ArrayUtils.UniqueBySubsequence | lib/utils/array-utils.ts:36 | the output is a subsequence of the input, hence no longer |
| ArrayUtils.UniqueByKeepsFirst | lib/utils/array-utils.ts:38-42 | each kept item is the first input item carrying its key |
| ArrayUtils.UniqueByOfDistinct | lib/utils/array-utils.ts:35-43 | an input whose keys are already distinct comes back unchanged |
| ArrayUtils.UniqueByIdempotent | lib/utils/array-utils.ts:35-43 | filtering twice gives the same as once |
| ArrayUtils.GetUniqueValuesIdempotent | lib/utils/array-utils.ts:25-44 | `getUniqueValues` applied to its own result gives that result back |
| UrlUtils.WrittenGuard | lib/url-utils.ts:10 | an entry is written iff its value is defined, non-empty, not `"all"` and not whitespace-only |
| UrlUtils.WrittenPairsFilter | lib/url-utils.ts:9-13 | the written pairs are the input entries the guard keeps, in input order |
| UrlUtils.WrittenPairsStep | lib/url-utils.ts:9-13 | one `forEach` step appends the entry exactly when its value passes the guard |
| UrlUtils.CreateSearchParamsString | lib/url-utils.ts:6-16 | the loop over the entries, calling `set` on a `URLSearchParams`, returns the serialization of the written pairs |
| UrlUtils.WrittenPairsMembers | lib/url-utils.ts:9-13 | `(k, v)` is emitted iff the input holds `k` with value `v` and `v` passes the guard, so kept values are untrimmed |
| UrlUtils.WrittenPairsDistinct | lib/url-utils.ts:11 | with the record's keys distinct, each surviving key appears exactly once |
| UrlUtils.QueryStringEmpty | lib/url-utils.ts:6-16 | the result is the empty string iff no entry survives the guard |
| UrlUtils.UpdateUrlWithParams | lib/url-utils.ts:18-24 | the pathname unchanged when the query string is empty, otherwise pathname + `?` + query string |
| UrlUtils.BareUrl | lib/url-utils.ts:23 | when no entry survives the URL is exactly the pathname |
| UrlUtils.UpdateUrlRoundTrip | lib/url-utils.ts:18-24 | splitting the URL at its first `?` gives back the pathname, and parsing the rest gives back exactly the written pairs |
| UrlUtils.WrittenExamples | lib/url-utils.ts:10 | `"all"`, `""`, `"  "` and `undefined` are dropped; `" a "` is kept untrimmed |
| FormUrlEncoded.Utf8RoundTrip | lib/url-utils.ts:15 | UTF-8 decoding of the encoding the serializer uses gives the string back |
| FormUrlEncoded.FormEncode | lib/url-utils.ts:15 | an encoded name or value never contains `&` or `=` |
| FormUrlEncoded.FormRoundTrip | lib/url-utils.ts:15 | decoding an encoded name or value (`+`, `%XY`, UTF-8) restores it |
| FormUrlEncoded.EncodePairs | lib/url-utils.ts:15 | one `name=value` piece per pair, in order |
| FormUrlEncoded.ParseEncodedPairs | lib/url-utils.ts:15 | parsing the pieces of an encoded list gives the list back |
| FormUrlEncoded.SerializeRoundTrip | lib/url-utils.ts:15 | the parser applied to `toString()` returns exactly the name-value list |
| FormUrlEncoded.SerializeEmpty | lib/url-utils.ts:15 | `toString()` is empty iff the list is empty |
| FormUrlEncoded.SetPairEffect | lib/url-utils.ts:11 | after `set(name, value)` the name has exactly that one value and every other name keeps its pairs |
| FormUrlEncoded.NamedReplaceFirst | lib/url-utils.ts:11 | `set` on a known name leaves it one pair with the new value and other names untouched |
| FormUrlEncoded.URLSearchParams.constructor | lib/url-utils.ts:7 | a new `URLSearchParams` holds no pairs |
| FormUrlEncoded.URLSearchParams.Set | lib/url-utils.ts:11 | the list becomes the `set` of the old list: first pair of the name replaced and later ones removed, or the pair appended |
| PageProps.GetString | lib/types/page-props.ts:33-36 | a value exactly when the key is present with a string, and then that string unchanged; an array or a missing key gives `undefined` |
| PageProps.ParseFields | lib/types/page-props.ts:38-52 | each of the 13 fields is read from the key of the same name, passed through unchanged when it is a string and `undefined` otherwise |
| PageProps.ParseIgnoresOtherKeys | lib/types/page-props.ts:38-52 | two records that agree on the 13 keys parse to the same result, whatever other keys they hold |
| PageProps.ReadBackEntry | lib/types/page-props.ts:33-36 | a URL built by `updateUrlWithParams` and read back through `getString` gives each entry's value when it was written and `undefined` when it was dropped |
| PageProps.ReadBackWritten | lib/types/page-props.ts:33-36 | every written value reads back unchanged; a key none of whose values was written reads back as `undefined` |
| PageProps.ReadBackAbsent | lib/types/page-props.ts:33-36 | a key not among the entries reads back as `undefined` |
| Validations.ElementIssues | lib/validations.ts:16-17 | no issue exactly when every array element is a string; each issue is an invalid-type issue at the array's key and an element index |
| Validations.FieldIssues | lib/validations.ts:4-6 | no issue exactly when the field's rule accepts the value; an empty string under a `min(1)` rule gives one too-small issue with the schema's message; a non-address under the email rule gives one invalid-string issue with its message |
| Validations.ObjectIssues | lib/validations.ts:8-18 | no issue exactly when every field of the schema accepts its value, each issue's path starting at a schema key |
| Validations.SafeParse | lib/validations.ts:8-18 | success exactly when the input is an object whose fields all pass; the parsed data holds exactly the schema's keys the input has, with the input's values (unknown keys are stripped); a failure carries at least one issue |
| Validations.SupporterRule | lib/validations.ts:8-18 | a supporter passes iff its name is a non-empty string, phone/address/area/notes are text or absent, email is absent, empty or an address, status is one of the four listed values, and skills and schedules are string arrays |
| Validations.ServiceUserRule | lib/validations.ts:20-27 | a service user passes iff its name is non-empty and the other five fields are text (email: an address) or absent |
| Validations.ActivityRule | lib/validations.ts:29-37 | an activity passes iff the five ids and the date are non-empty strings and notes are text or absent |
| Validations.SkillRule | lib/validations.ts:39-43 | a skill passes iff its name is non-empty, category is text or absent and `is_active` is a boolean |
| Validations.ActivityStatusRule | lib/validations.ts:45-48 | an activity status passes iff its name is non-empty and description is text or absent |
| Validations.SupporterBlankName | lib/validations.ts:9 | a name of one space passes (no trimming) and empty skill and schedule lists pass |
| Validations.SupporterEmptyName | lib/validations.ts:9 | an empty name fails with exactly one too-small issue at `name` carrying the message 名前は必須です |
| Dates.DaysInMonth | lib/utils/calendar-utils.ts:21 | a month has 28 to 31 days (Gregorian leap years) |
| Dates.DaysBeforeYearIsClosed | lib/utils/calendar-utils.ts:19-23 | the recursive day count before a year equals the closed Gregorian formula, for every year, negative ones included |
| Dates.Weekday | lib/utils/calendar-utils.ts:20 | the weekday is 0 (Sunday) to 6 |
| Dates.NextDay | lib/utils/calendar-utils.ts:22 | the next day is a valid date whose day number is one more |
| Dates.PrevDay | lib/utils/calendar-utils.ts:22 | the previous day is a valid date whose day number is one less |
| Dates.NextPrev | lib/utils/calendar-utils.ts:22 | stepping forward then back, or back then forward, gives the same date |
| Dates.AddDaysNumber | lib/utils/calendar-utils.ts:22 | adding `k` days adds `k` to the day number |
| Dates.SubDaysNumber | lib/utils/calendar-utils.ts:20 | going back `k` days subtracts `k` from the day number |
| Dates.AddDaysAdd | lib/utils/calendar-utils.ts:22 | adding `a` then `b` days is adding `a + b` days |
| Dates.AddDaysSubDays | lib/utils/calendar-utils.ts:20-22 | going back `k` days then forward `k` days returns the same date |
| Dates.AddDaysInMonth | lib/utils/calendar-utils.ts:22 | within a month, adding `k` days only moves the day of the month |
| Dates.StartOfMonth | lib/utils/calendar-utils.ts:20 | `startOfMonth` is day 1 of the same year and month |
| Dates.EndOfMonth | lib/utils/calendar-utils.ts:21 | `endOfMonth` is the last day of the same year and month |
| Dates.StartOfWeek | lib/utils/calendar-utils.ts:20 | `startOfWeek` with weeks starting on Sunday is the Sunday on or at most six days before the date |
| Dates.EndOfWeek | lib/utils/calendar-utils.ts:21 | `endOfWeek` with weeks starting on Sunday is the Saturday on or at most six days after the date |
| Dates.EachDayOfInterval | lib/utils/calendar-utils.ts:22 | the interval has one entry per day from start to end inclusive |
| Dates.IntervalEntry | lib/utils/calendar-utils.ts:22 | entry `i` of the interval is the start plus `i` days |
| Dates.MonthRange | components/activity-calendar.tsx:89 | a date lies between the month's first and last day exactly when `isSameMonth` holds |
| Dates.AddMonths | lib/utils/calendar-utils.ts:35-44 | moving one month forward or back gives a valid date |
| Dates.EraYear | lib/utils/calendar-utils.ts:29 | `yyyy` prints the year itself for years from 1 on |
| Dates.Year4 | components/activity-calendar.tsx:28 | `yyyy` prints at least four digits |
| Dates.Pad2 | components/activity-calendar.tsx:28 | `MM` and `dd` print at least two digits |
| Dates.ParseDateKey | app/activities/page.tsx:123 | a key that reads back names a valid date from year 1 on |
| Dates.DateKeyRoundTrip | components/activity-calendar.tsx:28 | for years 1 to 9999, the `yyyy-MM-dd` key reads back as the date it was made from |
| Dates.DateKeyInjective | components/activity-calendar.tsx:87-88 | for years 1 to 9999, two dates share a key exactly when they are equal, so a cell finds exactly its own day's bucket |
| CalendarUtils.GetCalendarDays | lib/utils/calendar-utils.ts:19-23 | every cell of the grid is a valid date |
| CalendarUtils.Cell | lib/utils/calendar-utils.ts:19-23 | cell `i` is the grid's first Sunday plus `i` days |
| CalendarUtils.GridSize | lib/utils/calendar-utils.ts:22 | the grid runs from the Sunday on or before the 1st to the Saturday on or after the last day, inclusive |
| CalendarUtils.MonthSpan | lib/utils/calendar-utils.ts:20-21 | the month's last day is its first day plus the month's length minus one |
| CalendarUtils.GridBounds | lib/utils/calendar-utils.ts:19-23 | the grid is whole weeks, 4 to 6 of them; it starts on a Sunday at most six days before the 1st and ends on a Saturday at most six days after the last day |
| CalendarUtils.GridWeeks | lib/utils/calendar-utils.ts:19-23 | the grid length is a multiple of 7 between 28 and 42 |
| CalendarUtils.GridFirst | lib/utils/calendar-utils.ts:20 | the first cell is a Sunday at most six days before the 1st |
| CalendarUtils.GridLast | lib/utils/calendar-utils.ts:21 | the last cell is a Saturday at most six days after the month's last day |
| CalendarUtils.GridConsecutive | lib/utils/calendar-utils.ts:22 | each cell is the day after the one before it |
| CalendarUtils.GridColumns | lib/utils/calendar-utils.ts:58 | the cell in column `i % 7` falls on weekday `i % 7`, so the `dayNames` header labels each column with its cells' weekday |
| CalendarUtils.GridHoldsMonth | lib/utils/calendar-utils.ts:19-23 | day `k` of the month sits in cell `Lead + k - 1`, so the grid holds every day of the month |
| CalendarUtils.GridCoversMonth | lib/utils/calendar-utils.ts:19-23 | the leading days plus the month's length fit in the grid |
| CalendarUtils.GridMonthFlag | components/activity-calendar.tsx:89 | a cell is in the current month exactly when it lies in the run of the month's own days |
| CalendarUtils.GridSameMonth | lib/utils/calendar-utils.ts:19-23 | two dates in the same month give the same grid |
| CalendarUtils.LeadingDigits | lib/utils/calendar-utils.ts:29 | counts the maximal run of leading decimal digits |
| CalendarUtils.FormatMonthYearRoundTrip | lib/utils/calendar-utils.ts:28-30 | the `yyyy年M月` heading reads back as the era year and the month; for years 1 to 9999 the year has four digits |
| CalendarUtils.GetNextMonth | lib/utils/calendar-utils.ts:42-44 | the next month's date is valid |
| CalendarUtils.GetPreviousMonth | lib/utils/calendar-utils.ts:35-37 | the previous month's date is valid |
| CalendarUtils.NextMonthLands | lib/utils/calendar-utils.ts:42-44 | the next month is the following calendar month, December rolling over to January; the day is kept, or clipped to the new month's last day |
| CalendarUtils.PreviousMonthLands | lib/utils/calendar-utils.ts:35-37 | the previous month is the preceding calendar month, January rolling back to December; the day is kept or clipped |
| CalendarUtils.NextThenPrevious | lib/utils/calendar-utils.ts:35-44 | next then previous gives the same month (the day may be clipped) and so the same grid |
| CalendarUtils.NextMonthClips | lib/utils/calendar-utils.ts:42-44 | 31 January moves to 29 February in a leap year and 28 February otherwise |
| ActivityCalendar.ActivitiesByDate | components/activity-calendar.tsx:25-35 | the buckets group the activities by their `yyyy-MM-dd` key, in input order, each activity in its own key's bucket and the sizes adding up to the input |
| ActivityCalendar.CellLookup | components/activity-calendar.tsx:87-88 | a day's cell shows exactly the activities whose key is that day's key, in input order; it is empty exactly when no activity has that key |
| ActivityCalendar.Cells | components/activity-calendar.tsx:86-99 | one cell per grid day, in grid order |
| ActivityCalendar.CellsFacts | components/activity-calendar.tsx:86-99 | a cell is flagged current-month exactly inside the month's run of days, and holds that day's activities |
| ActivityCalendar.MonthUrlEffect | components/activity-calendar.tsx:41-51 | the pushed query has `month` set once to the new date's key and `view` set once to `calendar`; every other parameter is unchanged; the query string reads back as those pairs |
| ActivityCalendar.Calendar.constructor | components/activity-calendar.tsx:22 | the calendar opens on the initial month with nothing pushed |
| ActivityCalendar.Calendar.UpdateMonthInUrl | components/activity-calendar.tsx:41-51 | pushes `/activities?` plus the updated query and leaves the shown month alone |
| ActivityCalendar.Calendar.HandlePreviousMonth | components/activity-calendar.tsx:53-57 | shows the previous month and pushes its URL |
| ActivityCalendar.Calendar.HandleNextMonth | components/activity-calendar.tsx:59-63 | shows the next month and pushes its URL |
| MatchingPage.MatchesMeaning | app/matching/page.tsx:57-77 | a supporter survives the filters exactly when it was fetched and has every requested skill id and every requested time-slot id; the survivors keep their fetched order |
| MatchingPage.NoParametersKeepsAll | app/matching/page.tsx:60-77 | with neither `skills` nor `time_slots` given, every fetched supporter is kept |
| MatchingPage.SingleId | app/matching/page.tsx:82-86 | `.single()` yields an id exactly when exactly one status has the name, and that id is the named status's |
| MatchingPage.CountOrZero | app/matching/page.tsx:96 | `count \|\| 0`: the count when there is one, otherwise 0 |
| MatchingPage.Annotated | app/matching/page.tsx:94-97 | the annotated supporter is the supporter itself with its completed-activity count, or 0 |
| MatchingPage.GetMatchingSupporters | app/matching/page.tsx:33-106 | a failed fetch gives no supporters; otherwise the result is the eligible supporters (status 登録完了 or 面接済み) that pass both filters, in order, each with its completed count |
| MatchingPage.WithCompletedCounts | app/matching/page.tsx:80-99 | one annotated entry per supporter, in the same order |
| MatchingPage.ResultFacts | app/matching/page.tsx:53-99 | every result is a fetched, eligible supporter that has all requested skills and slots; its count is at most its number of activities, and 0 when no single 完了 status exists |
| MatchingPage.ResultsView | app/matching/page.tsx:166-175 | a three-way choice, each case an if-and-only-if: the select prompt exactly when neither filter is set, the no-match message exactly when a filter is set and the result is empty, the cards of the whole result exactly when a filter is set and the result is non-empty |
| MatchingPage.NoFiltersPage | app/matching/page.tsx:140-168 | with no filters, every eligible supporter is still fetched and counted in the heading while the page shows only the prompt |
| MatchingFilters.InitialSelection | components/matching-filters.tsx:24-29 | an absent or empty value starts with nothing selected; otherwise the selection joins back to the value |
| MatchingFilters.SelectionRoundTrip | components/matching-filters.tsx:31-37 | for ids without commas (and at least one character each), the pushed URL parses back into the same two selections, and the page sees filters exactly when something was selected |
| MatchingFilters.ReadBackJoined | components/matching-filters.tsx:31-37 | each parameter read back is the value written, or absent when it was not written |
| MatchingFilters.EmptySelectionUrl | components/matching-filters.tsx:31-37 | with nothing selected the URL is `/matching` |
| MatchingFilters.PanelAgreesWithPage | components/matching-filters.tsx:24-29 | the panel starts with something selected exactly when the page reports filters |
| MatchingFilters.CategoryOf | components/matching-filters.tsx:65 | a skill's group is its non-empty category, otherwise その他 |
| MatchingFilters.SkillsByCategory | components/matching-filters.tsx:64-71 | the categories are exactly those of the skills, each once, in the order first seen (`FirstKeys`); every skill is in the group of its category, in input order, no group empty, the group sizes adding up to the skill count |
| MatchingFilters.ConstructorCategoryThrows | components/matching-filters.tsx:66-69 | the reduce as written fails on a skill whose category is `constructor` |
| MatchingFilters.ReduceAsWrittenAgrees | components/matching-filters.tsx:64-71 | when no category is named like an inherited object member, the reduce as written succeeds and groups as `SkillsByCategory` does |
| MatchingFilters.MatchingFilterPanel.constructor | components/matching-filters.tsx:24-29 | the selections start from the URL values and nothing is pushed |
| MatchingFilters.MatchingFilterPanel.SelectedCount | components/matching-filters.tsx:61-125 | the selected count is 0 exactly when there are no filters, which disables the search button |
| MatchingFilters.MatchingFilterPanel.HandleSkillChange | components/matching-filters.tsx:45-51 | toggles the skill id and changes nothing else |
| MatchingFilters.MatchingFilterPanel.HandleTimeSlotChange | components/matching-filters.tsx:53-59 | toggles the time-slot id and changes nothing else |
| MatchingFilters.MatchingFilterPanel.UpdateFilters | components/matching-filters.tsx:31-37 | pushes the URL of the current selections |
| MatchingFilters.MatchingFilterPanel.ClearFilters | components/matching-filters.tsx:39-43 | empties both selections and pushes `/matching` |
| Selection.ToggleOnFacts | components/matching-filters.tsx:46-47 | checking appends the id after the earlier selection and adds a copy even when it was already selected |
| Selection.ToggleOffFacts | components/matching-filters.tsx:48-49 | unchecking removes every copy of the id and keeps every other id, in order and with its count |
| Selection.OffAfterOn | components/matching-filters.tsx:45-51 | unchecking after checking equals unchecking alone |
| Selection.OffAbsent | components/matching-filters.tsx:48-49 | unchecking an unselected id changes nothing |
| ActivitiesPage.ConcatHolds | app/activities/page.tsx:36-51 | chained conditions all hold exactly when each part's conditions hold |
| ActivitiesPage.ConcatReadable | app/activities/page.tsx:46-51 | a chained query is readable exactly when each part is |
| ActivitiesPage.OptionalCondition | app/activities/page.tsx:37-51 | a guarded condition is added only when its guard holds, and then it alone constrains the row |
| ActivitiesPage.QueryMeaning | app/activities/page.tsx:36-51 | the built query keeps a row exactly when the supporter, service user and status match unless absent or `all`, and the date lies within the given bounds; the store can read it exactly when the bounds it sends are readable dates |
| ActivitiesPage.QueryHolds | app/activities/page.tsx:36-51 | the row-level half of the query's meaning |
| ActivitiesPage.QueryReadable | app/activities/page.tsx:46-51 | the readability half of the query's meaning |
| ActivitiesPage.BuildQuery | app/activities/page.tsx:36-51 | the query built step by step keeps exactly the rows the filters describe and is readable exactly when its bounds are |
| ActivitiesPage.GetActivities | app/activities/page.tsx:14-74 | a failed query gives no rows; otherwise the rows the filters keep, newest first, then narrowed to rows whose supporter, service user or skill name contains the lower-cased search text |
| ActivitiesPage.AnswerMembers | app/activities/page.tsx:36-67 | with a readable query, a row is returned exactly when it is in the table and passes both the store filters and the name search |
| ActivitiesPage.ViewOf | app/activities/page.tsx:115 | the calendar view is chosen exactly when `view` is `calendar` |
| ActivitiesPage.CalendarDate | app/activities/page.tsx:123 | no `month` means today; otherwise the month key read as a date |
| ActivitiesPage.PageActivities | app/activities/page.tsx:122-135 | the list view answers the URL's own filters; the calendar view answers only the shown month's first-to-last-day bounds, and an unreadable month gives nothing |
| ActivitiesPage.CalendarMonthRows | app/activities/page.tsx:122-132 | in the calendar view the rows are newest first and are exactly the table's activities in the shown month |
| ActivitiesPage.MonthKeeps | app/activities/page.tsx:126-131 | the month's bounds are readable, and a row passes them exactly when it is in that month |
| ActivitiesPage.BetweenBounds | app/activities/page.tsx:46-51 | with only a from and a to date given, a row passes exactly when its day lies between them, inclusive |
| ActivitiesPage.BoundIs | app/activities/page.tsx:46-51 | `gte`/`lte` on a readable date key compare the activity's day number with that date's |
| ActivitiesPage.NoParametersAll | app/activities/page.tsx:36-67 | with no filter and no search, the whole table comes back newest first |
| ActivitiesPage.CardLinks | app/activities/page.tsx:223-236 | every card links to its activity; the completion link shows exactly when the status is 予定 |
| UrlUtils.UnlessAll | components/activity-filters.tsx:47-49 | a select's value is dropped exactly when it is `all`, and otherwise passed unchanged; the supporter and service-user panels hand their selects over the same way |
| UrlUtils.UnlessEmpty | components/activity-filters.tsx:46-51 | a text field's value is dropped exactly when it is empty, and otherwise passed unchanged |
| ActivityFilters.NoFiltersUrl | components/activity-filters.tsx:36-54 | when the panel shows no filters, the URL pushed is `/activities` |
| ActivityFilters.DefaultsUrl | components/activity-filters.tsx:56-63 | the default values show no filters and push `/activities` |
| ActivityFilters.PanelReadBack | components/activity-filters.tsx:44-54 | reading the pushed URL back gives the trimmed search and each other value, or nothing for a value not written |
| ActivityFilters.ReadBackTrimmed | components/activity-filters.tsx:44-54 | the same read-back for an already trimmed search text |
| ActivityFilters.ActivityFilterPanel.constructor | components/activity-filters.tsx:29-34 | each field starts from its URL value, or from `""`/`all` when it is absent or empty |
| ActivityFilters.ActivityFilterPanel.SetSearch | components/activity-filters.tsx:83 | sets the search text and nothing else |
| ActivityFilters.ActivityFilterPanel.SetSupporter | components/activity-filters.tsx:90 | sets the supporter and nothing else |
| ActivityFilters.ActivityFilterPanel.SetServiceUser | components/activity-filters.tsx:107 | sets the service user and nothing else |
| ActivityFilters.ActivityFilterPanel.SetStatus | components/activity-filters.tsx:124 | sets the status and nothing else |
| ActivityFilters.ActivityFilterPanel.SetDateFrom | components/activity-filters.tsx:141 | sets the from date and nothing else |
| ActivityFilters.ActivityFilterPanel.SetDateTo | components/activity-filters.tsx:146 | sets the to date and nothing else |
| ActivityFilters.ActivityFilterPanel.UpdateFilters | components/activity-filters.tsx:44-54 | pushes the URL of the current fields |
| ActivityFilters.ActivityFilterPanel.ClearFilters | components/activity-filters.tsx:56-64 | resets every field to its default, pushes `/activities` and leaves no filter shown |
| UrlUtils.Trimmed | components/supporter-filters.tsx:32 | the search is always handed over, as its trimmed text, even when that is empty |
| SupporterFilters.NoFiltersUrl | components/supporter-filters.tsx:30-48 | when the panel shows no filters, the URL pushed is `/supporters` |
| SupporterFilters.DefaultsUrl | components/supporter-filters.tsx:40-46 | the default values show no filters and push `/supporters` |
| SupporterFilters.SearchAllDropped | components/supporter-filters.tsx:30-48 | a name search for the word `all` counts as a filter in the panel, yet the URL drops it, so the list is not narrowed |
| SupporterFilters.PanelReadBack | components/supporter-filters.tsx:30-38 | reading the pushed URL back gives the trimmed search, status, area and skill, or nothing for a value not written, and never a time slot |
| SupporterFilters.ReadBackTrimmed | components/supporter-filters.tsx:30-38 | the same read-back for an already trimmed search text |
| SupporterFilters.SupporterFilterPanel.constructor | components/supporter-filters.tsx:25-28 | each field starts from its URL value, or from `""`/`all` when it is absent or empty |
| SupporterFilters.SupporterFilterPanel.SetSearch | components/supporter-filters.tsx:58 | sets the search text and nothing else |
| SupporterFilters.SupporterFilterPanel.SetStatus | components/supporter-filters.tsx:65 | sets the status and nothing else |
| SupporterFilters.SupporterFilterPanel.SetArea | components/supporter-filters.tsx:81 | sets the area and nothing else |
| SupporterFilters.SupporterFilterPanel.SetSkill | components/supporter-filters.tsx:98 | sets the skill and nothing else |
| SupporterFilters.SupporterFilterPanel.UpdateFilters | components/supporter-filters.tsx:30-38 | pushes the URL of the current fields |
| SupporterFilters.SupporterFilterPanel.ClearFilters | components/supporter-filters.tsx:40-46 | resets every field to its default, pushes `/supporters` and leaves no filter shown |
| ServiceUserFilters.NoFiltersUrl | components/service-user-filters.tsx:25-39 | when the panel shows no filters, the URL pushed is `/service-users` |
| ServiceUserFilters.DefaultsUrl | components/service-user-filters.tsx:33-37 | the default values show no filters and push `/service-users` |
| ServiceUserFilters.PanelReadBack | components/service-user-filters.tsx:25-31 | reading the pushed URL back gives the trimmed search and the area, or nothing for a value not written |
| ServiceUserFilters.ReadBackTrimmed | components/service-user-filters.tsx:25-31 | the same read-back for an already trimmed search text |
| ServiceUserFilters.ServiceUserFilterPanel.constructor | components/service-user-filters.tsx:22-23 | the fields start from the URL values, or from `""`/`all` |
| ServiceUserFilters.ServiceUserFilterPanel.SetSearch | components/service-user-filters.tsx:49 | sets the search text and nothing else |
| ServiceUserFilters.ServiceUserFilterPanel.SetArea | components/service-user-filters.tsx:56 | sets the area and nothing else |
| ServiceUserFilters.ServiceUserFilterPanel.UpdateFilters | components/service-user-filters.tsx:25-31 | pushes the URL of the current fields |
| ServiceUserFilters.ServiceUserFilterPanel.ClearFilters | components/service-user-filters.tsx:33-37 | resets both fields, pushes `/service-users` and leaves no filter shown |
| SupportersPage.ListedOrder | app/supporters/page.tsx:56-65 | the rows listed are newest first and are, as a multiset, exactly the table's rows that the filters keep |
| SupportersPage.SearchIsSubstring | app/supporters/page.tsx:43-45 | for a search text without `*` and without `%`, `_` or `\`, the `.ilike` name filter holds exactly when the lower-cased name contains the lower-cased text |
| SupportersPage.SearchStarReading | app/supporters/page.tsx:44 | a `*` in the search is a wildcard: the search `a*c` reaches the database as the pattern `%a%c%` |
| SupportersPage.SearchStarIsWildcard | app/supporters/page.tsx:44 | the search `*` lists every name |
| SupportersPage.LastWith | app/supporters/page.tsx:67 | finds an element with the id exactly when one exists |
| SupportersPage.LastWithSnoc | app/supporters/page.tsx:67 | a later element with the id wins |
| SupportersPage.LastWithIsLast | app/supporters/page.tsx:67 | the element found is the last one with that id |
| SupportersPage.LastWithUnique | app/supporters/page.tsx:67 | an id that occurs once finds that element |
| SupportersPage.ValuesInOrder | app/supporters/page.tsx:67 | `values()` lists each key's value in key order |
| SupportersPage.UniqueById | app/supporters/page.tsx:67 | the `Map` built from `[id, row]` pairs gives one row per id, in the ids' first-occurrence order, each the last row with that id |
| SupportersPage.MapStep | app/supporters/page.tsx:67 | one `set` keeps the key order and the values in step with one more row |
| SupportersPage.MapStepKnown | app/supporters/page.tsx:67 | `set` on a known key keeps the key order and replaces the value |
| SupportersPage.MapStepNew | app/supporters/page.tsx:67 | `set` on a new key appends it to the key order |
| SupportersPage.MapDone | app/supporters/page.tsx:67 | after every row, the values in key order are the deduplicated list |
| SupportersPage.ValuesStep | app/supporters/page.tsx:67 | after one more `set`, every key holds the last row with it so far |
| SupportersPage.MapDedupedFacts | app/supporters/page.tsx:67 | the deduplicated list has distinct ids, holds only input rows and keeps every id |
| SupportersPage.MapOfDistinct | app/supporters/page.tsx:67 | when ids are already distinct, deduplication changes nothing |
| SupportersPage.HoldsSnoc | app/supporters/page.tsx:43-54 | adding one condition to the chain narrows it by exactly that condition |
| SupportersPage.BuildQuery | app/supporters/page.tsx:31-54 | the built query, over supporters with at least one schedule, keeps a row exactly when the name, status, area and time-slot filters all keep it |
| SupportersPage.GetSupporters | app/supporters/page.tsx:27-73 | a failed query gives no rows; otherwise the filtered, newest-first rows deduplicated by id |
| SupportersPage.ListedMembers | app/supporters/page.tsx:43-65 | a row is listed exactly when it is in the table and passes the store filters and the skill filter |
| SupportersPage.SupportersListed | app/supporters/page.tsx:27-73 | the page shows distinct ids, only rows the filters keep, and some row for every id the filters keep |
| SupportersPage.KeyedTable | app/supporters/page.tsx:27-73 | over a table keyed by id, the page shows exactly the filtered rows, newest first |
| SupportersPage.NoParametersScheduled | app/supporters/page.tsx:40-56 | with no filter, the list is every supporter with a schedule, newest first |
| SupportersPage.AreaValues | app/supporters/page.tsx:83 | the area values are exactly the non-null areas in the table |
| SupportersPage.AreaOptions | app/supporters/page.tsx:83-88 | the area options are distinct and are exactly the table's non-null areas, or none when the query fails |
| SupportersPage.SkillOptions | app/supporters/page.tsx:84-89 | the skill options are the active skills' names, in order, or none when the query fails |
| SupportersPage.ListViewOf | app/supporters/page.tsx:123-135 | the not-found message shows exactly when the list is empty; otherwise every supporter gets a card |
| SupporterForm.SkillIds | components/supporter-form.tsx:55 | the skill ids in the order of the supporter's skills |
| SupporterForm.SlotIds | components/supporter-form.tsx:56 | the time-slot ids in the order of the supporter's schedules |
| SupporterForm.DefaultValues | components/supporter-form.tsx:47-61 | a new form holds only status 応募受付 and empty lists; an edit form holds the supporter's name, its status or 応募受付 when it has none, and its skill and schedule ids; the status is never empty |
| SupporterForm.NullIfEmpty | components/supporter-form.tsx:99-103 | `x \|\| null`: null exactly for an absent or empty text, otherwise the text itself |
| SupporterForm.UneditedSave | components/supporter-form.tsx:47-105 | saving an untouched edit form writes the supporter back with empty texts as null and a missing status as 応募受付 |
| SupporterForm.RowsFor | components/supporter-form.tsx:113-116 | one join row per selected id, in order, each under the supporter's id |
| SupporterForm.Refs | components/supporter-form.tsx:113-116 | the referenced ids of the rows, in order |
| SupporterForm.RefsConcat | components/supporter-form.tsx:111-121 | the ids of concatenated rows are the concatenated ids |
| SupporterForm.RefsRowsFor | components/supporter-form.tsx:113-116 | the rows built for a selection reference exactly that selection |
| SupporterForm.NoRowsOf | components/supporter-form.tsx:111 | a table with no row for the supporter gives none |
| SupporterForm.ReplaceRows | components/supporter-form.tsx:111-134 | delete-then-insert leaves the supporter exactly the selected ids and every other supporter's rows as they were |
| SupporterForm.DeleteRows | components/supporter-form.tsx:111 | deleting by supporter id removes all its rows and keeps everyone else's |
| SupporterForm.SupporterTable.constructor | components/supporter-form.tsx:95-106 | the table starts with the given rows |
| SupporterForm.SupporterTable.Update | components/supporter-form.tsx:95-108 | an accepted update rewrites the row when the id exists (a missing id updates nothing without error); a rejected one changes nothing |
| SupporterForm.SupporterTable.Insert | components/supporter-form.tsx:140-154 | the insert succeeds exactly when it is accepted under a fresh id, and adds exactly that row |
| SupporterForm.JoinTable.constructor | components/supporter-form.tsx:111 | the join table starts with the given rows |
| SupporterForm.JoinTable.Delete | components/supporter-form.tsx:111 | removes the supporter's rows unless the delete fails; a failure is not reported |
| SupporterForm.JoinTable.Insert | components/supporter-form.tsx:117-120 | appends one row per id unless the insert fails, and reports the failure |
| SupporterForm.ReplaceJoinSaved | components/supporter-form.tsx:111-121 | when the delete ran and the step saved, the supporter references exactly the selection and other supporters are untouched |
| SupporterForm.EditSaved | components/supporter-form.tsx:93-137 | a saved edit whose deletes ran rewrites the supporter row, sets its skills and schedules to the selections and leaves other supporters' rows alone |
| SupporterForm.EditRowRejected | components/supporter-form.tsx:95-108 | a rejected row update stops the save before any join table is touched |
| SupporterForm.EditSkillsRejected | components/supporter-form.tsx:111-121 | a rejected skill insert after the delete leaves the supporter with no skills, schedules untouched, and the save failed |
| SupporterForm.EditDeleteUnnoticed | components/supporter-form.tsx:111-121 | a failed delete goes unnoticed: the save continues and the supporter ends up with its old skills plus the new ones |
| SupporterForm.AddedRows | components/supporter-form.tsx:157-166 | appending rows for an id adds exactly those references after the old ones |
| SupporterForm.AddJoinSaved | components/supporter-form.tsx:157-178 | a saved insert only appends rows under the new id, which then references exactly the selection |
| SupporterForm.CreateSaved | components/supporter-form.tsx:139-181 | a saved create adds exactly the new supporter under a fresh id and appends join rows only under that id, referencing exactly the selections |
| SupporterForm.SupporterFormState.constructor | components/supporter-form.tsx:45-62 | the form starts from the default values, editing the given supporter if any |
| SupporterForm.SupporterFormState.HandleSkillChange | components/supporter-form.tsx:191-198 | toggles the skill id in the form values and changes nothing else |
| SupporterForm.SupporterFormState.HandleScheduleChange | components/supporter-form.tsx:200-207 | toggles the time-slot id in the form values and changes nothing else |
| SupporterForm.SupporterFormState.OnSubmit | components/supporter-form.tsx:88-189 | the three tables end up exactly as the edit or create effect says, and the page moves to the supporter (edit) or the list (create) exactly when the save succeeded |
| MasterList.ReplaceById | components/skills-management.tsx:74 | replacing by id keeps the list's length |
| MasterList.ReplaceKeepsOthers | components/skills-management.tsx:74 | replacing by id touches exactly the entries with that id; every other entry keeps its place and value and every entry keeps its id |
| MasterList.RemoveKeepsOthers | components/skills-management.tsx:100 | removing by id leaves no entry with that id and keeps every other entry, in order |
| MasterList.RemoveAppended | components/skills-management.tsx:82-100 | removing an entry just appended under a new id gives the list back |
| MasterList.ReplaceSame | components/skills-management.tsx:74 | writing back a row as the list already shows it changes nothing |
| MasterList.ReplaceInStep | components/skills-management.tsx:69-74 | an accepted update mirrored by the replace keeps the list showing each stored row exactly once, as stored |
| MasterList.AppendInStep | components/skills-management.tsx:77-82 | an accepted insert under a new id mirrored by the append keeps the list in step with the table |
| MasterList.RemoveInStep | components/skills-management.tsx:98-100 | an accepted delete mirrored by the filter keeps the list in step with the table |
| SkillsManagement.DialogFields | components/skills-management.tsx:45-56 | a new skill opens blank and active; an existing one opens with its name, its category or empty, and inactive exactly when its flag is false |
| SkillsManagement.Written | components/skills-management.tsx:71-79 | the stored row carries the id, name and flag written, with an empty category stored as null |
| SkillsManagement.UneditedSave | components/skills-management.tsx:45-79 | saving an untouched edit dialog writes the skill back with an empty category as null and a null flag as active |
| SkillsManagement.SkillTable.constructor | components/skills-management.tsx:69-80 | the table starts with the given rows |
| SkillsManagement.SkillTable.Update | components/skills-management.tsx:69-73 | `.single()` returns the updated row exactly when the write is accepted and the id exists, and the table then holds it; otherwise nothing changes |
| SkillsManagement.SkillTable.Insert | components/skills-management.tsx:77-81 | returns the new row exactly when the insert is accepted under a fresh id, and the table then holds it; otherwise nothing changes |
| SkillsManagement.SkillTable.Delete | components/skills-management.tsx:98-99 | an accepted delete removes the id (a missing id is no error); a rejected one changes nothing |
| SkillsManagement.SkillsManagementState.constructor | components/skills-management.tsx:26-43 | the page starts with the given skills, the dialog closed, and both the fields and the values `reset()` restores equal to `defaultValues` (only `is_active`) |
| SkillsManagement.SkillsManagementState.OpenDialog | components/skills-management.tsx:45-56 | opens the dialog on the skill with its fields, list unchanged; only a new skill's blank fields (set through `reset(values)`) become the values `reset()` restores, an existing skill's leave them as they were |
| SkillsManagement.SkillsManagementState.CloseDialog | components/skills-management.tsx:58-62 | closes the dialog, clears the skill being edited and resets the fields to the values last installed as defaults (the blank new-skill fields once a new skill was opened), list unchanged |
| SkillsManagement.SkillsManagementState.OnSubmit | components/skills-management.tsx:64-92 | a save succeeds exactly when the write is accepted (the edited id exists, or the new id is fresh); the table and the list then hold the written row, replaced in place or appended, and the dialog closes with the fields reset to the current defaults; a failed save changes nothing; the defaults never change; the list stays in step with the table |
| SkillsManagement.SkillsManagementState.DeleteSkill | components/skills-management.tsx:94-106 | a confirmed, accepted delete removes the id from the table and the list; otherwise nothing changes; the list stays in step with the table |
| ActivityStatusesManagement.DialogFields | components/activity-statuses-management.tsx:40-53 | a new status opens blank; an existing one opens with its name and its description or empty |
| ActivityStatusesManagement.Written | components/activity-statuses-management.tsx:69-78 | the stored row carries the id and name written, with an empty description stored as null |
| ActivityStatusesManagement.UneditedSave | components/activity-statuses-management.tsx:40-78 | saving an untouched edit dialog writes the status back with an empty description as null |
| ActivityStatusesManagement.StatusTable.constructor | components/activity-statuses-management.tsx:61-82 | the table starts with the given rows |
| ActivityStatusesManagement.StatusTable.Update | components/activity-statuses-management.tsx:67-72 | returns the updated row exactly when the write is accepted and the id exists; otherwise nothing changes |
| ActivityStatusesManagement.StatusTable.Insert | components/activity-statuses-management.tsx:76-80 | returns the new row exactly when the insert is accepted under a fresh id; otherwise nothing changes |
| ActivityStatusesManagement.StatusTable.Delete | components/activity-statuses-management.tsx:97-98 | an accepted delete removes the id; a rejected one (a status still in use) changes nothing |
| ActivityStatusesManagement.StatusesManagementState.constructor | components/activity-statuses-management.tsx:25-38 | the page starts with the given statuses, the dialog closed, and neither field having a value or a default |
| ActivityStatusesManagement.StatusesManagementState.OpenDialog | components/activity-statuses-management.tsx:40-53 | opens the dialog on the status with its fields, list unchanged; only a new status's empty fields (set through `reset(values)`) become the values `reset()` restores, an existing status's leave them as they were |
| ActivityStatusesManagement.StatusesManagementState.CloseDialog | components/activity-statuses-management.tsx:55-59 | closes the dialog, clears the status being edited and resets the fields to the values last installed as defaults, list unchanged |
| ActivityStatusesManagement.StatusesManagementState.OnSubmit | components/activity-statuses-management.tsx:61-91 | a save succeeds exactly when the write is accepted; the table and the list then hold the written row, replaced in place or appended, and the dialog closes with the fields reset to the current defaults; a failed save changes nothing; the defaults never change; the list stays in step with the table |
| ActivityStatusesManagement.StatusesManagementState.DeleteStatus | components/activity-statuses-management.tsx:93-105 | a confirmed, accepted delete removes the id from the table and the list; otherwise nothing changes; the list stays in step with the table |
| ActivityCompleteForm.CompleteRule | components/activity-complete-form.tsx:17-19 | the form passes exactly when the report is a non-empty string |
| ActivityCompleteForm.EmptyReportRejected | components/activity-complete-form.tsx:18 | an empty report fails with one too-small issue carrying the message 活動報告は必須です |
| ActivityCompleteForm.NotesShape | components/activity-complete-form.tsx:62-64 | the new notes end with the heading 【活動報告】 and the report; prior non-empty notes start them, followed by a blank line; without prior notes the heading starts them |
| ActivityCompleteForm.CompletionsAccumulate | components/activity-complete-form.tsx:62-64 | completing twice keeps both reports: the first result is a prefix of the second |
| ActivityCompleteForm.ActivityTable.constructor | components/activity-complete-form.tsx:66-72 | the table starts with the given rows |
| ActivityCompleteForm.ActivityTable.UpdateStatusAndNotes | components/activity-complete-form.tsx:66-74 | an accepted update changes only the status and notes of that row, and nothing when the id is missing; a rejected one changes nothing |
| ActivityCompleteForm.CompletedStatus | components/activity-complete-form.tsx:53-59 | a status id is found only when the lookup succeeds, and it is a status named 完了 |
| ActivityCompleteForm.CompleteFormState.constructor | components/activity-complete-form.tsx:35-45 | the form is bound to the activity and its prior notes, nothing pushed |
| ActivityCompleteForm.CompleteFormState.OnSubmit | components/activity-complete-form.tsx:47-84 | the activity is completed exactly when the 完了 status is found and the update is accepted; then only its status and notes change, and the page moves to the activity; otherwise nothing is written or pushed |
| Navigation.ActiveNames | components/navigation.tsx:24-26 | at most as many highlighted entries as there are entries |
| Navigation.Names | components/navigation.tsx:10-17 | the entry names, in menu order |
| Navigation.ActiveShape | components/navigation.tsx:26 | a highlighted entry's href is the whole path or a prefix of it that ends just before a `/` |
| Navigation.ApartHrefs | components/navigation.tsx:26 | two hrefs that differ at a position both have cannot both be highlighted |
| Navigation.RootActive | components/navigation.tsx:26 | the dashboard is highlighted exactly for `/` and for paths starting with `//` |
| Navigation.RootApart | components/navigation.tsx:26 | the dashboard is never highlighted together with an entry whose second character is not `/` |
| Navigation.ItemsApart | components/navigation.tsx:10-26 | no two menu entries are highlighted together |
| Navigation.AtMostOneActive | components/navigation.tsx:10-26 | on every path at most one menu entry is highlighted |
| Navigation.DeeperPathActive | components/navigation.tsx:26 | a page below `/supporters` highlights サポーター and nothing else |
| Navigation.TextualPrefixInactive | components/navigation.tsx:26 | a path that only starts with the same letters, like `/supportersX`, highlights nothing |
| Middleware.Decide | middleware.ts:51-64 | a signed-out visitor anywhere but `/login` is sent to `/login`; a signed-in user on `/login` is sent to `/`; every other request passes |
| Middleware.NoSelfLoop | middleware.ts:51-61 | a redirect never points at the path requested |
| Middleware.OneHop | middleware.ts:51-77 | the redirect target is itself gated and passes there, so one redirect always settles |
| Middleware.Gate | middleware.ts:67-79 | paths outside the matcher always pass; inside it the decision above applies |
| Middleware.Differs | middleware.ts:77 | strings differing at a shared position are not prefixes of each other |
| Middleware.MatchesByFirst | middleware.ts:77 | a path whose second character is none of `a`, `_`, `f` (and that has no line break) is gated |
| Middleware.MatchesPage | middleware.ts:77 | `/login` and `/` are gated |
| Middleware.SkippedExamples | middleware.ts:70-77 | API routes (any path starting `/api`), static files, image optimization and `/favicon.ico` are not gated; neither are `/apiary` and `/favicon-ico`, because `.` matches any character |
| Middleware.GatedExamples | middleware.ts:77 | ordinary pages, `/_next/data` and `/favicon.png` are gated |
| Middleware.NextData | middleware.ts:77 | `/_next/data` is gated |
| Middleware.FaviconPng | middleware.ts:77 | `/favicon.png` is gated |
| Middleware.SignedOut | middleware.ts:51-55 | signed out, every gated path except `/login` redirects to `/login` |
| Grouping.GroupBy | components/activity-calendar.tsx:25-35 | the grouping puts each element in the bucket of its key, in input order; the keys are `FirstKeys` of the input, each once in first-seen order, and the bucket sizes add up to the input length |
| Grouping.FirstKeys | components/matching-filters.tsx:66-69 | the keys listed are distinct and are exactly the keys some element carries |
| Grouping.FirstKeysSnoc | components/matching-filters.tsx:66-69 | one more element appends its key exactly when the key is new, as the bucket is created only then |
| Grouping.FirstKeysPrefix | components/matching-filters.tsx:79 | first-seen order: the keys of any leading part of the input are listed first, in the same order |
| Grouping.ReversedKeysRejected | components/matching-filters.tsx:79 | keys listed out of first-seen order are not a grouping: skills seen as `a` then `b` are never listed under `b`, `a` |
| Grouping.GroupStep | components/activity-calendar.tsx:29-32 | creating the bucket when missing and pushing the element keeps the grouping of one more element |
| Grouping.NewBucket | components/activity-calendar.tsx:29-32 | creating an empty bucket and pushing gives a one-element bucket |
| Grouping.GroupedMembers | components/activity-calendar.tsx:25-35 | every element is in its key's bucket |
| Grouping.KeysAppend | components/activity-calendar.tsx:27-33 | a key occurs in a list with one more element exactly when it occurred before or is the new element's key |
| Grouping.KeysPresentStep | components/activity-calendar.tsx:29-32 | the buckets' keys stay the keys of the elements seen |
| Grouping.FilterStep | components/activity-calendar.tsx:32 | a bucket gains the new element exactly when its key matches |
| Grouping.BucketsPush | components/activity-calendar.tsx:32 | pushing onto an existing bucket keeps every bucket equal to the elements with its key |
| Grouping.BucketsCreate | components/activity-calendar.tsx:29-32 | creating a bucket for a new key keeps every bucket equal to the elements with its key |
| Grouping.GroupExisting | components/matching-filters.tsx:66-69 | an element with a known key extends its group and keeps the grouping and the size count |
| Grouping.GroupNew | components/matching-filters.tsx:66-69 | an element with a new key opens a group at the end of the key order |
| Grouping.DistinctAppend | components/activity-calendar.tsx:29-31 | appending a key not yet listed keeps the keys distinct |
| Grouping.SumFrame | components/activity-calendar.tsx:25-35 | the size count depends only on the listed keys' buckets |
| Grouping.SumAppendKey | components/activity-calendar.tsx:29-31 | listing one more key adds its bucket's size |
| Grouping.SumBump | components/activity-calendar.tsx:32 | pushing onto a listed key's bucket adds one to the size count |
| Store.InsertDesc | app/activities/page.tsx:53 | inserting adds exactly one element and keeps the others |
| Store.InsertDescSorted | app/activities/page.tsx:53 | inserting into a newest-first list keeps it newest first |
| Store.SortDesc | app/activities/page.tsx:53 | `order(…, { ascending: false })` gives a newest-first permutation of the rows; the order among equal keys is the model's choice |
| Store.InsertDescDistinctBy | app/supporters/page.tsx:56 | inserting an element with a new id keeps the ids distinct |
| Store.SortDescDistinctBy | app/supporters/page.tsx:56 | sorting keeps ids distinct |
| Store.FilterSortedDesc | app/activities/page.tsx:58-67 | narrowing a newest-first list keeps it newest first |
| Store.TailSortedDesc | app/activities/page.tsx:53 | the rest of a newest-first list is newest first |
| Store.ConsSortedDesc | app/activities/page.tsx:53 | a row no older than every other row can lead a newest-first list |
| Store.SortedAnswerFiltered | app/activities/page.tsx:53-67 | filtering in the store, sorting, then narrowing gives a newest-first list holding exactly the rows both filters keep |
| Store.AnswerBag | app/activities/page.tsx:58-67 | narrowing a permutation of the store's answer gives a permutation of the rows both filters keep |
| Store.AnswerCount | app/activities/page.tsx:58-67 | the same for the number of copies of one row |
| Store.LikeAnything | app/supporters/page.tsx:44 | `%` matches every string |
| Store.LikePrefix | app/supporters/page.tsx:44 | a plain text followed by `%` matches exactly the strings starting with it |
| Store.LikeLeading | app/supporters/page.tsx:44 | a leading `%` matches when the rest of the pattern matches some suffix |
| Store.ILikeContains | app/supporters/page.tsx:44 | SQL `ILIKE '%q%'` for a plain text holds exactly when the lower-cased string contains the lower-cased text |
| Store.StarAsPercent | app/supporters/page.tsx:44 | PostgREST reads each `*` of an `ilike` value as `%` and keeps every other character in place |
| Store.StarFree | app/supporters/page.tsx:44 | a value without `*` reaches the database unchanged |
| Store.StarConcat | app/supporters/page.tsx:44 | the rewrite works character by character, so it distributes over concatenation |
| Store.StarMatchesAll | app/supporters/page.tsx:44 | a lone `*` matches every text |
| Strings.TrimStart | components/activity-filters.tsx:37 | drops exactly the leading whitespace |
| Strings.TrimEnd | components/activity-filters.tsx:37 | drops exactly the trailing whitespace |
| Strings.Trim | components/supporter-filters.tsx:32 | `trim()` is empty exactly for an all-whitespace text; otherwise it starts and ends with non-whitespace and occurs in the text |
| Strings.TrimIdempotent | components/supporter-filters.tsx:32-48 | trimming twice is trimming once |
| Strings.Includes | app/activities/page.tsx:63-65 | `includes` holds exactly when the needle occurs at some position |
| Strings.IncludesEmpty | app/activities/page.tsx:59-65 | every text includes the empty text |
| Strings.Lower | app/activities/page.tsx:60 | lower-casing maps each character and keeps the length |
| Strings.Split | app/matching/page.tsx:61 | `split(',')` gives at least one piece and no piece holds a comma |
| Strings.JoinSplit | app/matching/page.tsx:61 | joining the pieces of a split gives the text back |
| Strings.SplitJoin | components/matching-filters.tsx:24-34 | splitting a join of comma-free pieces (at least one) gives the pieces back |
| Strings.SplitNoSeparator | app/matching/page.tsx:61 | a text without the separator splits into itself |
| Strings.SplitAtSeparator | app/matching/page.tsx:61 | the first separator ends the first piece |
| Strings.JoinAvoids | components/matching-filters.tsx:33 | a character in neither the pieces nor the separator is not in the join |
| Strings.NatToString | lib/utils/calendar-utils.ts:29 | the decimal text of a number is digits with no leading zero |
| Strings.ParseNatToString | lib/utils/calendar-utils.ts:29 | the decimal text reads back as the number |
| Strings.NatToStringLength | components/activity-calendar.tsx:28 | a number below `10^k` has at most `k` digits |
| Strings.PadStart | components/activity-calendar.tsx:28 | padding puts fill characters before the text up to the width |
| Strings.ParsePadded | components/activity-calendar.tsx:28 | a zero-padded number reads back as the number |
| FormUrlEncoded.Utf8Char | lib/url-utils.ts:15 | each character takes one to four UTF-8 bytes |
| FormUrlEncoded.Utf8DecodeChar | lib/url-utils.ts:15 | decoding the bytes of one character followed by more bytes gives the character first |
| FormUrlEncoded.DecodeTwo | lib/url-utils.ts:15 | the same for two-byte characters |
| FormUrlEncoded.DecodeThree | lib/url-utils.ts:15 | the same for three-byte characters |
| FormUrlEncoded.DecodeFour | lib/url-utils.ts:15 | the same for four-byte characters |
| FormUrlEncoded.HexDigit | lib/url-utils.ts:15 | the hex digit reads back as its value |
| FormUrlEncoded.PercentEncodeAvoids | lib/url-utils.ts:15 | percent-encoded bytes never contain `&` or `=`, so pairs stay apart |
| FormUrlEncoded.PercentDecodeBytes | lib/url-utils.ts:15 | percent-decoding undoes percent-encoding of any bytes |
| FormUrlEncoded.DecodeTriple | lib/url-utils.ts:15 | `%XY` decodes to the byte it encodes |
| FormUrlEncoded.DecodeEncodedChar | lib/url-utils.ts:15 | decoding an encoded character gives its UTF-8 bytes |
| FormUrlEncoded.DecodeEncodedBytes | lib/url-utils.ts:15 | decoding an encoded text gives its UTF-8 bytes |
| FormUrlEncoded.ParseEncodedPair | lib/url-utils.ts:15 | one encoded `name=value` reads back as the pair |
| FormUrlEncoded.Named | lib/url-utils.ts:11 | the pairs with a given name all carry that name |
| FormUrlEncoded.WithoutName | lib/url-utils.ts:11 | no pair left carries the removed name |
| FormUrlEncoded.NamedWithout | lib/url-utils.ts:11 | removing a name drops exactly its pairs |
| FormUrlEncoded.NamedAppend | lib/url-utils.ts:11 | appending a pair adds it to its own name's pairs only |
| FormUrlEncoded.NamedAbsent | lib/url-utils.ts:11 | a name not present has no pairs |
| FormUrlEncoded.ReplaceFirstAbsent | lib/url-utils.ts:11 | replacing a name not present changes nothing |
| FormUrlEncoded.URLSearchParams.FromEntries | components/activity-calendar.tsx:44 | the parameters start as the given entries |

## Left out

- Store I/O: Supabase queries, inserts, updates, deletes and counts are in-memory tables and sequences. A failed call is a boolean parameter. The store's own row ids for inserts are a parameter (`newId`).
- Store rows carry only the columns the modelled pages read or write. For example, `Entities.Skill` and `Entities.ActivityStatus` have no `created_at` or `updated_at`, which the settings pages neither show nor set.
- Foreign-key and unique constraints of the database are not modelled. A delete or insert the database would reject is the same failure parameter.
- Concurrency: the `Promise.all` fan-outs (the matching counts, the filter-option loaders) are taken in sequence.
- The filter-option loaders that only pass store rows through are not modelled: `getFilterOptions` of the matching and activity pages, and the supporter form's skill and time-slot loader. The supporters page's area and skill options are modelled.
- Timezones and `new Date(...)` parsing are not modelled. An activity's date is a calendar date, and its key is its `yyyy-MM-dd` text.
- ActivitiesPage.CalendarDate: reads the calendar's `month` parameter only in `yyyy-MM-dd` form. For every other text the model fails the page, including forms that `new Date` reads (`2024-05`, `2024-05-01T09:00`, `2024-5-1`) and for which the page shows that month's rows.
- `date-fns` locale formatting beyond `yyyy-MM-dd` and `yyyy年M月` is not modelled. So are the dashboard's week ranges and `lib/utils/date-utils.ts`.
- `isHoliday` is not modelled: it depends on the `holiday_jp` dataset.
- `toLowerCase` and Zod's email regular expression are function parameters (`lower`, `isEmail`). Unicode case mapping is not modelled.
- MatchingFilters.SkillsByCategory: lists the categories in first-seen order. `Object.entries` lists them so only for ordinary names; names that read as array indices (`1`, `42`) come first, in ascending numeric order. The model does not capture that rule.
- SupportersPage.SearchIsSubstring: holds only for search text without `*`, `%`, `_` or `\`. PostgREST reads `*` as `%`, and `ILIKE` treats `%` and `_` as wildcards and `\` as an escape. Such text is modelled by `Store.StarAsPercent` and the `Like` matcher, without a substring statement.
- ActivitiesPage.GetActivities: a `date_from` or `date_to` bound outside `yyyy-MM-dd` is modelled as a store error that gives no rows (`ActivitiesPage.Readable`). Postgres also reads `2024-5-1`, `20240501` or `May 1, 2024` as a date, and the page then lists the rows on or after that day. The panel's date inputs only produce `yyyy-MM-dd`.
- FormUrlEncoded.Utf8Decode: emits one U+FFFD for each byte it cannot start a character with, where the WHATWG UTF-8 decoder emits one per maximal ill-formed subpart (`%E3%81` gives two replacement characters here and one in a browser). Text is a sequence of Unicode scalar values, so lone UTF-16 surrogates, which `URLSearchParams` turns into U+FFFD when it serialises, are not representable.
- Dates.DateKeyRoundTrip: stated for years 1 to 9999, because `yyyy` prints more than four digits outside that range, and years before 1 as era years.
- The `isLoading` flags, toasts, console logging and every rendering detail are not modelled. Neither are the presentation-only cards, badge colours and item truncation.
- The `month` and `view` handlers push a URL; the router's navigation and the page reload that follows are not modelled.
- The middleware's cookie adapter and `supabase.auth.getUser` are not modelled: a signed-in user is a boolean input. The matcher is modelled as the regular expression it denotes; Next.js's own matcher compilation is not.
- `app/service-users/page.tsx`, `components/service-user-form.tsx`, `components/activity-form*.tsx`, `app/activities/actions.ts`, `components/delete-activity-button.tsx`, `app/page.tsx`, the settings, login and layout pages are not part of this model. They are wiring, store calls and rendering.

## Findings

| source | as written | input that shows it | evidently intended | confidence | as-written member | corrected member |
|---|---|---|---|---|---|---|
| components/matching-filters.tsx:64-71 | `skillsByCategory` reduces into a plain `{}` and tests `!acc[category]`; for a category named like an inherited `Object.prototype` member, `acc[category]` is that member, which is truthy, so no array is created and `.push` is not a function | one active skill whose category is `constructor` (also `toString`, `valueOf`, …) makes the matching filter panel throw while rendering | every skill lands in its own category's group whatever the category's name (an own-property check or a `Map`) | not executed | MatchingFilters.ReduceAsWritten / MatchingFilters.ConstructorCategoryThrows | MatchingFilters.SkillsByCategory |
