# cdls-website listing and calendar logic, in Dafny

The CDLS website has three interactive pieces with real logic behind them.
This project models that logic and proves properties about it:

- **People directory** (`PeopleGrid`). It shows category chips and role
  (tag) chips drawn from fixed orders. It filters fellows by category, by tag
  and by a case-insensitive search over name, position and academic unit. It
  shows a "load more" prefix of 24. The count resets whenever the fellows or
  one of the three filters change.
- **Projects listing** (`ProjectsGrid`). It shows category chips, a single
  category filter ("all" keeps every project) and a "load more" prefix of 12.
  The count resets when the category changes.
- **Events calendar** (`GoogleCalendar`). It computes the days in a month and
  the weekday of its first day. It groups the fetched events by the date part
  of their start. It navigates between months, clearing the selection, and
  builds the `YYYY-MM-DD` key of each day cell. A click on a day selects it or
  clears the selection.

Files:

- `seqs.dfy` is an order-preserving `Filter` with its lemmas: subsequence,
  multiplicity, membership, idempotence, append.
- `strings.dfy` holds ASCII lower-casing, substring search, decimal printing
  and parsing, and `padStart`.
- `pagination.dfy` holds the shared `slice(0, visibleCount)` / `hasMore` /
  "remaining" logic.
- `people_grid.dfy` is module `People`: the pure filter functions and lemmas,
  plus a `PeopleGrid` class with the component's state.
- `projects_grid.dfy` is module `Projects` in the same shape.
- `calendar_dates.dfy` is module `CalendarDates`: Gregorian calendar
  arithmetic, month navigation, the day grid and date keys.
- `google_calendar.dfy` is module `EventsCalendar`: event keys, the
  imperative grouping loop proved against a functional grouping, selection,
  and a `GoogleCalendar` class with the component's state.

React state is modelled as class fields. Each event handler is a method. A
`useMemo` value is a function of the fields. The `setVisibleCount(PAGE_SIZE)`
inside the filtered-list memo becomes a reset in every method that changes a
dependency of that memo.

Two React rules shape those methods:

- A `setState` with the value already held does not change the dependency,
  so re-choosing the current chip keeps the count.
- New props are a new array, so `SetFellows` and `SetProjects` always reset.

## Model

| member | source | states |
|---|---|---|
| People.AvailableCategories | src/app/people/PeopleGrid.tsx:49-52 | Every chip is a category some fellow has, and there are at most six. The full characterisation is People.AvailableCategoriesSpec. |
| People.AvailableTags | src/app/people/PeopleGrid.tsx:54-57 | Every chip is a tag some fellow carries, and there are at most seven. The full characterisation is People.AvailableTagsSpec. |
| People.FilterFellows | src/app/people/PeopleGrid.tsx:59-73 | No more fellows than the input, each passing all three tests. The full characterisation is People.FilterFellowsSpec. |
| People.AvailableCategoriesSpec | src/app/people/PeopleGrid.tsx:49-52 | The category chips are a subsequence of the fixed category order, have no duplicates, and hold exactly the listed categories that some fellow has. |
| People.AvailableTagsSpec | src/app/people/PeopleGrid.tsx:54-57 | The role chips are a subsequence of the fixed tag order, have no duplicates, and hold exactly the listed tags that some fellow carries. An absent tag list counts as empty. |
| People.AllTagsMember | src/app/people/PeopleGrid.tsx:55 | A tag occurs in the flattened tag list exactly when some fellow's tag list contains it. |
| People.FilterFellowsSpec | src/app/people/PeopleGrid.tsx:59-73 | The filtered list is an order-preserving subsequence of the fellows. A fellow is in it exactly when it passes the category, tag and search tests together. |
| People.FilterFellowsComplete | src/app/people/PeopleGrid.tsx:61-72 | Every fellow that passes appears in the result as often as in the input. Every fellow that fails appears zero times. |
| People.FilteredByCategory | src/app/people/PeopleGrid.tsx:62 | With a category chosen, every listed fellow has exactly that category. |
| People.FilteredByTag | src/app/people/PeopleGrid.tsx:63 | With a tag chosen, every listed fellow has a tag list that contains the tag. |
| People.MatchesSearchIff | src/app/people/PeopleGrid.tsx:64-70 | A non-empty query matches exactly when the lower-cased query occurs at some position of the lower-cased name, position or academic unit. Absent fields never match. |
| People.SearchIgnoresCase | src/app/people/PeopleGrid.tsx:65 | A query and its lower-case form keep the same fellows. |
| People.NoFiltersKeepAll | src/app/people/PeopleGrid.tsx:59-73 | With "all", "all" and an empty query, the filtered list is the whole input. |
| People.FilterFellowsIdempotent | src/app/people/PeopleGrid.tsx:59-73 | Filtering the filtered list again with the same selection changes nothing. |
| People.PeopleGrid.constructor | src/app/people/PeopleGrid.tsx:43-47 | Initial state: both chips on "all", an empty query, and a count of 24. |
| People.PeopleGrid.Shown | src/app/people/PeopleGrid.tsx:75 | The visible fellows are a prefix of the filtered list of length min(count, filtered length). In every reachable state they are empty exactly when the filtered list is. |
| People.PeopleGrid.More | src/app/people/PeopleGrid.tsx:76 | The load-more button is offered exactly when the visible prefix is not the whole filtered list. In every reachable state, after k presses since the last reset, it is offered exactly when (k + 1) * 24 is below the filtered length. |
| People.PeopleGrid.Left | src/app/people/PeopleGrid.tsx:170 | When the button is offered, the "remaining" number is positive and equals the number of hidden fellows. |
| People.PeopleGrid.CategoryChips | src/app/people/PeopleGrid.tsx:49-52 | The category chips of the current fellows have no duplicates and are exactly the listed categories some current fellow has. |
| People.PeopleGrid.TagChips | src/app/people/PeopleGrid.tsx:54-57 | The role chips of the current fellows have no duplicates and are exactly the listed tags some current fellow carries. |
| People.PeopleGrid.SelectCategory | src/app/people/PeopleGrid.tsx:95-107 | The category becomes the chosen one. The count resets to 24 only when the category changed. Nothing else changes. |
| People.PeopleGrid.SelectTag | src/app/people/PeopleGrid.tsx:124-136 | The tag becomes the chosen one. The count resets to 24 only when the tag changed. Nothing else changes. |
| People.PeopleGrid.SetSearchQuery | src/app/people/PeopleGrid.tsx:86 | The query becomes the typed text. The count resets to 24 only when the text changed. Nothing else changes. |
| People.PeopleGrid.ClearFilters | src/app/people/PeopleGrid.tsx:180-184 | All three filters are cleared, so the filtered list is every fellow. The count resets when any filter was set. |
| People.PeopleGrid.SetFellows | src/app/people/PeopleGrid.tsx:59-73 | New fellows always reset the count to 24 and keep the filters. |
| People.PeopleGrid.LoadMore | src/app/people/PeopleGrid.tsx:165 | The count grows by 24 and the press is counted. The filtered list is unchanged. What was shown stays a prefix of what is shown next, which is min(old shown + 24, filtered length) long. |
| Pagination.Visible | src/app/people/PeopleGrid.tsx:75 | `slice(0, count)` is a prefix of length min(count, length). It is shorter than the list exactly when the count is. |
| Pagination.HasMore | src/app/people/PeopleGrid.tsx:76 | No contract of its own; its meaning is proved in Pagination.HasMoreIff. |
| Pagination.Remaining | src/app/people/PeopleGrid.tsx:170 | No contract of its own; its meaning is proved in Pagination.RemainingIsHidden. |
| Pagination.HasMoreIff | src/app/projects/ProjectsGrid.tsx:46-47 | `hasMore` holds exactly when the visible prefix is not the whole list. |
| Pagination.RemainingIsHidden | src/app/projects/ProjectsGrid.tsx:101 | When more is offered, the remaining count is positive and equals the number of hidden items. |
| Pagination.LoadMoreExtends | src/app/projects/ProjectsGrid.tsx:96 | One more page only appends. The old prefix stays a prefix, and the new length is min(old + page, length). |
| Pagination.NonEmptyShowsSome | src/app/people/PeopleGrid.tsx:155 | For every count that is a positive multiple of the page size, the visible list is empty exactly when the filtered list is. |
| Pagination.LoadsFromReset | src/app/people/PeopleGrid.tsx:165 | After k presses following a reset the count is (k + 1) times the page size. More is offered exactly when that is below the filtered length. |
| Projects.AvailableCategories | src/app/projects/ProjectsGrid.tsx:35-38 | Every chip is a category some project has, and there are at most four. The full characterisation is Projects.AvailableCategoriesSpec. |
| Projects.FilterProjects | src/app/projects/ProjectsGrid.tsx:40-44 | No more projects than the input; with a category chosen, each has that category. The full characterisation is Projects.FilterProjectsSpec. |
| Projects.AvailableCategoriesSpec | src/app/projects/ProjectsGrid.tsx:35-38 | The category chips are a subsequence of the fixed order, have no duplicates, and hold exactly the listed categories that some project has. |
| Projects.FilterProjectsAll | src/app/projects/ProjectsGrid.tsx:42 | With "all" selected, the filtered list is the input projects unchanged. |
| Projects.FilterProjectsSpec | src/app/projects/ProjectsGrid.tsx:43 | With a category chosen, the result is an order-preserving subsequence in which every project has that category. Every project of that category appears as often as in the input, so a project is listed exactly when it is in the input with that category. |
| Projects.FilterProjectsIdempotent | src/app/projects/ProjectsGrid.tsx:40-44 | Filtering again with the same category changes nothing. |
| Projects.ProjectsGrid.constructor | src/app/projects/ProjectsGrid.tsx:31-33 | Initial state: category "all" and a count of 12. |
| Projects.ProjectsGrid.Shown | src/app/projects/ProjectsGrid.tsx:46 | The visible projects are a prefix of the filtered list of length min(count, filtered length). In every reachable state they are empty exactly when the filtered list is. |
| Projects.ProjectsGrid.More | src/app/projects/ProjectsGrid.tsx:47 | Load more is offered exactly when the visible prefix is not the whole filtered list. In every reachable state, after k presses since the last reset, it is offered exactly when (k + 1) * 12 is below the filtered length. |
| Projects.ProjectsGrid.Left | src/app/projects/ProjectsGrid.tsx:101 | When offered, the remaining number is positive and counts the hidden projects. |
| Projects.ProjectsGrid.CategoryChips | src/app/projects/ProjectsGrid.tsx:35-38 | The category chips of the current projects have no duplicates and are exactly the listed categories some current project has. |
| Projects.ProjectsGrid.SelectCategory | src/app/projects/ProjectsGrid.tsx:55-67 | The category becomes the chosen one. The count resets to 12 only when the category changed. |
| Projects.ProjectsGrid.SetProjects | src/app/projects/ProjectsGrid.tsx:40-44 | New projects always reset the count to 12 and keep the category. |
| Projects.ProjectsGrid.LoadMore | src/app/projects/ProjectsGrid.tsx:96 | The count grows by 12 and the press is counted. The category and projects are unchanged. The shown list only grows at its end. |
| CalendarDates.DaysInMonth | src/components/events/GoogleCalendar.tsx:23-25 | A month has 28 to 31 days. |
| CalendarDates.DaysInMonthIsGap | src/components/events/GoogleCalendar.tsx:23-25 | The days in a month equal the gap between the first of that month and the first of the next, which is how day 0 of the next month finds the last day. |
| CalendarDates.YearLength | src/components/events/GoogleCalendar.tsx:23-25 | A year has 366 days exactly when it is a Gregorian leap year, and 365 otherwise. |
| CalendarDates.FirstDayOfMonth | src/components/events/GoogleCalendar.tsx:27-29 | The weekday of the first is 0 to 6, with 0 for Sunday. |
| CalendarDates.FirstDayAdvance | src/components/events/GoogleCalendar.tsx:27-29 | The next month's first weekday is this month's first weekday plus this month's length, modulo 7. |
| CalendarDates.KnownDates | src/components/events/GoogleCalendar.tsx:23-29 | Leap and common Februaries (2024, 2023, 2000, 1900) are right, and 1970-01-01, 2024-01-01 and 2026-10-01 fall on their known weekdays. |
| CalendarDates.NextMonth | src/components/events/GoogleCalendar.tsx:91-99 | The result is a valid month exactly one month later; December wraps to January of the next year. |
| CalendarDates.PrevMonth | src/components/events/GoogleCalendar.tsx:81-89 | The result is a valid month exactly one month earlier; January wraps to December of the previous year. |
| CalendarDates.NavigationInverse | src/components/events/GoogleCalendar.tsx:81-99 | Previous after next, and next after previous, return to the same month. |
| CalendarDates.MonthIndexInjective | src/components/events/GoogleCalendar.tsx:81-99 | Two valid (year, month) pairs with the same month count are equal, so the shifts above fix the result. |
| CalendarDates.MonthGrid | src/components/events/GoogleCalendar.tsx:144-151 | The grid has as many blank cells as the weekday of the first, then cell k holds day k for every day of the month, and nothing else. |
| CalendarDates.GridColumnIsWeekday | src/components/events/GoogleCalendar.tsx:144-151 | Each day's cell holds that day, and its column in the seven-column grid is its weekday. |
| CalendarDates.DateKey | src/components/events/GoogleCalendar.tsx:151 | No contract of its own; its properties are proved in CalendarDates.DateKeyRoundTrip, DateKeyInjective and DateKeyCharacters. |
| CalendarDates.DateKeyRoundTrip | src/components/events/GoogleCalendar.tsx:151 | Every cell key parses back into its year, zero-based month and day. |
| CalendarDates.DateKeyInjective | src/components/events/GoogleCalendar.tsx:151-154 | Two cells have equal keys only if they are the same day, so at most one cell is selected. |
| CalendarDates.DateKeyCharacters | src/components/events/GoogleCalendar.tsx:151 | A key has only digits and dashes, and in particular no `T`. |
| Strings.Lower | src/app/people/PeopleGrid.tsx:65-68 | `toLowerCase` keeps the length, maps each ASCII capital to its small letter and leaves every other character alone, so no capital remains. |
| Strings.LowerIdempotent | src/app/people/PeopleGrid.tsx:65-68 | Lower-casing an already lower-cased text changes nothing. |
| Strings.Includes | src/app/people/PeopleGrid.tsx:66-68 | No contract of its own; its meaning is proved in Strings.IncludesIff. |
| Strings.IncludesIff | src/app/people/PeopleGrid.tsx:66-68 | `includes` holds exactly when the searched text occurs at some position, in both directions. |
| Strings.TwoDigitsValue | src/components/events/GoogleCalendar.tsx:151 | `String(n).padStart(2, '0')` of n below 100 is two digits whose value is n. |
| Strings.IntToStringRoundTrip | src/components/events/GoogleCalendar.tsx:151 | The decimal form of the year parses back to the year, negative years included. |
| CalendarDates.JsDaysInMonth | src/components/events/GoogleCalendar.tsx:23-25 | The code as written still gives 28 to 31 days; how it differs is in CalendarDates.TwoDigitYearMisread. |
| CalendarDates.JsFirstDayOfMonth | src/components/events/GoogleCalendar.tsx:27-29 | The code as written still gives a weekday 0 to 6; how it differs is in CalendarDates.TwoDigitYearMisread. |
| CalendarDates.TwoDigitYearMisread | src/components/events/GoogleCalendar.tsx:23-29 | As written, year 0 is read as 1900: February gets 28 days and not 29, and January starts on Monday and not Saturday. |
| CalendarDates.JsAgreesOutsideTwoDigitYears | src/components/events/GoogleCalendar.tsx:23-29 | Outside years 0 to 99 the code as written agrees with the Gregorian definitions. |
| EventsCalendar.StartString | src/components/events/GoogleCalendar.tsx:68-69 | `dateTime \|\| date` is absent exactly when both are missing or empty. When present it is non-empty. |
| EventsCalendar.BeforeT | src/components/events/GoogleCalendar.tsx:70 | `split('T')[0]` is the longest `T`-free prefix: a prefix with no `T`, followed by the end or a `T`. |
| EventsCalendar.BeforeTOf | src/components/events/GoogleCalendar.tsx:70 | A `T`-free part followed by nothing or by `T…` has that part as its key. |
| EventsCalendar.EventKey | src/components/events/GoogleCalendar.tsx:68-70 | An event has a key exactly when it has a start string; the key is a `T`-free prefix of that string. |
| EventsCalendar.SameDaySameKey | src/components/events/GoogleCalendar.tsx:67-73 | Two events on the same day at different times land in the same bucket. |
| EventsCalendar.ByDate | src/components/events/GoogleCalendar.tsx:65-75 | No contract of its own; its properties are proved in EventsCalendar.ByDateBuckets, KeyOrderKeys and GroupedTotal. |
| EventsCalendar.GroupByDate | src/components/events/GoogleCalendar.tsx:65-75 | The imperative `forEach` loop returns exactly the functional grouping `ByDate`. |
| EventsCalendar.GroupStep | src/components/events/GoogleCalendar.tsx:68-72 | One pass through the loop body turns the grouping of the events seen so far into the grouping of one more event. |
| EventsCalendar.ByDateSnocDated | src/components/events/GoogleCalendar.tsx:71-72 | Adding an event with a key appends it to the end of that key's bucket, creating the bucket if needed, and leaves all other buckets as they were. |
| EventsCalendar.ByDateSnocUndated | src/components/events/GoogleCalendar.tsx:69 | Adding an event without a start leaves the grouping unchanged. |
| EventsCalendar.ByDateBuckets | src/components/events/GoogleCalendar.tsx:65-75 | A key is present exactly when some event has it. Its bucket is non-empty, an order-preserving subsequence, holds only events with that key, and holds each of them as often as the input. |
| EventsCalendar.UndatedEventsSkipped | src/components/events/GoogleCalendar.tsx:69 | An event with no start string is in no bucket. |
| EventsCalendar.KeyOrderKeys | src/components/events/GoogleCalendar.tsx:65-75 | The keys in first-occurrence order have no duplicates, and they are exactly the keys of the grouping. |
| EventsCalendar.GroupedTotal | src/components/events/GoogleCalendar.tsx:65-75 | The keys in first-occurrence order name each bucket exactly once. Together the buckets hold as many entries as there are events with a start. |
| EventsCalendar.Toggle | src/components/events/GoogleCalendar.tsx:154-160 | A click selects the clicked day, or clears the selection when that day was already selected. |
| EventsCalendar.ToggleTwice | src/components/events/GoogleCalendar.tsx:160 | Clicking the same day twice returns to no selection, or to that day, whichever came first. |
| EventsCalendar.SelectedEventsOf | src/components/events/GoogleCalendar.tsx:101 | No selection, or a selected day without a bucket, gives an empty list. The full characterisation is EventsCalendar.SelectedEventsAreThatDay. |
| EventsCalendar.SelectedEventsAreThatDay | src/components/events/GoogleCalendar.tsx:101 | For a selected day, the listed events are exactly the events whose key is that day, in their original order. The list is empty when no event has that key. |
| EventsCalendar.EventListedOnItsDay | src/components/events/GoogleCalendar.tsx:151-152 | An event whose start is a cell's key, alone or followed by `T` and a time, is listed on that cell. |
| EventsCalendar.GoogleCalendar.constructor | src/components/events/GoogleCalendar.tsx:39-43 | The component mounts on today's month, with no events and nothing selected. |
| EventsCalendar.GoogleCalendar.ReceiveEvents | src/components/events/GoogleCalendar.tsx:58 | Received items replace the events, and the grouping is recomputed to match them. |
| EventsCalendar.GoogleCalendar.PrevMonth | src/components/events/GoogleCalendar.tsx:81-89 | The shown month steps back one month, with a wrap at January, and the selection is cleared. |
| EventsCalendar.GoogleCalendar.NextMonth | src/components/events/GoogleCalendar.tsx:91-99 | The shown month steps forward one month, with a wrap at December, and the selection is cleared. |
| EventsCalendar.GoogleCalendar.ClickDay | src/components/events/GoogleCalendar.tsx:151-160 | The selection toggles on the clicked cell's key. The shown month and the events are unchanged. |
| EventsCalendar.GoogleCalendar.DayEvents | src/components/events/GoogleCalendar.tsx:152 | A cell's events are exactly the fetched events whose key is that cell's date, in their original order. |
| EventsCalendar.GoogleCalendar.SelectedEvents | src/components/events/GoogleCalendar.tsx:101 | With no selection the list is empty. Otherwise, for a non-empty key, it is the fetched events whose key is the selected date. |

## Left out

- Fetching (`fetch` of the Google Calendar API and of the CMS), the loading flag and the URL/time-range construction are I/O. `ReceiveEvents` takes the resolved items as a parameter. Out-of-order responses after fast navigation are not modelled.
- Rendering is not modelled: CSS classes, labels, animations, the "+N more" / first-two-events preview in a cell, and the month and day names.
- `toLocaleTimeString` / date formatting (`formatTime`) is locale-dependent and not modelled.
- `todayStr` / `isToday` read the clock. The constructor takes today's month as a parameter, and the highlight of today's cell is not modelled.
- Image URL builders (`getSanityImageUrl`) and the card components are not modelled.
- People.MatchesSearchIff, Strings.Lower: lower-casing is ASCII only (`A`-`Z`); JavaScript's full Unicode `toLowerCase` is not modelled.
- People.PeopleGrid.SetFellows: React compares props by array identity. The model treats every new props value as a change, which matches how a server page passes freshly built arrays.
- A fellow whose `name` is missing would make the source throw on `name.toLowerCase()`. The model's `name` is a required string, as in the record type.
- EventsCalendar.GroupByDate: the source's buckets live in a plain JavaScript object. A key equal to an inherited property name such as `constructor` would behave differently there. The model uses a map, which a real date key never reaches.
- JavaScript `Date` works with floating point and only in the range of ±100,000,000 days. The model's years are unbounded integers.
- The `useEffect` dependency on the shown month that triggers a refetch is outside the model, with the rest of fetching.

## Findings

| source | as written | input that shows it | evidently intended | confidence | as-written member | corrected member |
|---|---|---|---|---|---|---|
| src/components/events/GoogleCalendar.tsx:23-29 | `new Date(year, month + 1, 0)` and `new Date(year, month, 1)` read years 0 to 99 as 1900 to 1999 | `currentYear` 0, `currentMonth` 1 (reached by stepping back month by month from today) gives 28 days where the Gregorian calendar gives 29; January of year 0 starts on Monday where it should start on Saturday | the Gregorian month length and first weekday of the year actually shown | low impact, needs about 24,000 "previous month" clicks; not executed | CalendarDates.TwoDigitYearMisread | CalendarDates.DaysInMonthIsGap |

The as-written behaviour is `CalendarDates.JsDaysInMonth` and
`CalendarDates.JsFirstDayOfMonth`. The corrected definitions are
`CalendarDates.DaysInMonth` and `CalendarDates.FirstDayOfMonth`. Their
properties are proved in `DaysInMonthIsGap`, `YearLength`, `FirstDayAdvance`
and `KnownDates`, and `JsAgreesOutsideTwoDigitYears` shows that the two agree
everywhere else. The rest of the model uses the corrected definitions.

Keys are the text before the first `T` of the start string as it arrives,
with no time-zone conversion (`EventsCalendar.BeforeT`).
