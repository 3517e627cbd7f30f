# SkillDossier client logic in Dafny

SkillDossier is a single-page app for browsing mentors. It works from a seeded
dataset: seven mentors, six skill categories and four learning paths.

- **Mentor page:** keeps a search term, a skill selection, an availability
  filter and a sort key, and shows the mentors that pass all three filters, in
  sorted order. Deep links carrying `mentor=<id>` open the connection dialog on
  that mentor.
- **Learning-path page:** highlights the path named in `path=<id>` and derives
  each path's completed skills from a fixed progress table.
- **Dashboard:** links into both pages. It also shows totals and the first few
  mentors, paths and categories.
- **Shell:** debounces the header search box, marks the active navigation
  entry and titles the page.
- **Notification panel:** counts unread items, marks them read and removes
  them.
- **Settings page:** edits a profile, flips notification switches and picks a
  session timeout.

The model has one module per source file:

| module | models |
|---|---|
| `Data` | `mentors.ts` |
| `MentorsPage` and `MentorSort` | `Mentors.tsx` |
| `LearningPathsPage` | `LearningPaths.tsx` |
| `Dashboard` | `Dashboard.tsx` |
| `Notifications` | `NotificationSystem.tsx` |
| `Layout` | `Layout.tsx` |
| `ConnectionModal` | `ConnectionModal.tsx` |
| `SettingsPage` | `Settings.tsx` |

Three shared modules hold what the JavaScript runtime provides:

- `Strings`: JavaScript whitespace and `trim`, ASCII `toLowerCase`,
  `includes`, code-point ordering, `split`, number formatting, and `parseInt`
  as section 19.2.5 of ECMA-262 defines it, with `NaN` as `None`.
- `Url`: `URLSearchParams` as a sequence of name/value pairs with `get` and
  `set`, and building and parsing hrefs.
- `StableSort`: a stable insertion sort over a three-way comparator.

`Common` holds the generic filter, the "first n plus a +k badge" slices, and
the `Option` type.

React state becomes immutable values. Each event handler becomes a function
from the old state to the new one. A `useEffect` on the URL becomes a function
from the query parameters and the view to the new view.

Behaviour worth knowing:

- **Search is not trimmed.** The search term is matched as typed:
  `"Ann "` does not match "Ann" (`MentorsPage.SearchIsNotTrimmed`).
- **The `category` parameter filters nothing.** The mentor page computes a
  candidate list, and then only rewrites `category` to the value it already
  held. The parameter never reaches the filter
  (`MentorsPage.UrlParamsKeepFilters`, `Dashboard.CategoryClickChangesNothing`).
- **Seeded `progress` is unused.** Every seeded path has `progress: 0`. The
  page ignores that field and reads a fixed table instead, giving 25, 0, 60
  and 15 percent.
- **Category counts come from a different list.** A category's `mentors`
  count is computed from a list written next to it, not from the category's
  own `skills`. For Backend and Product the two counts differ
  (`Data.SeedCategoryCounts`).
- **The dialog keeps its state.** The connection dialog does not reset its
  state after a request is sent (`ConnectionModal.SubmitKeepsForm`).

Ratings are held in tenths (4.8 is 48), so every comparison is on integers.

## Model

| member | source | states |
|---|---|---|
| Common.Filter | src/pages/Mentors.tsx:64-79 | `Array.filter`: the result is a subsequence of the input, no longer than it, whose members are exactly the input's members satisfying the predicate |
| Common.FilterCounts | src/pages/Mentors.tsx:64-79 | each value satisfying the predicate occurs in the result exactly as often as in the input, and any other value not at all |
| Common.FilterSame | src/pages/Mentors.tsx:64-79 | two predicates that agree on every element of the list filter it to the same result |
| Common.FilterConcat | src/pages/Mentors.tsx:64-79 | filtering a concatenation is the concatenation of the filtered parts |
| Common.FilterKeepsAllIff | src/pages/Mentors.tsx:64-79 | the filter returns the whole list exactly when every element passes |
| Common.TakeAndBadgeCoverList | src/pages/Mentors.tsx:332-348 | the shown slice plus the "+k" badge count every element once, and no badge appears exactly when nothing was cut |
| Common.Find | src/pages/Mentors.tsx:32 | `find` returns the first element carrying the key, and nothing exactly when no element carries it |
| Data.SeedMentorIds | src/data/mentors.ts:39-159 | the seed has seven mentors with distinct ids 1, 2, 3, 4, 6, 7, 8; no mentor has id 5 |
| Data.SeedAvailability | src/data/mentors.ts:48-150 | every seeded mentor is "Available" or "Limited" |
| Data.SeedAvailableSpelling | src/data/mentors.ts:48-150 | the seeded mentors spelled "Available" are, in order, the first, third, fourth, fifth and seventh |
| Data.SeedLimitedSpelling | src/data/mentors.ts:48-150 | the seeded mentors spelled "Limited" are, in order, the second and the sixth |
| Data.YearsParse | src/data/mentors.ts:51-153 | `parseInt` reads an "N years" text back as N |
| Data.SeedExperience | src/data/mentors.ts:51-153 | `parseInt` reads the seeded experience texts as 10, 12, 6, 7, 9, 11 and 8 |
| Data.IntersectsIff | src/data/mentors.ts:168 | `a.some(s => b.includes(s))` holds exactly when some element of a is in b |
| Data.SeedCategoryCounts | src/data/mentors.ts:161-210 | six categories with ids 1 to 6; each count equals the number of mentors sharing a skill with the list written beside it; for Backend and Product that count differs from the one their own skills would give |
| Data.SeedPathShape | src/data/mentors.ts:212-253 | four paths, ids 1 to 4, five skills each, stored progress 0 |
| Data.SeedPathMentors | src/data/mentors.ts:212-253 | each path's mentor list is the skill match against the list written beside it |
| Strings.TrimEmptyIffAllSpace | src/components/Layout.tsx:89 | `trim()` yields the empty string exactly when every character is JavaScript whitespace |
| Strings.Trim | src/components/Layout.tsx:89 | the trimmed text is a slice of the input with only JavaScript whitespace before and after it, and it neither starts nor ends with whitespace |
| Strings.LowerIdempotent | src/pages/Mentors.tsx:66-69 | lower-casing twice is lower-casing once |
| Strings.IncludesIffOccurs | src/pages/Mentors.tsx:66-69 | `includes` holds exactly when the needle occurs at some position |
| Strings.LexCompareAntisymmetric | src/pages/Mentors.tsx:90 | swapping the operands negates the name comparison |
| Strings.LexCompareZeroIffEqual | src/pages/Mentors.tsx:90 | the name comparison is 0 exactly for equal names |
| Strings.LexLessTransitive | src/pages/Mentors.tsx:90 | the name order is transitive |
| Strings.SplitJoin | src/components/ConnectionModal.tsx:173 | splitting a join of separator-free pieces returns the pieces |
| Strings.Split | src/components/ConnectionModal.tsx:173 | `split` gives at least one piece, and no piece holds the separator |
| Strings.FirstWordIsSplitHead | src/components/ConnectionModal.tsx:173 | `split(' ')[0]` is the name up to its first space |
| Strings.ParseIntOfIntToString | src/pages/Mentors.tsx:32 | `parseInt` reads back any integer's decimal text, negative ones included |
| Strings.ParseIntOfNatPrefix | src/pages/Mentors.tsx:88 | `parseInt` of a number's digits followed by a non-digit, non-`x` suffix is that number |
| Strings.ParseIntNeedsDigit | src/pages/Mentors.tsx:32 | a text with no decimal digit parses to NaN |
| Url.Get | src/pages/Mentors.tsx:28-29 | `get` is null exactly when no pair has the name, and otherwise returns the value of the first pair with that name |
| Url.Set | src/pages/Mentors.tsx:47-49 | after `set`, `get` gives the new value, exactly one pair has the name, and the pairs with other names are unchanged in order |
| Url.SetAppends | src/pages/Mentors.tsx:47-49 | with no pair of that name, `set` appends the new pair at the end and changes nothing else |
| Url.SetOverwritesFirst | src/pages/Mentors.tsx:47-49 | with a pair of that name, `set` gives the first one the new value in its place, keeps everything before it, and drops the later pairs of that name |
| Url.SetCurrentValueIsIdentity | src/pages/Mentors.tsx:47-49 | setting the single pair of a name to its current value changes nothing |
| Url.SetKeepsOtherNames | src/pages/Mentors.tsx:47-49 | setting one name leaves `get` of every other name unchanged |
| Url.HrefRoundTrip | src/pages/Dashboard.tsx:25-35 | parsing a built href returns its path and its pairs, when no name or value holds `&` or `=` |
| StableSort.SortSorted | src/pages/Mentors.tsx:81-94 | with a total comparator, the sort leaves every adjacent pair in order |
| StableSort.SortStable | src/pages/Mentors.tsx:81-94 | with a comparator whose ties are transitive, the elements tied with any p keep their input order |
| StableSort.SortAllTied | src/pages/Mentors.tsx:81-94 | a comparator that ties everything leaves the list as it was |
| StableSort.Sort | src/pages/Mentors.tsx:81-94 | the sort returns a permutation of its input |
| StableSort.SortStrict | src/pages/Mentors.tsx:55-61 | with a total comparator that ties only equal elements, the sort of a duplicate-free list is strictly increasing |
| MentorSort.KeyOf | src/pages/Mentors.tsx:81-94 | the sort key is rating, students, experience or name exactly for those four strings, and otherwise none |
| MentorSort.SortMentors | src/pages/Mentors.tsx:81-94 | the sorted list is a permutation of its input |
| MentorSort.CompareMeaning | src/pages/Mentors.tsx:81-94 | rating, students and experience order descending and name ascending; a NaN experience or an unknown key compares equal |
| MentorSort.SortUnknownKey | src/pages/Mentors.tsx:81-94 | an unknown sort key leaves the filtered order unchanged |
| MentorSort.KnownKeysConsistent | src/pages/Mentors.tsx:81-94 | each of the four comparators is total, transitive and has transitive ties (experience when every text parses) |
| MentorSort.SortByRating | src/pages/Mentors.tsx:83-84 | sorting by rating leaves ratings non-increasing |
| MentorSort.SortByStudents | src/pages/Mentors.tsx:85-86 | sorting by students leaves student counts non-increasing |
| MentorSort.SortByExperience | src/pages/Mentors.tsx:87-88 | sorting by experience leaves the parsed years non-increasing |
| MentorSort.SortByName | src/pages/Mentors.tsx:89-90 | sorting by name leaves the names non-decreasing |
| MentorSort.SortMentorsStable | src/pages/Mentors.tsx:81-94 | mentors that compare equal keep their relative order |
| MentorsPage.FilteredMentors | src/pages/Mentors.tsx:64-97 | a mentor is shown exactly when it is seeded and passes the search, skill and availability filters; each passing mentor is shown as often as it is seeded |
| MentorsPage.FilteredMentorsOrder | src/pages/Mentors.tsx:64-97 | the shown list is sorted by the chosen key, and is in seed order for an unknown key |
| MentorsPage.FilteredMentorsStable | src/pages/Mentors.tsx:81-94 | passing mentors that tie under the key appear in seed order |
| MentorsPage.MatchesSearch | src/pages/Mentors.tsx:66-69 | the empty search term matches every mentor |
| MentorsPage.MatchesSearchIff | src/pages/Mentors.tsx:66-69 | the search matches exactly when the lower-cased term occurs at some position of the lower-cased name, title or company, or of some lower-cased skill |
| MentorsPage.SearchIgnoresCase | src/pages/Mentors.tsx:66-69 | a term and its lower-cased form match the same mentors |
| MentorsPage.SearchIsNotTrimmed | src/pages/Mentors.tsx:66-69 | a trailing space in the term stops a match that the term without it makes |
| MentorsPage.MatchesAvailability | src/pages/Mentors.tsx:74-75 | "all" passes every mentor; any other filter passes exactly when it has the availability's length and agrees with it letter by letter up to ASCII case |
| MentorsPage.AvailableOption | src/pages/Mentors.tsx:74-75 | the option value "available" passes a mentor spelled "Available" and "limited" does not |
| MentorsPage.LimitedOption | src/pages/Mentors.tsx:74-75 | the option value "limited" passes a mentor spelled "Limited" and "available" does not |
| MentorsPage.AvailabilityOptions | src/pages/Mentors.tsx:64-79 | over mentors spelled "Available" or "Limited", choosing only a lower-case option keeps exactly the mentors with that spelling |
| MentorsPage.SeedAvailabilityOptions | src/pages/Mentors.tsx:193-195 | on the seed, "available" lists the five Available mentors and "limited" the two Limited ones, in seed order |
| MentorsPage.MatchesSkills | src/pages/Mentors.tsx:71-72 | the skill filter passes exactly when nothing is selected or some selected skill is the mentor's |
| MentorsPage.DefaultsKeepEveryone | src/pages/Mentors.tsx:117-122 | after clearing the filters every mentor passes and the list is the rating sort of the seed |
| MentorsPage.HiddenClearKeepsEveryone | src/pages/Mentors.tsx:217 | whenever the clear button is hidden, no mentor is filtered out; the cleared state hides it |
| MentorsPage.ShowClear | src/pages/Mentors.tsx:217 | when the clear button is hidden, every mentor passes the filters |
| MentorsPage.ToggleSkill | src/pages/Mentors.tsx:99-105 | toggling adds the skill exactly when it was absent and leaves every other skill's membership alone |
| MentorsPage.ToggleKeepsNoDup | src/pages/Mentors.tsx:99-105 | toggling keeps the selection free of duplicates |
| MentorsPage.ToggleTwice | src/pages/Mentors.tsx:99-105 | toggling an unselected skill twice restores the selection |
| MentorsPage.SkillsOf | src/pages/Mentors.tsx:55-61 | a skill is collected exactly when some mentor has it |
| MentorsPage.AllSkillsSpec | src/pages/Mentors.tsx:55-61 | the skill list is duplicate-free, holds exactly the mentors' skills and is strictly sorted |
| MentorsPage.SkillChipsCover | src/pages/Mentors.tsx:159-180 | the eight chips and the "+k more" badge account for every skill |
| MentorsPage.CardSkillsCover | src/pages/Mentors.tsx:332-348 | a card's four skills and its "+k" badge account for all its skills; the badge shows exactly above four |
| MentorsPage.FindMentor | src/pages/Mentors.tsx:32 | `find` succeeds exactly when some mentor has the parsed id, and returns a mentor with that id |
| MentorsPage.FindCategory | src/pages/Mentors.tsx:43 | `find` succeeds exactly when some category has the parsed id, and returns one with that id |
| MentorsPage.ApplyMentorParam | src/pages/Mentors.tsx:27-37 | the `mentor` branch leaves filters and query alone, and changes the selection or the dialog only by opening it on a seeded mentor |
| MentorsPage.ApplyCategoryParam | src/pages/Mentors.tsx:39-51 | the `category` branch leaves filters, selection and dialog alone, keeps what `get` reads for `category`, and changes the query only by `set` of `category` to its current value |
| MentorsPage.ApplyUrlParams | src/pages/Mentors.tsx:27-52 | the effect keeps the filters and what `get` reads for `mentor` and `category` |
| MentorsPage.MentorParamOpensModal | src/pages/Mentors.tsx:27-37 | a non-empty `mentor` value naming a seeded mentor opens the dialog on that mentor; any other value leaves the dialog as it was |
| MentorsPage.UrlParamsKeepFilters | src/pages/Mentors.tsx:39-51 | reacting to the URL never changes the filters or the shown list |
| MentorsPage.CategoryParamRewritesInPlace | src/pages/Mentors.tsx:39-51 | the category branch leaves every `get` and every other pair unchanged, and with at most one `category` pair the whole query |
| MentorsPage.UrlParamsIdempotent | src/pages/Mentors.tsx:27-52 | reacting to the URL a second time changes nothing more |
| MentorsPage.ConnectMentor | src/pages/Mentors.tsx:107-110 | connecting selects the mentor and opens the dialog, keeping filters and query |
| MentorsPage.CloseModal | src/pages/Mentors.tsx:112-115 | closing clears the selection and the dialog, keeping filters and query |
| MentorsPage.ConnectThenClose | src/pages/Mentors.tsx:107-115 | connecting and then closing ends where closing alone does |
| LearningPathsPage.ProgressOf | src/pages/LearningPaths.tsx:33-41 | progress is a percentage, and non-zero only for ids 1 to 4 |
| LearningPathsPage.FindPath | src/pages/LearningPaths.tsx:45 | the lookup succeeds exactly when some path has the id, and returns a path with that id |
| LearningPathsPage.CompletedSkills | src/pages/LearningPaths.tsx:43-48 | completed skills are the floor of progress times skill count over 100, and 0 for an unknown path |
| LearningPathsPage.CompletedMarks | src/pages/LearningPaths.tsx:154-156 | one mark for each of the path's skills |
| LearningPathsPage.CompletedMarksArePrefix | src/pages/LearningPaths.tsx:154-156 | skill i is ticked exactly when i is below the completed count, so min(k, n) skills are ticked |
| LearningPathsPage.TickedSkillsOfPath | src/pages/LearningPaths.tsx:154-156 | a path shows exactly its completed-skills count as ticked |
| LearningPathsPage.PathMentors | src/pages/LearningPaths.tsx:67-69 | a mentor is listed exactly when it shares a skill with the path, in seed order |
| LearningPathsPage.PathMentorsIsSkillMatch | src/pages/LearningPaths.tsx:67-69 | the page's mentor match is the seed's skill match on the path's skills |
| LearningPathsPage.AvatarsCover | src/pages/LearningPaths.tsx:182-197 | four avatars and the "+k" badge account for every matching mentor |
| LearningPathsPage.SeedProgress | src/pages/LearningPaths.tsx:127 | on the seed, paths 1, 3 and 4 show a progress bar and path 2 does not; 1, 0, 3 and 0 skills are completed |
| LearningPathsPage.ApplyPathParam | src/pages/LearningPaths.tsx:21-32 | a non-empty `path` value selects its parsed id; otherwise the selection is kept |
| LearningPathsPage.AtMostOneHighlighted | src/pages/LearningPaths.tsx:85 | with distinct ids at most one card is highlighted, and none for an empty or unknown selection |
| LearningPathsPage.ClickHighlightsOnlyThatCard | src/pages/LearningPaths.tsx:89 | clicking a seeded path highlights exactly that card |
| LearningPathsPage.PathLinkHighlights | src/pages/LearningPaths.tsx:21-32 | a `path=<k+1>` query highlights exactly the k-th seeded path |
| Dashboard.MentorLinkParses | src/pages/Dashboard.tsx:25-27 | a mentor link parses back to the mentor page with a `mentor` value reading as the id |
| Dashboard.PathLinkParses | src/pages/Dashboard.tsx:29-31 | a path link parses back to the path page with a `path` value reading as the id |
| Dashboard.CategoryLinkParses | src/pages/Dashboard.tsx:33-35 | a category link parses back to the mentor page with a `category` value reading as the id |
| Dashboard.MentorLink | src/pages/Dashboard.tsx:25-27 | a mentor card links to `/mentors?mentor=` followed by the id's decimal text |
| Dashboard.PathLink | src/pages/Dashboard.tsx:29-31 | a path card links to `/learning-paths?path=` followed by the id's decimal text |
| Dashboard.CategoryLink | src/pages/Dashboard.tsx:33-35 | a category card links to `/mentors?category=` followed by the id's decimal text |
| Dashboard.MentorClickOpensModal | src/pages/Dashboard.tsx:182 | following a mentor card's link opens the dialog on that mentor, when ids are distinct |
| Dashboard.SeedMentorLinksRoundTrip | src/pages/Dashboard.tsx:25-27 | every seeded mentor's link opens the dialog on it |
| Dashboard.PathClickSelects | src/pages/Dashboard.tsx:285 | following a path card's link selects that path's id |
| Dashboard.CategoryClickChangesNothing | src/pages/Dashboard.tsx:322 | following a category link leaves filters and query as they were |
| Dashboard.TotalMentors | src/pages/Dashboard.tsx:39 | the first statistic equals the number of mentors the mentor page lists with its default filters, and no filter setting lists more |
| Dashboard.TotalPaths | src/pages/Dashboard.tsx:46 | the second statistic is zero exactly when no id selects a path on the path page |
| Dashboard.ReduceStudents | src/pages/Dashboard.tsx:53 | the `reduce` adds every mentor's students once to its start value |
| Dashboard.SeedStats | src/pages/Dashboard.tsx:36-53 | on the seed: 7 mentors, 4 paths, 677 students |
| Dashboard.FeaturedMentors | src/pages/Dashboard.tsx:67 | the featured mentors are the first min(3, n) mentors |
| Dashboard.PopularPaths | src/pages/Dashboard.tsx:278 | the popular paths are the first min(3, n) paths |
| Dashboard.ShownCategories | src/pages/Dashboard.tsx:315 | the shown categories are the first min(4, n) categories |
| Dashboard.FeaturedSkillsCover | src/pages/Dashboard.tsx:210-220 | two skills and the "+k" badge account for every skill; the badge shows exactly above two |
| Dashboard.SeedFeatured | src/pages/Dashboard.tsx:300 | on the seed: Marcus, Priya and Alex, and paths 1 to 3 with 1, 2 and 1 mentors |
| Dashboard.SeedShownCategories | src/pages/Dashboard.tsx:315 | on the seed, the shown categories are ids 1 to 4 |
| Dashboard.PopularPathClickHighlights | src/pages/Dashboard.tsx:278-285 | clicking a popular path highlights that card alone on the path page |
| Notifications.UnreadCount | src/components/NotificationSystem.tsx:72-74 | the count is at most the list's length, and 0 exactly when everything is read |
| Notifications.MarkAsRead | src/components/NotificationSystem.tsx:76-80 | an item becomes read exactly when it was read or has the id; nothing else changes |
| Notifications.MarkAsReadIdempotent | src/components/NotificationSystem.tsx:76-80 | marking the same id twice is marking it once |
| Notifications.MarkAbsentId | src/components/NotificationSystem.tsx:76-80 | marking an id nobody has changes nothing |
| Notifications.UnreadAfterMark | src/components/NotificationSystem.tsx:76-80 | marking removes exactly the unread items with that id from the count |
| Notifications.MarkAllAsRead | src/components/NotificationSystem.tsx:82-86 | every item becomes read and nothing else changes |
| Notifications.MarkAllClearsUnread | src/components/NotificationSystem.tsx:82-86 | after marking all, nothing is unread |
| Notifications.Remove | src/components/NotificationSystem.tsx:88-90 | the result is a subsequence of the list; an item with another id keeps its multiplicity, and an item with that id is gone |
| Notifications.RemoveAbsentId | src/components/NotificationSystem.tsx:88-90 | removing an id nobody has changes nothing |
| Notifications.RemoveIdempotent | src/components/NotificationSystem.tsx:88-90 | removing twice is removing once |
| Notifications.ActionClick | src/components/NotificationSystem.tsx:219-224 | an action click marks its item read and leaves items with other ids alone |
| Notifications.BadgeText | src/components/NotificationSystem.tsx:132-139 | no badge for zero, "9+" above nine, one digit otherwise |
| Notifications.BadgeReadsBack | src/components/NotificationSystem.tsx:132-139 | the badge text reads back as the count capped at 9 |
| Notifications.AgeBuckets | src/components/NotificationSystem.tsx:107-120 | under an hour shows minutes, under a day whole hours, and beyond that whole days, each the floor of the elapsed time |
| Notifications.AgeOf | src/components/NotificationSystem.tsx:107-120 | minutes are shown exactly under 60 whole minutes, and days exactly from 1440 on |
| Notifications.AgeWording | src/components/NotificationSystem.tsx:107-120 | "hour" and "day" are singular exactly for 1 |
| Notifications.AgeTextReadsBack | src/components/NotificationSystem.tsx:107-120 | the age text starts with the number it reports |
| Notifications.FormatTimeAgo | src/components/NotificationSystem.tsx:107-120 | the text reads back through `parseInt` as its bucket's number and ends with " ago" |
| Notifications.SeedUnread | src/components/NotificationSystem.tsx:26-67 | the seed has two unread items, badge "2", and exactly the unread items carry an action |
| Notifications.SeedAges | src/components/NotificationSystem.tsx:26-67 | the seeded items are 2, 4 and 6 hours and 1 day old |
| Notifications.ShowsMarkAll | src/components/NotificationSystem.tsx:158 | "Mark all as read" shows exactly when some notification is unread |
| Layout.Call | src/components/Layout.tsx:103-112 | whatever timer was pending, after a call nothing fires before 300 ms have passed, and at 300 ms the latest query fires once and the debouncer is idle |
| Layout.Advance | src/components/Layout.tsx:103-112 | a timer runs exactly when one is pending and due by then; it runs once, on its own query at its deadline, and leaves the debouncer idle; otherwise nothing changes |
| Layout.Run | src/components/Layout.tsx:103-112 | a run of keystrokes fires at most once per keystroke and ends with a timer for the last query, due 300 ms after it |
| Layout.BurstDefers | src/components/Layout.tsx:103-112 | keystrokes under 300 ms apart fire nothing and leave only the last query pending |
| Layout.BurstFiresOnce | src/components/Layout.tsx:103-112 | after a burst, the last query fires once at its deadline and nothing fires before |
| Layout.TypingExample | src/components/Layout.tsx:103-112 | typing "a", "ab", "abc" at 0, 100 and 150 ms fires "abc" at 450 ms and not before |
| Layout.FiredComeFromKeystrokes | src/components/Layout.tsx:103-112 | every firing and every pending timer comes from a keystroke, due 300 ms after it |
| Layout.HandleSearch | src/components/Layout.tsx:87-93 | the search navigates to the search link exactly when the trimmed query is not empty |
| Layout.SearchNavigatesIffNotBlank | src/components/Layout.tsx:87-93 | the search navigates exactly when the query has a non-whitespace character |
| Layout.OnTime | src/components/Layout.tsx:95-100 | a due timer runs the search on its query; otherwise only the timer state moves |
| Layout.OnChange | src/components/Layout.tsx:489-492 | typing shows the text at once and schedules it, after running any timer due before |
| Layout.TypedFollowsRun | src/components/Layout.tsx:489-492 | the header's timer follows the debouncer, and it navigates at most once per firing |
| Layout.TypingNavigatesOnce | src/components/Layout.tsx:489-492 | typing "abc" quickly navigates once, to the "abc" search, at 450 ms |
| Layout.ActiveMentorsCount | src/components/Layout.tsx:114-116 | the count is at most the number of mentors, and equal exactly when all are "Available" |
| Layout.SeedActiveMentors | src/components/Layout.tsx:114-116 | five seeded mentors are available |
| Layout.AtMostOneActive | src/components/Layout.tsx:219 | at most one navigation entry is active, and one is exactly on the four routes |
| Layout.PageTitle | src/components/Layout.tsx:466-469 | the title is empty exactly off the four routes |
| Layout.TitleMatchesActiveEntry | src/components/Layout.tsx:466-469 | the title is the active entry's name, and "Find Mentors" for the mentor entry |
| Layout.PageSubtitle | src/components/Layout.tsx:472-475 | the subtitle is empty exactly off the four routes; on the mentor page it gives the available count |
| Layout.MentorSubtitleReadsBack | src/components/Layout.tsx:472-475 | the mentor subtitle reads back as the available count |
| ConnectionModal.NoMentorRendersNothing | src/components/ConnectionModal.tsx:27 | without a mentor the dialog draws nothing |
| ConnectionModal.SubmitEnabled | src/components/ConnectionModal.tsx:191 | "Send Request" is enabled exactly with an option chosen and a message holding a non-whitespace character; the message box is then shown |
| ConnectionModal.InitiallyDisabled | src/components/ConnectionModal.tsx:24-25 | the dialog opens with no option, no message box and sending disabled |
| ConnectionModal.ChooseThenTypeEnables | src/components/ConnectionModal.tsx:191 | choosing an option and typing a word enables sending |
| ConnectionModal.Choose | src/components/ConnectionModal.tsx:112 | choosing sets the option, keeps the message, and shows the message box |
| ConnectionModal.Type | src/components/ConnectionModal.tsx:172 | typing replaces the message and keeps the option |
| ConnectionModal.Submit | src/components/ConnectionModal.tsx:29-34 | submitting requests close and keeps the dialog's state |
| ConnectionModal.SubmitKeepsForm | src/components/ConnectionModal.tsx:29-34 | a sendable form is still sendable, with its box shown, after submitting |
| ConnectionModal.Placeholder | src/components/ConnectionModal.tsx:173 | the placeholder greets the mentor by the name up to its first space |
| SettingsPage.ExactlyOneSection | src/pages/Settings.tsx:105 | each tab shows exactly its own section |
| SettingsPage.EditProfile | src/pages/Settings.tsx:146-191 | editing a field sets it to the text and leaves every other field alone |
| SettingsPage.EditBackRestores | src/pages/Settings.tsx:146-191 | editing a field back to its old text restores the profile |
| SettingsPage.TogglePref | src/pages/Settings.tsx:242 | a switch flips its own preference and no other |
| SettingsPage.ToggleTwice | src/pages/Settings.tsx:242 | flipping a switch twice restores the preferences |
| SettingsPage.TogglesCommute | src/pages/Settings.tsx:242 | flipping two switches in either order gives the same preferences |
| SettingsPage.LabelRecoversKey | src/pages/Settings.tsx:235 | for a camel-case key the label is the key with a space before each capital, and removing the spaces gives the key back |
| SettingsPage.TwoWordKey | src/pages/Settings.tsx:235 | a two-word camel-case key gets one space before its capital |
| SettingsPage.MentorRequestsLabel | src/pages/Settings.tsx:235 | the key "mentorRequests" is labelled "mentor Requests" |
| SettingsPage.Description | src/pages/Settings.tsx:238 | the description is the fixed prefix followed by the key with no capitals, and is the prefix plus the key itself when the key has none |
| SettingsPage.MentorRequestsDescription | src/pages/Settings.tsx:235-238 | the description lower-cases the raw key, not the heading, so for "mentorRequests" it differs from the label |
| SettingsPage.ToggleTwoFactor | src/pages/Settings.tsx:303 | the two-factor switch flips only two-factor |
| SettingsPage.ToggleEmailVerification | src/pages/Settings.tsx:328 | the verification switch flips only email verification |
| SettingsPage.SelectTimeout | src/pages/Settings.tsx:348-357 | choosing an option stores its minutes, as `parseInt` reads them, and nothing else |
| SettingsPage.TimeoutStaysListed | src/pages/Settings.tsx:348-357 | any sequence of security changes keeps the timeout one of the listed values |
| SettingsPage.InitialTimeoutListed | src/pages/Settings.tsx:35-39 | starting from the initial settings the timeout is always a listed value |

## Left out

- JSX layout, styling, animation and icons: they draw the state and do not change it.
- React's scheduling of state updates and effects: each handler and effect is one function applied at once.
- Real timers: the debouncer is an explicit state machine driven by keystroke and clock times. A keystroke at the instant a timer falls due cancels it.
- DOM access, the sidebar, `scrollIntoView` and `getElementById`: they are I/O.
- The average-rating statistic at `Dashboard.tsx:60`: it is `toFixed` on a float.
- LearningPathsPage.CompletedSkills: computed with integer arithmetic. `floor(p / 100 * n)` in floating point is taken to equal the integer floor of `p * n / 100` for the small values involved.
- `encodeURIComponent` and percent-decoding: names and values are taken as already plain. HrefRoundTrip requires that they hold no `&` or `=`.
- Url.Get: `URLSearchParams` decodes `+` as a space, and the browser ends the query at a `#` fragment. Url.ParseHref does neither: it takes everything after the first `?` as the query. The pages only read numeric ids, which contain neither character.
- Url.HrefRoundTrip: for the same reason, a browser would keep the round trip only for names and values without `+` or `#`. The requires excludes only `&` and `=`.
- Strings.Lower: covers ASCII letters only, without Unicode case mapping.
- MentorSort.CompareMeaning: orders names by code point, standing in for `localeCompare`.
- Strings.ParseIntOfIntToString: integers are unbounded, so the loss of precision above 2^53 is not modelled.
- MentorSort.SortByExperience: stated only when every experience text parses. A NaN compares equal to everything, so the ties are then not transitive.
- MentorsPage.FilteredMentorsOrder: for the experience key, it too requires every experience text to parse, for the same reason. The permutation fact needs no such condition and is an ensures of FilteredMentors.
- MentorsPage.FilteredMentorsStable: for the experience key, it requires every experience text to parse, for the same reason.
- LearningPathsPage.ApplyPathParam: the page's `null` and `NaN` selections are both `None`. Neither highlights a card.
- Seed derived fields: the categories' and paths' `mentors` fields are written as literals, and proved equal to the filter expressions that compute them.
- The mentors' `avatar` and `bio` fields: only markup uses them.
- The `search` parameter written by the header search: no page reads it.
- ConnectionModal.Submit: the close button, Cancel and the backdrop also only call `onClose`, so they are not separate operations. The request's `console.log` is I/O.
- Logout (`Layout.tsx:55-63`): it sets a loading flag, then after 1000 ms clears it, logs and calls `alert`. Timers, logging and `alert` are I/O, and the flag only draws.
- The settings save handler (`Settings.tsx:41-52`): it sets `isSaving` around a 1000 ms wait, then dispatches a `showNotification` window event. No code in the application listens for that event, so nothing is shown. The wait and the event are I/O.
- MentorsPage.AllSkillsSpec: orders skills by code point. The default `.sort()` compares UTF-16 code units, and the two orders differ only for characters outside the Basic Multilingual Plane, which the seed does not contain.
- `App.tsx`, the loading spinner, the theme context, `toggleTheme` and the appearance tab: they are routing and styling.
- The notification panel's open/closed toggle: it only draws. The action button's `console.log` is I/O.
- The mentor rating: held in integer tenths rather than as a float.
