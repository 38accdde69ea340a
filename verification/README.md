# Missing-hours report: a Dafny model

This project models the reporting core of `index.js` in a small Harvest-to-Slack bot. The bot fetches a week's or a month's time entries and posts a Slack message that lists every team member whose logged hours fall short of a configured minimum. The model covers the pure steps between "here is the list of time entries" and "here is the message to post":

- **`sumEntryHours`**: group the entries by `user.name`, total each group, and build one attachment per name. An attachment carries the hours, the missing hours `minimumHours - hours`, and a `:firstname:` emoji key in its title and its field. Only totals strictly below the minimum are kept, and the result is sorted by hours with a stable sort.
- **`toTitleCase`**: the global replacement of `\w\S*` by the match with its first character upper-cased and the rest lower-cased.
- **message selection**: the "All hours entered" text when no attachment remains, and otherwise the "missing hours" text headed by the title-cased schedule. Both variants carry the attachment list unchanged.

Modules, one per file:

| file | module | models |
|---|---|---|
| entries.dfy | `Entries` | time entries; the reference definitions `HoursOf`, `Total`, `Occurs`, `FirstIndex` |
| grouping.dfy | `Grouping` | `_.groupBy` by name followed by `Object.keys` |
| sorting.dfy | `Sorting` | `_.sortBy` as a stable insertion sort on sequences |
| chars.dfy | `Chars` | `\w`, `\s`, ASCII case mapping, `name.split(' ')[0].toLowerCase()` |
| titlecase.dfy | `TitleCasing` | `toTitleCase` |
| report.dfy | `Report`, `ReportExamples` | `sumEntryHours` and the description it meets |
| notification.dfy | `Notification` | the choice of message and the pipeline from `res.time_entries` to it |

Modelling decisions:

- Hours are exact integers, for example hundredths of an hour. The source adds JavaScript floats; exact addition makes the order of addends irrelevant.
- `minimumHours`, `schedule`, `botName` and `botIcon` are parameters (`Notification.Config`), not loaded configuration.
- `Object.keys` lists a group's name at the position where the name first appears among the entries. That order is the tie-break of the stable sort. The model assumes that names are neither integer-like nor `__proto__`. JavaScript lists integer-like keys first, in numeric order. Assigning to the key `__proto__` replaces the object's prototype instead of adding a key, so `Object.keys` never lists that name.
- The key of the correctness argument is `Report.IsReport`. It describes the output without grouping or sorting: exactly one attachment for each name that occurs with a total below the minimum, each built from that total, strictly ordered by (hours, first appearance). `Report.SumEntryHoursIsReport` proves the pipeline meets it. `Report.ReportIsDetermined` proves that only one sequence does.
- When the response has no `time_entries`, `_.groupBy(undefined)` yields `{}`, so the bot posts the "All hours entered" message (`Notification.MissingListReadsAsAllClear`). An error response from the API has no `time_entries` either, so it also produces the all-clear message.

## Model

| member | source | states |
|---|---|---|
| `Entries.AbsentNameHasNoHours` | index.js:62-69 | a name with no entries gets no hours and a zero total |
| `Grouping.GroupBy` | index.js:62-66 | the group keys are exactly the names that occur, each listed once, in order of first appearance; each group holds exactly that name's hours in entry order |
| `Grouping.GroupingConservesHours` | index.js:62-69 | the group totals add up to the hours of all entries: no entry is dropped or counted twice |
| `Sorting.SortBy` | index.js:88 | the sorted list is a permutation of its input and is non-decreasing by the key |
| `Sorting.SortByIsStable` | index.js:88 | when the input is strictly increasing by some rank, the output is strictly ordered by (key, rank): equal keys keep their input order |
| `Sorting.LexSortedUnique` | index.js:88 | two sequences with the same elements, both strictly ordered by (key, rank), are equal |
| `Report.BuildAll` | index.js:66-82 | the mapping step builds one attachment per key, in key order, each from that key's group total |
| `Report.KeepShort` | index.js:83-86 | an attachment survives the filter exactly when it was present and its hours are strictly below the minimum |
| `Report.KeepShortKeepsRanking` | index.js:83-86 | the filter keeps the relative order of what it keeps |
| `Report.Shortfalls` | index.js:66-86 | every attachment left after the map and filter has hours below the minimum and positive missing hours |
| `Report.SumEntryHours` | index.js:61-89 | the report is non-decreasing by hours, and every reported attachment has hours below the minimum and positive missing hours |
| `Report.SumEntryHoursIsReport` | index.js:61-89 | the report has exactly one attachment per name that occurs with a total below the minimum, built from that total, and is strictly ordered by hours and then first appearance |
| `Report.ReportIsDetermined` | index.js:61-89 | at most one sequence meets that description, so it fixes the report completely |
| `Report.ReportTotals` | index.js:62-69 | every reported name occurs among the entries, and its hours are the sum over exactly the entries with that name |
| `Report.ReportMembership` | index.js:83-86 | a name is reported if and only if it occurs and its total is strictly below the minimum; a total equal to the minimum is left out |
| `Report.ReportEmptyExactly` | index.js:83-86 | the report is empty if and only if every name that occurs has a total of at least the minimum |
| `Report.ReportNamesDistinct` | index.js:62-66 | no name is reported twice |
| `Report.ReportOrder` | index.js:66-88 | the report ascends by hours; equal hours keep the order in which the names first appear among the entries |
| `Report.ReportDisplayKey` | index.js:75-78 | the title and the field name carry the same `:key:`, the key being the lower-cased first space-separated token of the name; the missing hours are the minimum minus the hours and are positive |
| `ReportExamples.OnlyShortNameReported` | index.js:61-89 | with Alice at 45 hours, Bob at 30 + 5 and a 40-hour minimum, the report is Bob alone, 5 hours short |
| `Chars.FirstToken` | index.js:75 | the first token is the longest prefix of the name without a space character, and it is followed by a space or by the end of the name |
| `Chars.DisplayKey` | index.js:75-77 | the key is the lower-cased prefix of the name up to its first space character: it holds no space and no upper-case letter |
| `Chars.LowerString` | index.js:75 | lower-casing keeps the length and maps every character through the ASCII lower-case mapping |
| `Chars.CaseKeepsClass` | index.js:93 | case mapping keeps a character's word and white-space class; it changes no character outside `\w`; its results are never of the opposite case |
| `TitleCasing.RunLength` | index.js:92 | the extent of `\S*`: the longest white-space-free prefix, followed by white space or by the end |
| `TitleCasing.TitleCase` | index.js:91-95 | the replacement keeps the string's length |
| `TitleCasing.TitleCaseIsPointwise` | index.js:91-95 | each output character is lower case inside a match, upper case where a match starts, and unchanged elsewhere; a match starts at the first word character of a white-space-delimited run |
| `TitleCasing.TitleCaseKeepsShape` | index.js:91-95 | the result keeps the length, every white-space character in place, and each position's word-character class |
| `TitleCasing.WordIsCapitalised` | index.js:91-95 | a word that starts with a word character comes out with its first character upper-cased and the rest lower-cased |
| `TitleCasing.TitleCaseIdempotent` | index.js:91-95 | title-casing twice gives the same as title-casing once |
| `TitleCasing.ScheduleHeadings` | index.js:119 | the schedules `week` and `month` head the message as `Week` and `Month` |
| `Notification.Compose` | index.js:105-122 | the message is the "All hours entered" variant exactly when there are no attachments; the heading of the other variant is the title-cased schedule; both carry the attachments unchanged and the bot's name and icon |
| `Notification.Run` | index.js:97-122 | from the response's entry list to the message: the all-clear variant exactly when every name that logged time reached the minimum, which is exactly when there are no attachments; a response without an entry list always gives the all-clear message with no attachments (see also `RunAllClearExactly` and `MissingListReadsAsAllClear`) |
| `Notification.RunAllClearExactly` | index.js:104-122 | the posted message is the all-clear variant exactly when every name that logged time reached the minimum, and it carries the computed report |
| `Notification.MissingListReadsAsAllClear` | index.js:101-122 | a response without an entry list yields the all-clear message with no attachments, the same as an empty list |

## Left out

- Date range (index.js:9-34): `moment` week and month arithmetic depends on the wall clock and on the library. The formatted dates in the texts are left out with it.
- Fetching the entries and posting to Slack (index.js:36-58, 124-131), and the `NODE_ENV` fixture branch: network I/O and environment plumbing.
- The `fallback` text and the `value` text of a field (index.js:73, 78), with their `toFixed(2)` rounding: float-to-string formatting. The missing hours are kept as a number, `Field.missing`.
- The exact wording of the two message texts (index.js:110, 119): the model keeps the variant, the schedule and the title-cased heading.
- Configuration loading (index.js:6) and the process-level error handlers (index.js:136-149): I/O and logging.
- Entries without `user` or `hours`: the source would throw or add `NaN`. The model's entries always have both.
- TitleCasing.TitleCase: case mapping (`Chars.ToLower`, `Chars.ToUpper`) covers ASCII only. JavaScript's `toUpperCase` and `toLowerCase` also map other letters, and some of those mappings change the length. The length and idempotence results hold for the ASCII model.
- Grouping.GroupBy: does not model JavaScript's reordering of integer-like object keys, nor the name `__proto__`, whose entries `_.groupBy` files under the object's prototype so that `Object.keys` (index.js:66) never lists it and the name drops out of the report. Names are assumed to be neither integer-like nor `__proto__`.
- Chars.LowerString: lower-cases ASCII letters only. JavaScript's `toLowerCase` (index.js:75) maps every letter, so for `Łukasz` or `Émile` the model keeps the capital where the source gives `łukasz` and `émile`.
- Chars.DisplayKey: built on the ASCII-only `Chars.LowerString`, so for `Łukasz Nowak` or `Émile Zola` the model's key keeps the capital, while the source's key is `:łukasz:` or `:émile:`.
- Entries.Sum: hours are exact integers, not floating-point numbers, so the rounding of repeated float addition is not modelled.
