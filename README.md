# Time-sheet validation and daily summary, modelled in Dafny

This project models the two operations of the Angular `TimeSheetService`
that hold real logic, and proves what they compute.

- `validateDataForOverlaps(data)` sorts the caller's array of entries
  **in place** by start instant. It then runs a nested index loop. For each
  sorted position `i` except the last, the inner loop looks for the first
  later `j` whose entry starts strictly before `sorted[i]` ends. When it
  finds one, it pushes `{first: sorted[i], second: sorted[j]}`, clears
  `isValid` and leaves the inner loop. The outer loop carries on.
- `summarizeDailyHours(data)` walks the entries once. It keys each entry
  by the calendar day of its start instant and keeps a dictionary of
  per-day tallies: `hoursWorked`, `numEntries`, and `flags`, which starts
  as `''`. A new key is inserted the first time its day is seen. The
  function then emits one record per key in insertion order:
  `{date, hoursWorked, numEntries, flags}`, with `hoursWorked` rounded to
  two decimals.

Modules:

- `TimeSheetModel` (`time_sheet_model.dfy`) holds the entry type, with
  instants as integer milliseconds since the epoch, and the exact duration
  of an entry in hours.
- `OverlapValidator` (`overlap_validator.dfy`) holds five methods:
  - `SortByStart`, the in-place sort of an `array<Entry>`;
  - `SwapDown`, one step of that sort, which moves the new entry one place
    towards the front;
  - `FindFirstOverlap`, the inner loop, which returns at the point where
    the source's `break` leaves it;
  - `ScanOverlaps`, the outer loop, which pushes the inner loop's hit;
  - `ValidateDataForOverlaps`, which sorts and then scans.

  Each method is proved against a specification:
  - `SortByStart` against the predicate `SortedByStart` and the multiset
    of the array (a permutation);
  - `SwapDown` against the predicate `SortedExceptAt`, the state of one
    insertion step;
  - `FindFirstOverlap` against the function `FirstOverlap`;
  - `ScanOverlaps` and `ValidateDataForOverlaps` against the function
    `Overlaps`.

  Lemmas about `Overlaps` state what the report means, for any order of
  the entries and for entries ascending by start.
- `DailySummarizer` (`daily_summarizer.dfy`) holds the method
  `SummarizeDailyHours`. Its loop updates a `map` of tallies and a
  sequence of keys in insertion order. The method is proved against the
  specification function `Summaries`, by way of `TalliesAreDayTotals`:
  the dictionary the loop builds holds each day's total hours and count.
  Lemmas about `Summaries` state which days appear, in what order, what
  each record holds, how the totals add up, and that reordering the input
  changes only the order of the records.

The day key and the rounding are parameters. `dayOf: int -> string`
stands for `toDateString()` of the start instant, which depends on the
process's time zone. `roundHours: real -> real` stands for
`parseFloat(x.toFixed(2))`.

What the proofs show about the overlap report, beyond "the scan computes
`Overlaps`":

- `isValid` is false exactly when `overlaps` is non-empty.
- The report is empty exactly when no entry starts strictly before an
  earlier-placed entry ends. This holds for any order of the entries.
- At most one pair is reported per sorted position, so there are at most
  `n - 1` pairs. Fewer than two entries give none.
- Pairs appear in increasing order of position.
- Touching entries, where one ends exactly when the other starts, are
  never paired.
- On entries ascending by start, every pair is an adjacent pair
  `(s[i], s[i+1])`. Such a pair is reported exactly when
  `s[i+1].start < s[i].end`.

Behaviour worth noting:

- The entries are sorted in place: the caller's array itself is reordered
  (`ValidateDataForOverlaps`).
- At most one pair is reported per sorted position: the entry at that
  position with the first later entry that starts before it ends. An
  entry that overlaps two later entries is paired only with the next one
  (`OnlyFirstLaterOverlapIsReported`). An overlap between non-adjacent
  sorted entries still makes `isValid` false
  (`ValidIffNoLaterStartBeforeEnd`), but that pair itself is not listed.
- `flags` is never set. It is the empty string in every record, whatever
  the hours (`NoOvertimeFlag`).
- The records come in the order in which their day first occurs in the
  input (`SummariesInFirstAppearanceOrder`).
- Apart from that order, and with exact hours, the records do not depend
  on the order of the input: a reordering gives the same days, counts and
  hours (`SummariesIgnoreInputOrder`). The source adds doubles, whose sum
  can differ in its last bits from one order to another.

## Model

| member | source | states |
|---|---|---|
| `TimeSheetModel.Hours` | src/app/time-sheet.service.ts:76 | an entry's hours times 3600000 is its length in milliseconds; the hours are negative iff it ends before it starts, and zero iff it ends when it starts |
| `OverlapValidator.SortByStart` | src/app/time-sheet.service.ts:52 | afterwards the array is ascending by start instant and is a permutation (same multiset) of the array before: no entry added, dropped or altered |
| `OverlapValidator.SwapDown` | src/app/time-sheet.service.ts:52 | one insertion step swaps `a[j - 1]` and `a[j]` and leaves every other cell unchanged; afterwards the prefix `a[..i + 1]` is sorted apart from the moving entry, which starts no later than anything after it, and the array is a permutation of itself |
| `OverlapValidator.FindFirstOverlap` | src/app/time-sheet.service.ts:55-61 | the inner loop from `i + 1`, leaving at the first hit, returns exactly `FirstOverlap` from `i + 1`: the first later position whose entry starts strictly before `a[i]` ends, or none |
| `OverlapValidator.ScanOverlaps` | src/app/time-sheet.service.ts:48-66 | the outer loop, pushing at most the inner loop's first hit per position, returns exactly `Overlaps` of the array; `isValid` holds iff `overlaps` is empty; fewer than two entries give `isValid` and no pairs |
| `OverlapValidator.ValidateDataForOverlaps` | src/app/time-sheet.service.ts:47-67 | the caller's array is reordered in place into an ascending permutation of itself, and the report is `Overlaps` of the sorted array with `isValid` iff no pair was found |
| `OverlapValidator.FirstOverlap` | src/app/time-sheet.service.ts:55-61 | the inner loop from `j` stops at the first later position whose start is strictly before `s[i]`'s end; if none, every later entry starts at or after `s[i]`'s end |
| `OverlapValidator.RecordedAt` | src/app/time-sheet.service.ts:56-61 | the outer iteration at `i` pushes at most one pair; it pushes one exactly when the inner loop finds a hit, and that pair is `s[i]` with an entry that starts strictly before `s[i]` ends |
| `OverlapValidator.OuterIterations` | src/app/time-sheet.service.ts:54 | the outer loop runs `length - 1` times for a non-empty array and not at all for an empty one: never more than the number of entries, at most one fewer, and zero exactly when there are fewer than two entries |
| `OverlapValidator.OverlapsBefore` | src/app/time-sheet.service.ts:54-63 | after `k` outer iterations at most `k` pairs have been pushed |
| `OverlapValidator.Overlaps` | src/app/time-sheet.service.ts:48-66 | the whole scan pushes at most one pair per outer iteration, so at most `n - 1` pairs, and none for fewer than two entries |
| `OverlapValidator.RecordedPositions` | src/app/time-sheet.service.ts:54-62 | the positions at which the outer loop pushes are strictly increasing, fewer than the iterations run, and are exactly those where the inner loop finds an overlap |
| `OverlapValidator.OverlapsBeforeAtPositions` | src/app/time-sheet.service.ts:54-62 | there are as many pushed pairs as recorded positions, and the `m`-th pushed pair is exactly what the outer iteration at the `m`-th recorded position pushes |
| `OverlapValidator.ReportedPairs` | src/app/time-sheet.service.ts:54-66 | at most one pair per outer position (at most `n - 1`), in increasing order of that position; each pair is `s[i]` with the first later `s[j]` that starts strictly before `s[i]` ends |
| `OverlapValidator.ReportedPairsOverlapStrictly` | src/app/time-sheet.service.ts:56 | in every reported pair the second entry starts strictly before the first ends, so touching entries are never paired |
| `OverlapValidator.ValidIffNoLaterStartBeforeEnd` | src/app/time-sheet.service.ts:48-66 | the report is empty iff for all positions `i < j`, `s[i]` ends at or before `s[j]` starts (both directions, for any order) |
| `OverlapValidator.SortedFirstOverlapIsNext` | src/app/time-sheet.service.ts:52-61 | with starts ascending, the inner loop stops at `i + 1` if `s[i+1]` starts before `s[i]` ends, and otherwise finds nothing |
| `OverlapValidator.SortedPositionsAreOverlapsWithNext` | src/app/time-sheet.service.ts:52-62 | with starts ascending, a pair is pushed for position `i` exactly when `s[i+1]` starts before `s[i]` ends |
| `OverlapValidator.SortedPushIsAdjacent` | src/app/time-sheet.service.ts:52-59 | with starts ascending, any pushed pair is `(s[p], s[p+1])`, with `s[p+1]` starting no earlier than `s[p]` and strictly before `s[p]` ends |
| `OverlapValidator.SortedOverlapsAreAdjacent` | src/app/time-sheet.service.ts:52-62 | on sorted entries every pair is `(s[i], s[i+1])` with `s[i].start <= s[i+1].start < s[i].end`; a pair is reported for `i` iff `s[i+1].start < s[i].end`; pairs come in increasing order of `i` |
| `OverlapValidator.OnlyFirstLaterOverlapIsReported` | src/app/time-sheet.service.ts:55-62 | an entry overlapping both later entries of a sorted three-entry input is reported once, with the next entry only |
| `DailySummarizer.SummarizeDailyHours` | src/app/time-sheet.service.ts:71-93 | the loop over the entries, with lazy key insertion and `+=`/`++` on the day's tally, followed by one record per key, returns exactly `Summaries` |
| `DailySummarizer.Summaries` | src/app/time-sheet.service.ts:88-92 | one record per dictionary key, in key order |
| `DailySummarizer.DayKeys` | src/app/time-sheet.service.ts:75-80 | the dictionary's keys in insertion order contain no day twice |
| `DailySummarizer.KeysStep` | src/app/time-sheet.service.ts:75-80 | one more entry appends its day to the keys exactly when the day is not yet a key |
| `DailySummarizer.TalliesDomain` | src/app/time-sheet.service.ts:78-80 | a day is a key of the dictionary iff it is among the keys in insertion order |
| `DailySummarizer.BumpUpdatesOneDay` | src/app/time-sheet.service.ts:78-83 | one entry (`Bump`) adds its day as a key if absent, starting it at `{0, 0, ''}`, then adds the hours and 1 to that day's tally; every other key and its tally are unchanged |
| `DailySummarizer.TalliesAreNonEmpty` | src/app/time-sheet.service.ts:74-85 | every tally in the dictionary the loop builds (`Tallies`) counts at least one entry and has empty `flags` |
| `DailySummarizer.TalliesValue` | src/app/time-sheet.service.ts:76-83 | a key's tally in the dictionary is that day's total hours and entry count, with empty `flags` |
| `DailySummarizer.TalliesAreDayTotals` | src/app/time-sheet.service.ts:74-85 | the dictionary the loop builds has exactly the days some entry starts on as keys, each holding that day's totals |
| `DailySummarizer.TallyStep` | src/app/time-sheet.service.ts:76-83 | one more entry adds 1 to its own day's count and its duration in hours to that day's hours, and leaves every other day unchanged |
| `DailySummarizer.EntriesOnEmptyIffAbsent` | src/app/time-sheet.service.ts:74-80 | a day has no entries iff no entry starts on it |
| `DailySummarizer.DayKeysAreTheOccurringDays` | src/app/time-sheet.service.ts:74-80 | a day is a key iff some entry starts on it |
| `DailySummarizer.DayKeysInFirstAppearanceOrder` | src/app/time-sheet.service.ts:74-80 | keys are ordered by the position of the first entry on their day, and each such position is within the input |
| `DailySummarizer.SummariesOnePerDay` | src/app/time-sheet.service.ts:72-92 | one record per day some entry starts on: no date twice, a date appears iff an entry starts on it, every record has at least one entry, empty input gives no records |
| `DailySummarizer.SummariesInFirstAppearanceOrder` | src/app/time-sheet.service.ts:78-80 | records are ordered by the position of the first entry on their day |
| `DailySummarizer.SummaryRecordsItsDay` | src/app/time-sheet.service.ts:75-91 | a record counts exactly the input entries starting on its date, holds the rounded sum of their `(end - start) / 3600000` (zero and negative durations included) and empty `flags` |
| `DailySummarizer.EntriesOnSelectsTheDay` | src/app/time-sheet.service.ts:74-75 | an entry is among a day's entries iff it is in the input and starts on that day |
| `DailySummarizer.EntryCountsSumToLength` | src/app/time-sheet.service.ts:74-88 | the `numEntries` of all records add up to the number of entries |
| `DailySummarizer.HoursSumToTotal` | src/app/time-sheet.service.ts:74-88 | without rounding, the `hoursWorked` of all records add up to the total duration in hours of all entries |
| `DailySummarizer.NoOvertimeFlag` | src/app/time-sheet.service.ts:79-85 | entries 09:00-12:00 and 13:00-22:00 on one day give one record with 12 hours, 2 entries and `flags` empty, although one entry lasts 9 hours |
| `DailySummarizer.EntriesOnConcat` | src/app/time-sheet.service.ts:74-75 | the entries of a day in a concatenation are that day's entries of each part, in order |
| `DailySummarizer.DayTotalsOfRemoval` | src/app/time-sheet.service.ts:74-83 | taking one entry out of the input takes exactly its own count and hours away from its day, and changes no other day |
| `DailySummarizer.DayTotalsIgnoreOrder` | src/app/time-sheet.service.ts:74-83 | any reordering of the input (same multiset of entries) gives every day the same count and the same unrounded hours |
| `DailySummarizer.DaysIgnoreInputOrder` | src/app/time-sheet.service.ts:74-92 | under any reordering of the input, a day occurs in one iff it occurs in the other, with the same count and hours |
| `DailySummarizer.RecordsAreDayRecords` | src/app/time-sheet.service.ts:88-92 | a record is among the summaries iff its date occurs in the input and the record is that date's count, rounded hours and empty `flags` |
| `DailySummarizer.SummariesIgnoreInputOrder` | src/app/time-sheet.service.ts:74-92 | any reordering of the input yields the same set of records; only their order may change |

## Left out

- `readCsvData` (parsing with PapaParse and publishing through an rxjs
  `BehaviorSubject`) is I/O and a foreign library. It is not part of this
  model.
- `getSummaryData` and `summarizeData` are observable wiring around a
  placeholder `reduce` that always yields `{}`. They are not part of this
  model.
- The Angular components (`time-sheet-table`, `summary-table`, including
  `toggleRow`) are UI state. They are not part of this model.
- `toDateString()` depends on the process's ambient time zone. It is the
  parameter `dayOf`. The model assumes no day key is an array-index-like
  string (`toDateString()` never yields one), so `Object.keys` gives keys
  in insertion order.
- `parseFloat(x.toFixed(2))` is floating-point formatting. It is the
  parameter `roundHours`. Hours are exact reals, not IEEE doubles, so
  float rounding during accumulation is not modelled.
- The `new Date(...)` coercions assume valid instants. Entries hold integer
  milliseconds; invalid dates (`NaN`) and string coercion are not modelled.
- `SortByStart`: the engine's sort algorithm and its order among equal
  start instants are not modelled. The model sorts by insertion sort, and
  its contract promises only what any sort with this comparator gives:
  ascending starts and a permutation. No lemma depends on the tie order.
- Entries are values. The reported pairs hold copies of entries, not
  references to the caller's objects, so aliasing between `overlaps` and
  the sorted array is not modelled.
- The optional `overlapping` field of an entry is carried but never set;
  the service never sets it either.
- The `Summary` interface declares `date: Date` and `flags: string[]`. The
  model follows what the service returns: a date string and `flags: ''`.
