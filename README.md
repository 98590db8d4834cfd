# Timetable placement engine — a Dafny model

This project models the core of a course-timetable builder. Class pages of a university's course listing are read into course maps. Each desired course is then placed, first fit, into a weekly grid: five weekday columns 一..五, period rows 1..11, and a NoTime row for courses without a fixed time. An occupancy map records which time codes are taken.

The core appears three times. `course_utils.py` is the canonical copy. `07_21.py` holds the same tables and functions. `07_32.py` is a variant with two differences:

- its eligibility filter has a 9-name allow-list instead of 12 names;
- its `try_schedule` checks "no fixed time" before it applies the filter.

Modules, one per part of the core:

- `Optional` (optional.dfy): the option type.
- `TimeCodes` (time_codes.dfy): the period codec.
  - `DAY_MAP`, `PERIOD_MAP` and `DAY_NUM_TO_COL` become constant maps.
  - A time code is a value `TimeCode(day 1..5, slot 1..11)`. Its two-character text is `Text`.
  - `sort_key` is modelled on the text (`SortKey`) and tied to the arithmetic `Rank` of the value.
- `Records` (records.dfy): the row normaliser, i.e. the loop of `fetch_course_map` after the HTML table has been read.
  - Symbol stripping and lookup.
  - Collecting codes, as an imperative loop proved against `RowCodes`.
  - Sorting the codes.
  - Building the course map, where a later row overwrites an earlier one with the same name.
- `Catalog` (catalog.dfy): `build_dept_info`.
  - Its two appending passes are a method, proved against `CatalogOrder`.
  - The fetch of each class source is abstracted into a generic payload.
- `Eligibility` (eligibility.dfy): `course_filter`, both the 12-name and the 9-name allow-lists.
- `Scheduler` (scheduler.dfy): `try_schedule`.
  - The class `Timetable` holds the grid (`map<Cell, string>`) and `occupied` (`map<Key, string>`) and updates both in place.
  - The keys of `occupied` are `Slot(TimeCode)` or `Name(course)`.
  - `TrySchedule` models course_utils.py and 07_21.py. `TryScheduleNoTimeFirst` models 07_32.py.
  - Both are proved equal to the functional specification `Schedule`, a first-fit scan `FirstFit` under a `Policy`.
  - Both preserve `Valid()`. It requires that every occupied code's cell shows `name(label)` of the course occupying it, that every non-empty period cell belongs to an occupied code, and that a recorded no-time course goes with a non-empty NoTime cell.

Two behaviours of the code that a reader might not expect:

- **A second request for a course without fixed time is placed again.** The no-time path appends a second `name(label)` entry to the NoTime cell and never consults `occupied` (course_utils.py:100-107). `Scheduler.RepeatedNoTimeAppendsAgain` proves the duplicate entry.
- **`sort_key` gives 110 for `'1a'`.** The docstring example in 07_21.py says 101. `TimeCodes.SortKeyExamples` proves 203 for `'23'` and 110 for `'1a'`.

## Model

| member | source | states |
|---|---|---|
| TimeCodes.SortKey | course_utils.py:24-27 | no contract; defines `sort_key` on a code's text: first digit times 100 plus the slot index of the second character |
| TimeCodes.Invert | course_utils.py:13 | no contract; defines the comprehension that inverts `DAY_MAP` over its non-empty digits, giving `DAY_NUM_TO_COL` (written out by `DayNumToColTable`) |
| TimeCodes.SlotIndexOf | course_utils.py:26 | no contract; defines the slot index of a code's second character: its digit value, 10 for 'a', otherwise 11 (the same expression is repeated at line 115) |
| TimeCodes.SortKeyIsRank | course_utils.py:24-27 | `sort_key` of a code's text is day·100 + slot index, with 'a' giving 10 and 'b' giving 11 |
| TimeCodes.RankOrder | 07_32.py:20-24 | the `sort_key` order is day first, then slot; equal keys mean equal codes |
| TimeCodes.LetteredSlotsLast | course_utils.py:26 | within a day, slots 1–9 come before 'a' (10th), which comes before 'b' (11th) |
| TimeCodes.SortKeyExamples | 07_21.py:19-25 | `sort_key('23') == 203` and `sort_key('1a') == 110`, not the 101 of the docstring |
| TimeCodes.Encode | course_utils.py:47-53 | a (day label, token) pair encodes exactly when the day has a digit and the token is in `PERIOD_MAP`; the code's text is that digit followed by `PERIOD_MAP[token]` |
| TimeCodes.EncodeDomain | course_utils.py:10-12 | encoding succeeds exactly for the five weekday labels and the eleven period tokens; 日 and 六 never give a code |
| TimeCodes.EncodeHits | course_utils.py:47-53 | every code is produced by its weekday label and the decimal token of its slot, and by no other label or token |
| TimeCodes.TextInjective | course_utils.py:53 | different codes have different texts, so `f"{dnum}{t}"` keys identify codes |
| TimeCodes.DayRoundTrip | course_utils.py:10-13 | `DAY_NUM_TO_COL[DAY_MAP[label]] == label` for every label with a digit; the columns of `DAY_NUM_TO_COL` are exactly 一..五 |
| TimeCodes.DayNumToColTable | 07_21.py:17 | the inverting comprehension yields exactly '1'..'5' to 一..五 |
| TimeCodes.DayNumToColOfCode | course_utils.py:116 | every code's day digit is a key of `DAY_NUM_TO_COL` and maps to the code's weekday column |
| Records.Classify | course_utils.py:15-22 | a known symbol gives its table entry (○△●▲ required, ☆★ elective); any other symbol gives None for both fields |
| Records.Strip | course_utils.py:44 | the result is the input with its leading and trailing whitespace removed, and neither ends in whitespace |
| Records.RowCodesMembers | course_utils.py:46-53 | a code is in a row's code list exactly when some weekday column of the row holds a token that encodes to it |
| Records.DayCodesAppend | 07_21.py:81-84 | codes of a day's tokens concatenate, so a repeated token gives its code twice (duplicates kept) |
| Records.SortCodes | course_utils.py:54 | the result is sorted by `sort_key` and is a permutation of the input |
| Records.SortedUnique | 07_32.py:80 | two `sort_key`-sorted lists with the same elements are equal, so the sorted code list is determined |
| Records.DayCodes | course_utils.py:48-53 | no contract; defines the codes of one day's tokens, in token order, skipping tokens that do not encode |
| Records.RowCodes | course_utils.py:47-53 | no contract; defines a row's codes: the day codes of every `DAY_MAP` label, in `DAY_MAP` order |
| Records.Normalised | course_utils.py:43-62 | no contract; defines the record stored for a row: id, teacher, stripped symbol, its `req`/`detail`, and the sorted codes |
| Records.CollectDay | course_utils.py:50-53 | the token loop of one day appends exactly the day's codes, `DayCodes(day, raw)`, to the codes collected so far, each built from `dnum` and `t` |
| Records.NormalisedSpec | course_utils.py:43-62 | a record keeps the row's course id and teacher; `req` is set exactly for known symbols; its codes are sorted and hold each accepted code as often as the row's columns produce it |
| Records.CollectCodes | 07_21.py:77-84 | the nested day and token loop yields the row's codes in `DAY_MAP` order, then token order |
| Records.NormaliseRow | 07_32.py:69-89 | the record stored for one row is the normalised record |
| Records.BuildCourseMap | course_utils.py:41-62 | every row's name is a key and every key comes from a row; a name maps to the record of the last row carrying it |
| Records.StoreRow | course_utils.py:43-62 | one pass of the row loop stores the row's normalised record under its name, extending what the loop has built by one row |
| Catalog.Truthy | course_utils.py:67 | no contract; defines the `priority_dept and` test: the priority is given and is not the empty string |
| Catalog.CatalogOrder | course_utils.py:65-79 | no contract; defines the catalog order: the priority department's classes, then every other department's classes in insertion order |
| Catalog.Lookup | course_utils.py:67-68 | the department lookup fails exactly when no department has that name |
| Catalog.BuildDeptInfo | course_utils.py:65-79 | the two appending passes yield the priority department's classes (when truthy and present), then every other department's classes in insertion order |
| Catalog.AppendClasses | 07_21.py:117-120 | the inner loop appends a department's classes in order |
| Catalog.OthersDropsOne | course_utils.py:72-74 | with distinct department names, the second pass skips exactly the department named `priority_dept` |
| Catalog.CatalogPriorityFirst | 07_21.py:113-131 | a truthy priority key puts its classes first, followed by all other departments' classes in their original order |
| Catalog.CatalogWithoutPriority | 07_32.py:108-126 | a priority that is None or not a key gives the plain enumeration of every department's classes |
| Catalog.CatalogDropsFalsyKey | course_utils.py:67-74 | an empty `priority_dept` that is a key skips pass 1 and is skipped in pass 2, so that department is dropped |
| Catalog.CatalogPermutation | course_utils.py:65-79 | when the priority is truthy or not a key, each configured class appears exactly once |
| Eligibility.Contains | course_utils.py:82 | `sub in s` holds exactly when `sub` occurs at some index of `s` |
| Eligibility.CourseFilter | course_utils.py:81-89 | accepts exactly when the label contains 資工 or the name is one of the 12 allow-listed names; the record is ignored |
| Eligibility.CourseFilterShort | 07_32.py:128-134 | accepts exactly when the label contains 資工 or the name is one of the 9 allow-listed names |
| Eligibility.ShortFilterNarrower | 07_32.py:131 | the 9-name filter accepts a subset of the 12-name filter; they differ exactly on 物理, 專業英文 and 體育 from labels without 資工 |
| Scheduler.Display | course_utils.py:104-117 | no contract; defines the entry text `f"{name}({label})"` written at lines 104 and 117 |
| Scheduler.AppendNoTime | course_utils.py:103-105 | no contract; defines the new NoTime cell: the entry alone when the cell is empty, otherwise the old text, "；" and the entry |
| Scheduler.Synced | course_utils.py:100-121 | no contract; defines the agreement the placement paths keep: a code is occupied exactly when its cell is non-empty, that cell shows the course recorded for the code, and a name key maps to itself while the NoTime cell is non-empty |
| Scheduler.Conflicts | course_utils.py:108-109 | no contract; defines the conflict test: some code of the section is already a key of `occupied` |
| Scheduler.Qualifies | course_utils.py:93-112 | no contract; defines the per-section decision that stops the scan: the section offers the course and, for course_utils.py, passes the filter and is either without fixed time or conflict-free; for 07_32.py (lines 143-167) it is without fixed time, or passes the filter and is conflict-free |
| Scheduler.WriteCells | course_utils.py:113-117 | no contract; defines the grid after every code's cell is set to the entry text; other cells keep their text |
| Scheduler.Occupy | course_utils.py:113-118 | no contract; defines `occupied` after `occupied[code] = name` for every code; other keys keep their value |
| Scheduler.Place | course_utils.py:100-118 | no contract; defines one placement from a chosen section: the NoTime append and `occupied[name] = name`, or every code's cell written and every code occupied |
| Scheduler.Schedule | course_utils.py:92-124 | no contract; defines `try_schedule` as a function: place from the first section `FirstFit` finds, or return False and change nothing |
| Scheduler.EmptyGrid | 07_21.py:207-209 | the fresh grid has exactly the 11 period rows plus NoTime over 一..五, all empty |
| Scheduler.CellOf | course_utils.py:113-117 | a code's cell is a grid cell in a period row |
| Scheduler.CellOfInjective | course_utils.py:113-117 | distinct codes write distinct cells |
| Scheduler.DecodedCell | course_utils.py:114-116 | decoding a code's text with `int(p)`/'a'/'b' and `DAY_NUM_TO_COL` reaches the code's cell |
| Scheduler.FirstFit | course_utils.py:92-99 | the scan stops at the first section that offers the course and passes the policy's checks; no earlier one does; None when none does |
| Scheduler.FindConflict | course_utils.py:108 | returns None exactly when no code is taken; otherwise the first taken code |
| Scheduler.ScheduleKeepsSync | course_utils.py:100-121 | every `try_schedule` keeps the grid shape and the agreement between occupied codes and the cells showing their course |
| Scheduler.FixedPlacementKeepsSync | 07_21.py:186-194 | writing a code list and occupying its codes keeps the grid and `occupied` in agreement, even over taken codes |
| Scheduler.NoTimePlacementKeepsSync | 07_21.py:169-176 | writing a non-empty NoTime cell and recording the name keeps the grid and `occupied` in agreement |
| Scheduler.FixedPlacementAllOrNothing | course_utils.py:108-121 | a fixed-time placement: all codes were free and now map to the course, showing `name(label)`; no other key added, no entry changed, no other cell written |
| Scheduler.NoTimePlacementAppends | course_utils.py:100-107 | a no-time placement appends `name(label)` to (NoTime, 一), joined with "；" when non-empty, and sets `occupied[name] = name`, without checking for a prior entry |
| Scheduler.UnplacedLeavesStateUnchanged | course_utils.py:92-124 | the call returns True exactly when some section qualifies; on False the grid and `occupied` are unchanged |
| Scheduler.FilterThenPlaceSkips | 07_21.py:164-183 | with the filter first, a filter-rejected section is skipped even for a no-time course, and a conflicting section is skipped |
| Scheduler.NoTimeThenFilterTakesFirstOffer | 07_32.py:147-160 | with the no-time check first, a no-time course is placed from the first section offering it, whatever the filter says |
| Scheduler.NotOfferedIsUnplaced | course_utils.py:93-95 | a course no section offers is unplaced and nothing changes |
| Scheduler.SameSlotSecondUnplaced | 07_21.py:179-183 | two courses at the same slot: the first is placed there, the second is unplaced and changes nothing |
| Scheduler.FilteredPageSkipped | 07_21.py:164-168 | a course off the allow-list is skipped on an earlier non-home page and placed from the next home page |
| Scheduler.RepeatedNoTimeAppendsAgain | 07_21.py:169-176 | requesting a no-time course twice lists it twice in the NoTime cell |
| Scheduler.PoliciesDisagreeOnNoTime | 07_32.py:147-161 | a no-time course offered only outside the home department is placed by 07_32.py and not by course_utils.py |
| Scheduler.Timetable.Valid | course_utils.py:100-121 | no contract; the class invariant: the grid has its 12 x 5 shape and `Synced` holds of the grid and `occupied` |
| Scheduler.Timetable.constructor | 07_32.py:191-194 | a fresh timetable has the empty grid and no occupied keys, and is valid |
| Scheduler.Timetable.PlaceNoTime | course_utils.py:103-106 | the NoTime cell gains the entry, joined by "；" when non-empty; the name maps to itself |
| Scheduler.Timetable.PlaceFixed | course_utils.py:113-118 | every code's cell shows `name(label)` and every code maps to the name |
| Scheduler.Timetable.WriteCode | course_utils.py:113-118 | one code's text decodes to that code's cell, which gets `name(label)`; the code maps to the name; nothing else changes |
| Scheduler.Timetable.ScanFilterFirst | course_utils.py:92-124 | the section loop (filter, no-time check, conflict check) returns and leaves exactly what `Schedule` specifies for the filter-first policy |
| Scheduler.Timetable.ScanNoTimeFirst | 07_32.py:142-182 | the section loop (no-time check, filter, conflict check) returns and leaves exactly what `Schedule` specifies for the no-time-first policy |
| Scheduler.Timetable.TrySchedule | course_utils.py:91-124 | the filter-first `try_schedule` returns and leaves exactly what `Schedule` specifies, and preserves validity |
| Scheduler.Timetable.TryScheduleNoTimeFirst | 07_32.py:137-182 | the no-time-first `try_schedule` returns and leaves exactly what `Schedule` specifies, and preserves validity |

## Left out

- HTTP and HTML reading in `fetch_course_map` are not modelled: `requests.get`, `pd.read_html`, the label taken from the header, and dropping `小計` and id-less rows. The model starts from the rows, each given as its cells plus a list of period tokens per day column.
- Splitting a day cell on whitespace (`str(raw).split()`) is not modelled; tokens arrive already split. NaN cells and numeric cells converted by `str` are also not modelled.
- Catalog.BuildDeptInfo: the fetch of each class source becomes a payload already attached to the class label. The progress `print` lines are not modelled.
- The verbose trace lines of `try_schedule` and all other console output are not modelled.
- Scheduler.Timetable.TrySchedule: Python keys `occupied` by plain strings. A course without fixed time named exactly like a time code (e.g. "1a") would collide with that code's key. The model separates the two keyspaces with `Slot` and `Name`, so it does not reproduce that collision.
- The `__main__` blocks are not modelled (JSON configuration, the desired-course loop, `tabulate` rendering). Neither are app.py (Flask and HTML rendering), run_schedule.py and simple_fetch.py. run_schedule.py fills its grid with "-" rather than "". `Schedule`, `TrySchedule` and `TryScheduleNoTimeFirst` only require the grid's shape, so on such a grid they do compute "-；name(label)" in the NoTime cell; only the constructor and `Valid()` (which reads "" as free) exclude it.
- The pandas DataFrame becomes a map from (row, column) cells to strings. Rendering empty cells with a placeholder is left out.
