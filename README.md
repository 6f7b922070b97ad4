# Timetable composition engine

This project models and verifies the data logic of a course-timetable planner for a university
timetable page (`src/App.tsx`). A student picks courses from a catalog. The page does five things:

- It reads each course's meeting times out of a free-text time description, such as `월 1 2 (A101) 화 3`.
- It places the selected courses into a day-by-period grid.
- It flags courses that share a grid cell.
- It sums the credits.
- It keeps a list of named saved plans.

The catalog is filled from a course service in batches. Each batch is merged into the running
catalog by course code, and new codes are numbered from a counter that starts at 100000.

The model has these modules:

- `Wrappers` and `Lists`: an `Option` type (`T | null | undefined`), `Array.prototype.filter`, and an
  insertion sort standing in for `sort((a, b) => a - b)`.
- `Text`: the JavaScript string operations the page relies on. These are the `\s` class and
  `trim` (the exact whitespace set), `replace(/[()]/g, ' ')`, `split(/\s+/).filter(Boolean)`,
  `/^\d+$/` with `Number`, `String(n)`, `toLowerCase` and `includes`.
- `Courses`: days, slots, courses, service rows and `formatSlots`.
- `SlotParser`: `dayTokenMap` and `parseSlots`.
  - The scan is an imperative method, `ParseSlots`. It uses `Scan`, a loop over the tokens, and
    `Visit`, the body of the `forEach` callback.
  - `ParseSlots` is proved equal to a specification function, `SlotsOf`.
  - The output-shape properties are proved about `SlotsOf`.
- `Conflicts`: `overlapsCourse`, written as the source's nested `some` calls and proved equivalent
  to a reference definition: "both courses occupy a common (day, period) cell".
- `Timetable`: the `timetable` memo.
  - Three nested loops (`BuildGrid`, `AddSlots`, `AddPeriods`) fill the grid.
  - Two loops (`CollectConflicts`, `AddIds`) collect the conflict set.
  - The methods are proved against the specification function `Bucket`. The conflict set is tied
    to `overlapsCourse`.
- `Selection`: the derived views and the selection handlers.
  - The views are `allCourses`, `displayCourses`, `selectedCourses`, `filteredCourses` and
    `totalCredits`.
  - The handlers are `toggleCourse` and `conflictWithSelection`.
  - `ConflictWithSelection` states each branch against the reference notion of a clash, and
    `ConflictWithSelectionAgrees` ties the selected branch to `overlapsCourse`.
- `Plans`: `saveCurrentPlan`, `loadPlan` and `deletePlan` over a plain list of plans.
- `Catalog`: the class `CourseCatalog`.
  - It has the fetched catalog (`apiCourses`) and the id counter (`apiCourseIdRef.current`) as fields.
  - Its `Merge` method is the `setApiCourses` updater. Inside the loop, `MergeItem` is the body of
    the `forEach` callback.
  - `Merge` is proved equal to the fold `MergeRows`. The properties are proved about `MergeRows`.

Effects are inputs:

- `crypto.randomUUID` is an `Option<string>`.
- `Date.now()` is passed as two numbers: one for the fallback id and one for `createdAt`.
- The plan store is the sequence itself.
- `baseCourses`, the bundled course list, is a parameter of `AllCourses` and `DisplayCourses`.

## Model

| member | source | states |
|---|---|---|
| Lists.Filter | src/App.tsx:153 | `filter`: the result holds exactly the kept elements and is no longer than the input |
| Lists.FilterAppend | src/App.tsx:94-96 | filtering distributes over concatenation, so kept elements stay in their original order |
| Lists.FilterNoDup | src/App.tsx:153 | filtering a duplicate-free list leaves it duplicate-free |
| Lists.FilterDropsOne | src/App.tsx:153 | dropping one rejected element from between kept ones leaves the others in their order |
| Lists.SortAsc | src/App.tsx:337 | the numeric sort returns the bucket's values in ascending order, with the same length |
| Lists.SortAscSpec | src/App.tsx:337 | the numeric sort returns the same multiset of values, duplicates kept |
| Text.Trim | src/App.tsx:105 | `trim`: a middle slice of the input with only whitespace cut from either side, itself without whitespace at either end; empty exactly when the input is all whitespace |
| Text.TrimIdempotent | src/App.tsx:245 | trimming a trimmed name changes nothing |
| Text.TrimLower | src/App.tsx:105 | trimming and lowering commute |
| Text.BlankParens | src/App.tsx:320 | same length, each parenthesis becomes a space, every other character is kept, so no parenthesis survives |
| Text.Words | src/App.tsx:321 | `split(/\s+/).filter(Boolean)` yields only non-empty, whitespace-free tokens, each made of characters of the input |
| Text.WordsSkipSpaces | src/App.tsx:321 | leading whitespace yields no token and does not change the tokens after it |
| Text.WordsOfSpaces | src/App.tsx:321 | text made of whitespace only yields no tokens |
| Text.WordsSplit | src/App.tsx:321 | any non-empty whitespace run separates tokens as one space does, so repeated and trailing whitespace adds nothing |
| Text.Tokenize | src/App.tsx:320-321 | every token is non-empty and holds no whitespace and no parenthesis |
| Text.WordsUnwords | src/App.tsx:321 | splitting words joined by spaces gives back the same words |
| Text.ParensAreSpaces | src/App.tsx:320-321 | a parenthesis separates tokens exactly as a space does |
| Text.NatToString | src/App.tsx:245 | `String(n)` is a digit string without leading zeros |
| Text.DigitsRoundTrip | src/App.tsx:331 | `Number` applied to `String(n)` gives back `n` |
| Text.DigitsValue | src/App.tsx:331-332 | `Number` of a digit string is zero exactly when every digit is `0` |
| Text.Lower | src/App.tsx:105-112 | `toLowerCase` on ASCII: same length, no upper-case ASCII letter left, every other character kept |
| Text.Contains | src/App.tsx:112 | `includes`: the empty term is found in every text, and a found term is no longer than the text |
| Text.ContainsInfix | src/App.tsx:112 | a text built around the term contains it |
| Courses.DayIndex | src/App.tsx:14 | every day has a position in `dayOrder` |
| Courses.EveryDayListed | src/App.tsx:14 | `dayOrder` lists all five days |
| Courses.SlotText | src/App.tsx:39-44 | a slot prints as its day glyph and a space, followed by `-` exactly when it has no periods |
| Courses.FormatSlots | src/App.tsx:38-46 | the text is empty exactly when there are no slots and starts with the first slot's day |
| SlotParser.DayToken | src/App.tsx:299-317 | the day-name test agrees with the 17-entry `dayTokenMap` on every token |
| SlotParser.Classify | src/App.tsx:326-332 | a token of `dayTokenMap` is a day name with its day; otherwise a digit string is a number with its value; anything else is noise |
| SlotParser.GlyphIsDayToken | src/App.tsx:300-304 | each Korean day glyph reads back as its day |
| SlotParser.BucketsOf | src/App.tsx:322 | the five buckets exist and each holds what the scan pushed for that day |
| SlotParser.Visit | src/App.tsx:325-334 | one token moves the day cursor, appends its number to the current day's bucket, or does nothing |
| SlotParser.Scan | src/App.tsx:322-334 | after the loop each bucket holds the numbers read while the cursor was on its day, in order |
| SlotParser.ParseSlots | src/App.tsx:319-339 | the method's result equals the specification `SlotsOf` of the tokenized text |
| SlotParser.Collect | src/App.tsx:336-338 | every collected slot's day is among the scanned days and had a non-empty bucket |
| SlotParser.CollectDays | src/App.tsx:336-338 | a day appears in the output exactly when its bucket is non-empty |
| SlotParser.CollectOrder | src/App.tsx:336 | days appear in `dayOrder` order, none repeated |
| SlotParser.CollectSorted | src/App.tsx:337 | each slot's periods are non-empty, ascending, and the same multiset as its bucket |
| SlotParser.ParseShape | src/App.tsx:319-339 | output shape: sorted non-empty periods that keep duplicates, days in order, a day present iff it received a number |
| SlotParser.PeriodsForExactly | src/App.tsx:325-334 | a number is in a day's bucket iff it was read while the cursor was on that day |
| SlotParser.LeadingTokensDropped | src/App.tsx:330-332 | tokens before the first day name (numbers included) do not affect the result |
| SlotParser.NoiseIgnored | src/App.tsx:325-334 | a token that is neither a day name nor a digit string can be removed without changing the result |
| SlotParser.ExampleKoreanTokens | src/App.tsx:320-321 | `월 1 2 화 3` splits into the five tokens `월`, `1`, `2`, `화`, `3` |
| SlotParser.ExampleKoreanKinds | src/App.tsx:326-332 | those tokens read as two day names and three numbers |
| SlotParser.ExampleKorean | src/App.tsx:319-339 | the text `월 1 2 화 3` parses to 월 [1, 2] and 화 [3] |
| Conflicts.SharesPeriod | src/App.tsx:57 | true iff the two period lists have a common element |
| Conflicts.SlotsMeet | src/App.tsx:54-58 | true iff some slot on the other slot's day shares one of its periods |
| Conflicts.CellsMeet | src/App.tsx:53-58 | true iff the two slot lists occupy a common (day, period) cell |
| Conflicts.OverlapsCourse | src/App.tsx:48-59 | true iff some course with a different id occupies a cell in common with the target |
| Conflicts.OverlapsIgnoresOwnId | src/App.tsx:51 | entries carrying the target's own id never count as an overlap |
| Conflicts.OverlapsSymmetric | src/App.tsx:48-59 | for distinct ids, A overlaps B iff B overlaps A |
| Conflicts.OverlapsAppend | src/App.tsx:49 | overlap against a concatenation is overlap against either part |
| Timetable.PushCell | src/App.tsx:131-133 | a push appends to that one bucket and leaves every other cell as it was |
| Timetable.EmptyGridWellFormed | src/App.tsx:119-125 | the initial grid has a row for each day and no key with an empty bucket |
| Timetable.AddPeriods | src/App.tsx:130-134 | the course is appended once per occurrence of a period on the slot's day; other days unchanged |
| Timetable.AddSlots | src/App.tsx:129-135 | the course is appended to each cell once per visit of that cell by its slots |
| Timetable.BuildGrid | src/App.tsx:128-136 | every cell equals `Bucket`, and a key is present only with a non-empty bucket |
| Timetable.AddIds | src/App.tsx:141 | the set gains exactly the bucket's ids |
| Timetable.CollectConflicts | src/App.tsx:138-144 | the set holds exactly the ids lying in some bucket of more than one entry |
| Timetable.BuildTimetable | src/App.tsx:118-147 | the grid equals `Bucket` cell by cell, and an id is in the conflict set iff it is in a crowded bucket |
| Timetable.HitsPositive | src/App.tsx:128-136 | a course is pushed onto a cell iff one of its slots occupies it |
| Timetable.BucketMembers | src/App.tsx:128-136 | a cell's bucket contains a course iff it is selected and occupies that cell |
| Timetable.BucketAppend | src/App.tsx:128 | buckets keep selection order: more selected courses append to each bucket |
| Timetable.BucketMultiplicity | src/App.tsx:128-136 | with no course selected twice, a course sits in a bucket once per visit of that cell |
| Timetable.OverlapMarksConflict | src/App.tsx:138-144 | a selected course that overlaps another selected course is in the conflict set |
| Timetable.ConflictMeansOverlap | src/App.tsx:138-144 | with distinct ids and no cell listed twice, a conflict mark implies an overlap |
| Timetable.ConflictIffOverlap | src/App.tsx:138-144 | under those assumptions the conflict mark and `overlapsCourse` agree |
| Timetable.RepeatedPeriodSelfConflict | src/App.tsx:130-141 | a course listing a period twice is marked although it overlaps nothing |
| Selection.AllCourses | src/App.tsx:90 | the fetched catalog once it is non-empty, the bundled list before |
| Selection.DisplayCourses | src/App.tsx:92-97 | before any fetch the bundled list; after, exactly the fetched courses unlabelled or labelled with the chosen major; never more than `allCourses` holds |
| Selection.SelectedCourses | src/App.tsx:99-102 | exactly the catalog entries whose id is selected |
| Selection.FilteredCourses | src/App.tsx:104-116 | a course is listed iff it is displayed and passes the grade, day and term tests |
| Selection.NoFilterListsAll | src/App.tsx:104-116 | with no grade, no day and a blank search, every displayed course is listed, in order |
| Selection.SearchIgnoresCase | src/App.tsx:105 | the search ignores the case of ASCII letters |
| Selection.TotalCredits | src/App.tsx:149 | the sum is at least each selected course's credit, and zero exactly when all of them have no credit |
| Selection.TotalCreditsAppend | src/App.tsx:149 | the credit sum is additive over concatenation |
| Selection.Toggle | src/App.tsx:151-155 | a present id is removed entirely with the others kept; an absent one is appended at the end |
| Selection.ToggleRemoveKeepsOrder | src/App.tsx:153 | deselecting an id removes it and keeps the other ids in their order |
| Selection.ToggleFlips | src/App.tsx:151-155 | toggling flips membership of the id and no other |
| Selection.ToggleTwice | src/App.tsx:151-155 | selecting then deselecting restores the list exactly |
| Selection.ToggleNoDup | src/App.tsx:151-155 | toggling never introduces a duplicate |
| Selection.SelectedDistinct | src/App.tsx:99-102 | selecting from a catalog with distinct ids gives distinct ids |
| Selection.SelectedAlike | src/App.tsx:99-102 | two id lists that agree on the catalog's ids select the same courses |
| Selection.SelectAddsCredit | src/App.tsx:149 | one more selected catalog entry adds exactly its credit to the total |
| Selection.ToggleCredits | src/App.tsx:149-155 | toggling a course on or off moves `totalCredits` by its credit |
| Selection.ConflictWithSelection | src/App.tsx:157-162 | a selected course is flagged iff the timetable marked it; another iff some selected course with a different id shares a cell with it |
| Selection.ConflictWithSelectionAgrees | src/App.tsx:157-162 | given the timetable's conflict set, both branches agree with `overlapsCourse` against the selection |
| Plans.DefaultName | src/App.tsx:245 | the default name is non-empty and starts and ends with a non-space |
| Plans.DefaultNamesDiffer | src/App.tsx:245 | different plan numbers give different default names |
| Plans.SaveCurrentPlan | src/App.tsx:243-255 | one plan is prepended to the unchanged list, with the given selection and time; id from the UUID or the clock; name trimmed, or `시간표 N` when blank |
| Plans.DeletePlan | src/App.tsx:261-264 | exactly the plans with the deleted plan's id are dropped |
| Plans.LoadPlan | src/App.tsx:257-259 | the selection becomes exactly the plan's ids, order and repeats included |
| Plans.DeleteAppend | src/App.tsx:261-264 | deleting distributes over concatenation, so the remaining plans keep their newest-first order |
| Plans.LoadAfterSave | src/App.tsx:257-259 | loading the plan just saved restores its selection verbatim |
| Plans.DeleteMissing | src/App.tsx:261-264 | deleting an id no plan carries leaves the list unchanged |
| Plans.DeleteIdempotent | src/App.tsx:261-264 | deleting twice is deleting once |
| Plans.DeleteAfterSave | src/App.tsx:243-264 | deleting a just-saved plan whose id is new gives back the old list |
| Catalog.FindCode | src/App.tsx:366 | `findIndex`: the first position with the code, or -1 exactly when none has it |
| Catalog.SlotSource | src/App.tsx:359 | the slots are read from the time text, else the English time text, else the code |
| Catalog.Label | src/App.tsx:362 | the stored major is the live major, else the selected one |
| Catalog.MakeCourse | src/App.tsx:351-363 | the entry carries the given id, the row's code, the major, and the slots parsed from the slot text |
| Catalog.MergeRow | src/App.tsx:349-373 | a listed code keeps the length and the counter; a new code adds one entry under the counter value and advances it; the code is listed afterwards |
| Catalog.MergeRows | src/App.tsx:345-378 | the catalog never shrinks, and the counter advances by exactly the number of appended entries |
| Catalog.MergeRowExisting | src/App.tsx:350-369 | a listed code overwrites its entry in place under its old id; length and counter unchanged |
| Catalog.MergeRowFresh | src/App.tsx:350-372 | a new code is appended under the counter value, and the counter advances by one |
| Catalog.MergeRowInv | src/App.tsx:345-375 | one row keeps codes unique, ids distinct and ids within [100000, counter) |
| Catalog.MergeRowsInv | src/App.tsx:345-378 | a whole batch keeps that invariant, even when the batch repeats a code |
| Catalog.MergeRowsGrows | src/App.tsx:345-378 | nothing removed or moved; ids and codes stable; fresh entries get consecutive ids; counter grows by their number |
| Catalog.MergeKeepsCodes | src/App.tsx:347 | every code listed before a merge is listed after it |
| Catalog.MergeRowsUntouched | src/App.tsx:347-378 | an entry whose code is not in the batch is unchanged |
| Catalog.MergeCoversBatch | src/App.tsx:365-374 | after a merge every code of the batch is listed |
| Catalog.MergeKnownCodes | src/App.tsx:350-369 | a batch of listed codes neither grows the catalog nor advances the counter |
| Catalog.RemergeAllocatesNothing | src/App.tsx:349-375 | merging the same batch again hands out no new ids |
| Catalog.IndexByCode | src/App.tsx:346 | the code index maps each listed code to its entry and holds no other key |
| Catalog.IndexAfter | src/App.tsx:374 | updating the index after the write keeps it matching the working list |
| Catalog.MergeItem | src/App.tsx:349-375 | one callback run computes `MergeRow` and keeps the index matching |
| Catalog.MergeRowsNext | src/App.tsx:349-375 | the fold after one more row is that row merged into the fold so far, and it keeps the invariant |
| Catalog.CourseCatalog.constructor | src/App.tsx:84 | an empty catalog with the counter at 100000 |
| Catalog.CourseCatalog.Merge | src/App.tsx:341-379 | the new catalog and counter are the fold `MergeRows` of the batch, and the invariant holds |

## Left out

- The network client in `src/api/hufs.ts`. It is left out because it does HTTP, URL-decoding and JSON parsing. `CourseRow` is only the merge's input record, and its fields `nameEng`, `professorEng`, `isOnline` and `syllabus` are unused by the merge.
- `Number(item.grade) || 0`, because of its string-to-number conversion. `grade` and `credit` are taken as already-converted naturals.
- React wiring, because it is plumbing: state hooks, memo dependencies, the async loaders with their loading and error flags, and the ordering of in-flight fetches.
- The merge running on a new batch is a React effect. Only the updater's effect on the catalog is modelled, and the empty-batch return is its first line.
- `localStorage`, `JSON.parse` and `JSON.stringify`, because they are I/O. `persistPlans` is the new list itself.
- The `saveModal` and `planName` resets after saving, because they are UI flags.
- `crypto.randomUUID` and `Date.now`, because they are effects. They are inputs to `SaveCurrentPlan`, and whether `randomUUID` exists is the `Some`/`None` of its `uuid` argument.
- Image export, the repository-description fetch and all JSX rendering, including the grid view, because they are output only.
- `Text.Lower`: does not model full Unicode `toLowerCase`, because the model has no Unicode case tables. Only ASCII letters are lowered.
- `SlotParser.DayToken`: does not model inherited object keys, because they depend on the JavaScript prototype chain. On the page, a token such as `constructor`, `toString` or `__proto__` finds an inherited value that is truthy, so `currentDay` becomes something that is not a day. A digit token after it then indexes a missing bucket, and `push` throws a `TypeError` that aborts the whole merge updater. The model uses the 17 own keys only and treats such tokens as noise.
- `Text.DigitsValue`: computes digit strings exactly. `Number` loses precision above 2^53.
- `Lists.SortAsc`: is an insertion sort, not the engine's own algorithm. Any sort of numbers by `a - b` orders equal values the same way, so the result is the same.
- `Catalog.CourseCatalog.Merge`: requires `Valid()`, meaning unique codes and distinct ids within [100000, counter). The constructor and every merge keep this, so no catalog the page builds violates it. The last-key-wins `Map` behaviour on a catalog with duplicate codes is not modelled.
- `Timetable.ConflictIffOverlap`: assumes distinct ids and that no (day, period) cell is listed twice in one course. `RepeatedPeriodSelfConflict` shows the page marks such a course as conflicting on its own. This is the page's behaviour as written, and the model keeps it.
- The bundled `baseCourses` module (`src/data/courses`) is not part of this model. It is a parameter.
