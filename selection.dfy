/**
 * The views the page derives from the catalog and the selection: `allCourses`,
 * `displayCourses`, `selectedCourses`, `filteredCourses`, `totalCredits`, and the
 * `toggleCourse` and `conflictWithSelection` handlers.
 */
module Selection {
  import opened Wrappers
  import opened Lists
  import opened Text
  import opened Courses
  import opened Conflicts
  import opened Timetable

  /** `allCourses`: the fetched catalog once it is non-empty, the bundled courses before. */
  function AllCourses(apiCourses: seq<Course>, baseCourses: seq<Course>): (r: seq<Course>)
    ensures apiCourses != [] ==> r == apiCourses
    ensures apiCourses == [] ==> r == baseCourses
  {
    if apiCourses != [] then apiCourses else baseCourses
  }

  /** Rows of the fetched catalog listed under `selectedMajor`: unlabelled ones, or those of that major. */
  predicate ShownFor(selectedMajor: string, c: Course) {
    c.sourceMajor == "" || c.sourceMajor == selectedMajor
  }

  /** `displayCourses`. */
  function DisplayCourses(apiCourses: seq<Course>, baseCourses: seq<Course>, selectedMajor: string): (r: seq<Course>)
    ensures apiCourses == [] ==> r == baseCourses
    ensures apiCourses != [] ==> forall c :: c in r <==> c in apiCourses && ShownFor(selectedMajor, c)
    ensures |r| <= |AllCourses(apiCourses, baseCourses)|
    ensures forall c :: c in r ==> c in AllCourses(apiCourses, baseCourses)
  {
    if apiCourses == [] then AllCourses(apiCourses, baseCourses)
    else Filter((c: Course) => ShownFor(selectedMajor, c), apiCourses)
  }

  /** `selectedCourses`: the catalog entries whose id is selected, in catalog order. */
  function SelectedCourses(all: seq<Course>, selectedIds: seq<int>): (r: seq<Course>)
    ensures forall c :: c in r <==> c in all && c.id in selectedIds
  {
    Filter((c: Course) => c.id in selectedIds, all)
  }

  // ---------------------------------------------------------------- filteredCourses

  /** `byDay`: the course meets on `day`, or no day is chosen (`'all'`). */
  predicate ByDay(day: Option<Day>, c: Course) {
    day.None? || exists s :: s in c.slots && s.day == day.value
  }

  /** `byGrade`: the course is for `grade`, or no grade is chosen (`'all'`). */
  predicate ByGrade(grade: Option<nat>, c: Course) {
    grade.None? || c.grade == grade.value
  }

  /** `byTerm`: an empty term, or one found in the lowered name, professor or code. */
  predicate ByTerm(term: string, c: Course) {
    |term| == 0 || Contains(Lower(c.name), term) || Contains(Lower(c.professor), term) || Contains(Lower(c.code), term)
  }

  /** `term` as the list filter uses it: the search box trimmed and lowered. */
  function SearchTerm(search: string): string {
    Lower(Trim(search))
  }

  /** `filteredCourses`. */
  function FilteredCourses(display: seq<Course>, grade: Option<nat>, day: Option<Day>, search: string): (r: seq<Course>)
    ensures |r| <= |display|
    ensures forall c :: c in r <==>
      c in display && ByGrade(grade, c) && ByDay(day, c) && ByTerm(SearchTerm(search), c)
  {
    var term := SearchTerm(search);
    Filter((c: Course) => ByGrade(grade, c) && ByDay(day, c) && ByTerm(term, c), display)
  }

  /** With no grade, no day and a blank search box every displayed course is listed, in order. */
  lemma NoFilterListsAll(display: seq<Course>, search: string)
    requires AllSpace(search)
    ensures FilteredCourses(display, None, None, search) == display
  {
    var term := SearchTerm(search);
    assert term == [];
    FilterKeepsAll((c: Course) => ByGrade(None, c) && ByDay(None, c) && ByTerm(term, c), display);
  }

  /** The search ignores the case of ASCII letters typed into the box. */
  lemma SearchIgnoresCase(display: seq<Course>, grade: Option<nat>, day: Option<Day>, search: string)
    ensures FilteredCourses(display, grade, day, Lower(search)) == FilteredCourses(display, grade, day, search)
  {
    TrimLower(search);
    LowerIdempotent(Trim(search));
    assert SearchTerm(Lower(search)) == SearchTerm(search);
  }

  // ---------------------------------------------------------------- totalCredits

  /** `totalCredits`: the sum of the selected courses' credits. Each course adds its own
      credit, and the total is zero exactly when every selected course has no credit. */
  function TotalCredits(sel: seq<Course>): (r: nat)
    ensures forall k :: 0 <= k < |sel| ==> sel[k].credit <= r
    ensures r == 0 <==> forall k :: 0 <= k < |sel| ==> sel[k].credit == 0
  {
    if sel == [] then 0
    else
      assert forall k :: 0 < k < |sel| ==> sel[k] == sel[1..][k - 1];
      sel[0].credit + TotalCredits(sel[1..])
  }

  lemma {:induction false} TotalCreditsAppend(a: seq<Course>, b: seq<Course>)
    ensures TotalCredits(a + b) == TotalCredits(a) + TotalCredits(b)
  {
    if a != [] {
      assert (a + b)[0] == a[0] && (a + b)[1..] == a[1..] + b;
      TotalCreditsAppend(a[1..], b);
    } else {
      assert a + b == b;
    }
  }

  // ---------------------------------------------------------------- toggleCourse

  /** `toggleCourse`: drop `id` from the selection if it is there, append it otherwise. */
  function Toggle(selectedIds: seq<int>, id: int): (r: seq<int>)
    ensures id in selectedIds ==> forall x :: x in r <==> x in selectedIds && x != id
    ensures id !in selectedIds ==> r == selectedIds + [id]
  {
    if id in selectedIds then Filter((x: int) => x != id, selectedIds) else selectedIds + [id]
  }

  /** Toggling flips whether `id` is selected and leaves every other id as it was. */
  lemma ToggleFlips(selectedIds: seq<int>, id: int, x: int)
    ensures x in Toggle(selectedIds, id) <==> (if x == id then id !in selectedIds else x in selectedIds)
  {
  }

  /** Deselecting keeps the other ids in their order. */
  lemma ToggleRemoveKeepsOrder(a: seq<int>, id: int, b: seq<int>)
    requires id !in a && id !in b
    ensures Toggle(a + [id] + b, id) == a + b
  {
    var keep := (x: int) => x != id;
    assert (a + [id] + b)[|a|] == id;
    FilterDropsOne(keep, a, id, b);
  }

  /** Selecting and then deselecting a course restores the selection exactly. */
  lemma ToggleTwice(selectedIds: seq<int>, id: int)
    requires id !in selectedIds
    ensures Toggle(Toggle(selectedIds, id), id) == selectedIds
  {
    var keep := (x: int) => x != id;
    FilterAppend(keep, selectedIds, [id]);
    FilterKeepsAll(keep, selectedIds);
    assert Filter(keep, [id]) == [];
  }

  /** Toggling never lists an id twice. */
  lemma ToggleNoDup(selectedIds: seq<int>, id: int)
    requires NoDup(selectedIds)
    ensures NoDup(Toggle(selectedIds, id))
  {
    if id in selectedIds {
      FilterNoDup((x: int) => x != id, selectedIds);
    }
  }

  /** Entries the two selections treat alike are selected alike. */
  lemma {:induction false} SelectedAlike(all: seq<Course>, a: seq<int>, b: seq<int>)
    requires forall k :: 0 <= k < |all| ==> (all[k].id in a <==> all[k].id in b)
    ensures SelectedCourses(all, a) == SelectedCourses(all, b)
  {
    if all != [] {
      SelectedAlike(all[1..], a, b);
    }
  }

  /** Selecting one more catalog entry adds its credit to the total. */
  lemma {:induction false} SelectAddsCredit(all: seq<Course>, a: seq<int>, b: seq<int>, c: Course)
    requires DistinctIds(all) && c in all && c.id !in a
    requires forall x :: x in b <==> x in a || x == c.id
    ensures TotalCredits(SelectedCourses(all, b)) == TotalCredits(SelectedCourses(all, a)) + c.credit
  {
    var rest := all[1..];
    assert DistinctIds(rest) by {
      forall i, j | 0 <= i < j < |rest| ensures rest[i].id != rest[j].id {
        assert rest[i] == all[i + 1] && rest[j] == all[j + 1];
      }
    }
    if all[0] == c {
      forall k | 0 <= k < |rest| ensures rest[k].id in a <==> rest[k].id in b {
        assert rest[k] == all[k + 1];
      }
      SelectedAlike(rest, a, b);
    } else {
      assert c in rest;
      var i :| 0 <= i < |all| && all[i] == c;
      assert all[0].id != c.id;
      SelectAddsCredit(rest, a, b, c);
    }
  }

  /** `toggleCourse` on an unselected catalog entry raises `totalCredits` by its credit,
      and toggling it back lowers it again. */
  lemma ToggleCredits(all: seq<Course>, selectedIds: seq<int>, c: Course)
    requires DistinctIds(all) && c in all
    ensures c.id !in selectedIds ==>
      TotalCredits(SelectedCourses(all, Toggle(selectedIds, c.id))) == TotalCredits(SelectedCourses(all, selectedIds)) + c.credit
    ensures c.id in selectedIds ==>
      TotalCredits(SelectedCourses(all, Toggle(selectedIds, c.id))) + c.credit == TotalCredits(SelectedCourses(all, selectedIds))
  {
    if c.id !in selectedIds {
      SelectAddsCredit(all, selectedIds, Toggle(selectedIds, c.id), c);
    } else {
      SelectAddsCredit(all, Toggle(selectedIds, c.id), selectedIds, c);
    }
  }

  // ---------------------------------------------------------------- conflictWithSelection

  /** `conflictWithSelection`: a selected course reads its mark from the timetable, another is compared with the selection. */
  function ConflictWithSelection(course: Course, selectedIds: seq<int>, selected: seq<Course>, conflicts: set<int>): (r: bool)
    ensures course.id in selectedIds ==> (r <==> course.id in conflicts)
    ensures course.id !in selectedIds ==> (r <==> exists o :: o in selected && o.id != course.id && Meet(course, o))
  {
    if course.id in selectedIds then course.id in conflicts else OverlapsCourse(course, selected)
  }

  lemma TailDistinct(all: seq<Course>)
    requires all != [] && DistinctIds(all)
    ensures DistinctIds(all[1..])
    ensures forall k :: 0 <= k < |all| - 1 ==> all[1..][k].id != all[0].id
  {
    var rest := all[1..];
    forall i, j | 0 <= i < j < |rest| ensures rest[i].id != rest[j].id {
      assert rest[i] == all[i + 1] && rest[j] == all[j + 1];
    }
  }

  lemma ConsDistinct(x: Course, r: seq<Course>)
    requires DistinctIds(r) && forall c :: c in r ==> c.id != x.id
    ensures DistinctIds([x] + r)
  {
    var s := [x] + r;
    forall i, j | 0 <= i < j < |s| ensures s[i].id != s[j].id {
      assert s[j] == r[j - 1];
      if i > 0 {
        assert s[i] == r[i - 1];
      }
    }
  }

  /** Selecting from a catalog with distinct ids gives distinct ids. */
  lemma {:induction false} SelectedDistinct(all: seq<Course>, selectedIds: seq<int>)
    requires DistinctIds(all)
    ensures DistinctIds(SelectedCourses(all, selectedIds))
  {
    if all != [] {
      var rest := all[1..];
      TailDistinct(all);
      SelectedDistinct(rest, selectedIds);
      if all[0].id in selectedIds {
        var r := SelectedCourses(rest, selectedIds);
        assert forall c :: c in r ==> c in rest;
        ConsDistinct(all[0], r);
      }
    }
  }

  /** With the timetable's conflict set, the handler agrees with `overlapsCourse` against the
      selection for every catalog entry whose slots list no cell twice. */
  lemma ConflictWithSelectionAgrees(all: seq<Course>, selectedIds: seq<int>, conflicts: set<int>, course: Course)
    requires DistinctIds(all) && course in all && SimpleSlots(course)
    requires forall x :: x in conflicts <==> InConflict(SelectedCourses(all, selectedIds), x)
    ensures ConflictWithSelection(course, selectedIds, SelectedCourses(all, selectedIds), conflicts)
      == OverlapsCourse(course, SelectedCourses(all, selectedIds))
  {
    if course.id in selectedIds {
      SelectedDistinct(all, selectedIds);
      ConflictIffOverlap(SelectedCourses(all, selectedIds), course);
    }
  }
}
