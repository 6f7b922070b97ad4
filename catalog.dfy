/**
 * The fetched catalog (`apiCourses`) and the counter that numbers its entries
 * (`apiCourseIdRef`), with the updater that folds a batch of service rows into it:
 * a row whose code is already listed overwrites that entry under its old id, a row
 * with a new code is appended under the next counter value.
 */
module Catalog {
  import opened Wrappers
  import opened Text
  import opened Courses
  import opened SlotParser

  /** The counter's initial value: ids of fetched courses start here. */
  const FirstApiId: int := 100000

  /** The catalog with the counter, as the specification functions see them. */
  datatype CatalogState = CatalogState(courses: seq<Course>, nextId: int)

  /** No code is listed twice. */
  predicate UniqueCodes(cs: seq<Course>) {
    forall i, j :: 0 <= i < j < |cs| ==> cs[i].code != cs[j].code
  }

  /** Some entry carries `code`. */
  predicate HasCode(cs: seq<Course>, code: string) {
    exists k :: 0 <= k < |cs| && cs[k].code == code
  }

  /** Every id was handed out by the counter: at least `FirstApiId`, below its current value. */
  predicate IdsIssued(cs: seq<Course>, nextId: int) {
    forall k :: 0 <= k < |cs| ==> FirstApiId <= cs[k].id < nextId
  }

  /** What every merge keeps true of the catalog. */
  predicate CatalogInv(s: CatalogState) {
    UniqueCodes(s.courses) && DistinctIds(s.courses) && FirstApiId <= s.nextId && IdsIssued(s.courses, s.nextId)
  }

  /** `item.time || item.timeEng || item.code`: the text the slots are read from. */
  function SlotSource(row: CourseRow): (r: string)
    ensures row.time != "" ==> r == row.time
    ensures row.time == "" && row.timeEng != "" ==> r == row.timeEng
    ensures row.time == "" && row.timeEng == "" ==> r == row.code
  {
    if row.time != "" then row.time else if row.timeEng != "" then row.timeEng else row.code
  }

  /** `liveMajor || selectedMajor`: the major stored as `sourceMajor`. */
  function Label(liveMajor: string, selectedMajor: string): (r: string)
    ensures liveMajor != "" ==> r == liveMajor
    ensures liveMajor == "" ==> r == selectedMajor
  {
    if liveMajor != "" then liveMajor else selectedMajor
  }

  /** The catalog entry built from a row under a given id. */
  function MakeCourse(id: int, row: CourseRow, major: string): (c: Course)
    ensures c.id == id && c.code == row.code && c.sourceMajor == major
    ensures c.slots == SlotsOf(Tokenize(SlotSource(row)))
  {
    Course(id, row.code, row.name, row.professor, row.credit, row.grade, row.area,
           SlotsOf(Tokenize(SlotSource(row))), row.isEnglish, row.remark, major)
  }

  /** `findIndex((value) => value.code === code)`: the first position carrying `code`, or -1. */
  function FindCode(cs: seq<Course>, code: string): (r: int)
    ensures -1 <= r < |cs|
    ensures r >= 0 ==> cs[r].code == code && forall j :: 0 <= j < r ==> cs[j].code != code
    ensures r < 0 <==> !HasCode(cs, code)
  {
    if cs == [] then -1
    else if cs[0].code == code then 0
    else
      var j := FindCode(cs[1..], code);
      assert forall k :: 0 < k < |cs| ==> cs[k] == cs[1..][k - 1];
      if j < 0 then -1 else j + 1
  }

  // ---------------------------------------------------------------- specification

  /** One row folded into the catalog: a listed code keeps the length and the counter, a new
      one adds one entry under the counter value and advances it; either way the code is listed. */
  function MergeRow(s: CatalogState, row: CourseRow, major: string): (r: CatalogState)
    ensures HasCode(s.courses, row.code) ==> |r.courses| == |s.courses| && r.nextId == s.nextId
    ensures !HasCode(s.courses, row.code) ==>
      |r.courses| == |s.courses| + 1 && r.nextId == s.nextId + 1 && r.courses[|s.courses|].id == s.nextId
    ensures HasCode(r.courses, row.code)
  {
    var k := FindCode(s.courses, row.code);
    if k >= 0 then
      var cs := s.courses[k := MakeCourse(s.courses[k].id, row, major)];
      assert cs[k].code == row.code;
      CatalogState(cs, s.nextId)
    else
      var cs := s.courses + [MakeCourse(s.nextId, row, major)];
      assert cs[|s.courses|].code == row.code;
      CatalogState(cs, s.nextId + 1)
  }

  /** A batch folded into the catalog row by row; the counter advances by the number of
      entries the batch appends. */
  function MergeRows(s: CatalogState, rows: seq<CourseRow>, major: string): (r: CatalogState)
    ensures |s.courses| <= |r.courses|
    ensures r.nextId - s.nextId == |r.courses| - |s.courses|
  {
    if rows == [] then s else MergeRow(MergeRows(s, rows[..|rows| - 1], major), rows[|rows| - 1], major)
  }

  lemma MergeRowsStep(s: CatalogState, rows: seq<CourseRow>, i: nat, major: string)
    requires i < |rows|
    ensures MergeRows(s, rows[..i + 1], major) == MergeRow(MergeRows(s, rows[..i], major), rows[i], major)
  {
    assert rows[..i + 1][..i] == rows[..i];
  }

  // ---------------------------------------------------------------- one row

  /** A row whose code is listed at `k` overwrites that entry, keeps its id, and changes nothing else. */
  lemma MergeRowExisting(s: CatalogState, row: CourseRow, major: string, k: nat)
    requires UniqueCodes(s.courses) && k < |s.courses| && s.courses[k].code == row.code
    ensures MergeRow(s, row, major).courses == s.courses[k := MakeCourse(s.courses[k].id, row, major)]
    ensures MergeRow(s, row, major).nextId == s.nextId
  {
    var f := FindCode(s.courses, row.code);
    assert !(f < k) && !(k < f);
  }

  /** A row with a code not listed is appended under the counter value, which then advances by one. */
  lemma MergeRowFresh(s: CatalogState, row: CourseRow, major: string)
    requires !HasCode(s.courses, row.code)
    ensures MergeRow(s, row, major) == CatalogState(s.courses + [MakeCourse(s.nextId, row, major)], s.nextId + 1)
  {
  }

  /** One row keeps the catalog invariant, even when the batch repeats a code. */
  lemma MergeRowInv(s: CatalogState, row: CourseRow, major: string)
    requires CatalogInv(s)
    ensures CatalogInv(MergeRow(s, row, major))
  {
    var k := FindCode(s.courses, row.code);
    var r := MergeRow(s, row, major);
    if k < 0 {
      var cs := r.courses;
      assert forall i :: 0 <= i < |s.courses| ==> cs[i] == s.courses[i];
      assert cs[|s.courses|].code == row.code && cs[|s.courses|].id == s.nextId;
    }
  }

  // ---------------------------------------------------------------- a batch

  /** Merging keeps the catalog invariant. */
  lemma {:induction false} MergeRowsInv(s: CatalogState, rows: seq<CourseRow>, major: string)
    requires CatalogInv(s)
    ensures CatalogInv(MergeRows(s, rows, major))
  {
    if rows != [] {
      MergeRowsInv(s, rows[..|rows| - 1], major);
      MergeRowInv(MergeRows(s, rows[..|rows| - 1], major), rows[|rows| - 1], major);
    }
  }

  /** Entries are never removed or moved: each keeps its position, code and id, and fresh
      entries follow under consecutive ids taken from the counter. */
  ghost predicate Grows(s: CatalogState, r: CatalogState) {
    && |s.courses| <= |r.courses|
    && r.nextId == s.nextId + (|r.courses| - |s.courses|)
    && (forall k :: 0 <= k < |s.courses| ==> r.courses[k].id == s.courses[k].id && r.courses[k].code == s.courses[k].code)
    && (forall k :: |s.courses| <= k < |r.courses| ==> r.courses[k].id == s.nextId + (k - |s.courses|))
  }

  lemma GrowsStep(s: CatalogState, m: CatalogState, row: CourseRow, major: string)
    requires Grows(s, m)
    ensures Grows(s, MergeRow(m, row, major))
  {
    var k := FindCode(m.courses, row.code);
    var r := MergeRow(m, row, major);
    if k < 0 {
      assert forall i :: 0 <= i < |m.courses| ==> r.courses[i] == m.courses[i];
    }
  }

  lemma {:induction false} MergeRowsGrows(s: CatalogState, rows: seq<CourseRow>, major: string)
    ensures Grows(s, MergeRows(s, rows, major))
  {
    if rows != [] {
      MergeRowsGrows(s, rows[..|rows| - 1], major);
      GrowsStep(s, MergeRows(s, rows[..|rows| - 1], major), rows[|rows| - 1], major);
    }
  }

  /** No code is ever dropped: every code listed before a merge is listed after it. */
  lemma MergeKeepsCodes(s: CatalogState, rows: seq<CourseRow>, major: string, code: string)
    requires HasCode(s.courses, code)
    ensures HasCode(MergeRows(s, rows, major).courses, code)
  {
    MergeRowsGrows(s, rows, major);
    var k :| 0 <= k < |s.courses| && s.courses[k].code == code;
    assert MergeRows(s, rows, major).courses[k].code == code;
  }

  /** None of the batch's rows carries `code`. */
  predicate NotInBatch(rows: seq<CourseRow>, code: string) {
    forall j :: 0 <= j < |rows| ==> rows[j].code != code
  }

  /** An entry whose code no row of the batch carries is left exactly as it was. */
  lemma {:induction false} MergeRowsUntouched(s: CatalogState, rows: seq<CourseRow>, major: string, k: nat)
    requires k < |s.courses| && NotInBatch(rows, s.courses[k].code)
    ensures k < |MergeRows(s, rows, major).courses| && MergeRows(s, rows, major).courses[k] == s.courses[k]
  {
    if rows != [] {
      var init := rows[..|rows| - 1];
      assert NotInBatch(init, s.courses[k].code) by {
        forall j | 0 <= j < |init| ensures init[j].code != s.courses[k].code {
          assert init[j] == rows[j];
        }
      }
      MergeRowsUntouched(s, init, major, k);
      var m := MergeRows(s, init, major);
      var f := FindCode(m.courses, rows[|rows| - 1].code);
      assert f != k;
    }
  }

  /** After a merge every code of the batch is listed. */
  lemma {:induction false} MergeCoversBatch(s: CatalogState, rows: seq<CourseRow>, major: string, j: nat)
    requires j < |rows|
    ensures HasCode(MergeRows(s, rows, major).courses, rows[j].code)
  {
    var init := rows[..|rows| - 1];
    var m := MergeRows(s, init, major);
    var last := rows[|rows| - 1];
    var r := MergeRow(m, last, major);
    if j == |rows| - 1 {
      var f := FindCode(m.courses, last.code);
      if f >= 0 {
        assert r.courses[f].code == last.code;
      } else {
        assert r.courses[|m.courses|].code == last.code;
      }
    } else {
      assert rows[j] == init[j];
      MergeCoversBatch(s, init, major, j);
      var k :| 0 <= k < |m.courses| && m.courses[k].code == rows[j].code;
      GrowsStep(m, m, last, major);
      assert r.courses[k].code == rows[j].code;
    }
  }

  /** A batch made only of listed codes neither grows the catalog nor advances the counter. */
  lemma {:induction false} MergeKnownCodes(s: CatalogState, rows: seq<CourseRow>, major: string)
    requires UniqueCodes(s.courses)
    requires forall j :: 0 <= j < |rows| ==> HasCode(s.courses, rows[j].code)
    ensures |MergeRows(s, rows, major).courses| == |s.courses|
    ensures MergeRows(s, rows, major).nextId == s.nextId
  {
    if rows != [] {
      var init := rows[..|rows| - 1];
      assert forall j :: 0 <= j < |init| ==> init[j] == rows[j];
      MergeKnownCodes(s, init, major);
      var m := MergeRows(s, init, major);
      MergeRowsGrows(s, init, major);
      var last := rows[|rows| - 1];
      var k :| 0 <= k < |s.courses| && s.courses[k].code == last.code;
      assert m.courses[k].code == last.code;
    }
  }

  /** Merging the same batch a second time hands out no new ids. */
  lemma RemergeAllocatesNothing(s: CatalogState, rows: seq<CourseRow>, major: string)
    requires CatalogInv(s)
    ensures var once := MergeRows(s, rows, major);
      var twice := MergeRows(once, rows, major);
      |twice.courses| == |once.courses| && twice.nextId == once.nextId
  {
    var once := MergeRows(s, rows, major);
    MergeRowsInv(s, rows, major);
    forall j | 0 <= j < |rows| ensures HasCode(once.courses, rows[j].code) {
      MergeCoversBatch(s, rows, major, j);
    }
    MergeKnownCodes(once, rows, major);
  }

  // ---------------------------------------------------------------- the updater

  /** `existingByCode` matches the working list: one key per listed code, mapped to its entry. */
  ghost predicate IndexOk(byCode: map<string, Course>, cs: seq<Course>) {
    && (forall code :: code in byCode <==> HasCode(cs, code))
    && (forall k :: 0 <= k < |cs| ==> cs[k].code in byCode && byCode[cs[k].code] == cs[k])
  }

  /** `new Map(prev.map((course) => [course.code, course]))`. */
  method IndexByCode(cs: seq<Course>) returns (byCode: map<string, Course>)
    requires UniqueCodes(cs)
    ensures IndexOk(byCode, cs)
  {
    byCode := map[];
    var k := 0;
    while k < |cs|
      invariant k <= |cs| && IndexOk(byCode, cs[..k])
    {
      assert forall i :: 0 <= i < k ==> cs[..k + 1][i] == cs[..k][i];
      byCode := byCode[cs[k].code := cs[k]];
      assert HasCode(cs[..k + 1], cs[k].code) by {
        assert cs[..k + 1][k] == cs[k];
      }
      forall code ensures code in byCode <==> HasCode(cs[..k + 1], code) {
        if HasCode(cs[..k + 1], code) && code != cs[k].code {
          var i :| 0 <= i < k + 1 && cs[..k + 1][i].code == code;
          assert cs[..k][i].code == code;
        }
        if HasCode(cs[..k], code) {
          var i :| 0 <= i < k && cs[..k][i].code == code;
          assert cs[..k + 1][i].code == code;
        }
      }
      k := k + 1;
    }
    assert cs[..k] == cs;
  }

  /** The `liveCourses.forEach` callback: one row merged into the working list, the index and the counter. */
  method MergeItem(updated: seq<Course>, byCode: map<string, Course>, counter: int, item: CourseRow, major: string)
    returns (updated': seq<Course>, byCode': map<string, Course>, counter': int)
    requires UniqueCodes(updated) && IndexOk(byCode, updated)
    ensures CatalogState(updated', counter') == MergeRow(CatalogState(updated, counter), item, major)
    ensures IndexOk(byCode', updated')
  {
    var existing := if item.code in byCode then Some(byCode[item.code]) else None;
    var id: int;
    counter' := counter;
    if existing.Some? {
      id := existing.value.id;
    } else {
      id := counter';
      counter' := counter' + 1;
    }
    var slots := ParseSlots(SlotSource(item));
    var course := Course(id, item.code, item.name, item.professor, item.credit, item.grade, item.area,
                         slots, item.isEnglish, item.remark, major);
    assert course == MakeCourse(id, item, major);
    updated' := updated;
    if existing.Some? {
      var index := FindCode(updated', item.code);
      if index >= 0 {
        updated' := updated'[index := course];
      }
    } else {
      updated' := updated' + [course];
    }
    byCode' := byCode[item.code := course];
    IndexAfter(byCode, updated, item.code, course, updated');
  }

  /** The update's effect on the list: the entry at `FindCode` replaced, or `course` appended. */
  predicate Replaced(cs: seq<Course>, code: string, course: Course, cs': seq<Course>) {
    var f := FindCode(cs, code);
    if f >= 0 then cs' == cs[f := course] else cs' == cs + [course]
  }

  lemma IndexKeysAfter(byCode: map<string, Course>, cs: seq<Course>, code: string, course: Course, cs': seq<Course>)
    requires IndexOk(byCode, cs) && course.code == code && Replaced(cs, code, course, cs')
    ensures forall c :: c in byCode[code := course] <==> HasCode(cs', c)
  {
    var f := FindCode(cs, code);
    forall c ensures c in byCode[code := course] <==> HasCode(cs', c) {
      if HasCode(cs, c) {
        var i :| 0 <= i < |cs| && cs[i].code == c;
        assert cs'[i].code == c || (i == f && c == code);
      }
      if HasCode(cs', c) && c != code {
        var i :| 0 <= i < |cs'| && cs'[i].code == c;
        assert i < |cs| && cs[i].code == c;
      }
      if c == code {
        assert cs'[if f >= 0 then f else |cs|] == course;
      }
    }
  }

  lemma IndexValuesAfter(byCode: map<string, Course>, cs: seq<Course>, code: string, course: Course, cs': seq<Course>)
    requires UniqueCodes(cs) && IndexOk(byCode, cs) && course.code == code && Replaced(cs, code, course, cs')
    ensures forall k :: 0 <= k < |cs'| ==> cs'[k].code in byCode[code := course] && byCode[code := course][cs'[k].code] == cs'[k]
  {
    var f := FindCode(cs, code);
    forall k | 0 <= k < |cs'| && k < |cs| && k != f
      ensures cs'[k].code != code && cs'[k] == cs[k]
    {
      if f >= 0 {
        assert f < k || k < f;
      }
    }
  }

  /** Setting `existingByCode` after the update keeps the index matching the working list. */
  lemma IndexAfter(byCode: map<string, Course>, cs: seq<Course>, code: string, course: Course, cs': seq<Course>)
    requires UniqueCodes(cs) && IndexOk(byCode, cs) && course.code == code && Replaced(cs, code, course, cs')
    ensures IndexOk(byCode[code := course], cs')
  {
    IndexKeysAfter(byCode, cs, code, course, cs');
    IndexValuesAfter(byCode, cs, code, course, cs');
  }

  /** The fold after one more row is that row merged into the fold so far, and the step keeps the invariant. */
  lemma MergeRowsNext(start: CatalogState, rows: seq<CourseRow>, i: nat, major: string)
    requires i < |rows|
    ensures MergeRows(start, rows[..i + 1], major) == MergeRow(MergeRows(start, rows[..i], major), rows[i], major)
    ensures CatalogInv(MergeRows(start, rows[..i], major)) ==> CatalogInv(MergeRows(start, rows[..i + 1], major))
  {
    MergeRowsStep(start, rows, i, major);
    var st := MergeRows(start, rows[..i], major);
    if CatalogInv(st) {
      MergeRowInv(st, rows[i], major);
    }
  }

  /** The fetched catalog and `apiCourseIdRef`. */
  class CourseCatalog {
    var courses: seq<Course>
    var nextId: int

    ghost predicate Valid()
      reads this
    {
      CatalogInv(CatalogState(courses, nextId))
    }

    /** An empty catalog with the counter at its seed. */
    constructor()
      ensures Valid() && courses == [] && nextId == FirstApiId
    {
      courses := [];
      nextId := FirstApiId;
    }

    /** The `setApiCourses` updater run for a fetched batch `rows` (nothing happens for an empty one). */
    method Merge(rows: seq<CourseRow>, liveMajor: string, selectedMajor: string)
      requires Valid()
      modifies this
      ensures Valid()
      ensures CatalogState(courses, nextId) ==
        MergeRows(CatalogState(old(courses), old(nextId)), rows, Label(liveMajor, selectedMajor))
    {
      if |rows| == 0 {
        return;
      }
      ghost var start := CatalogState(courses, nextId);
      var major := Label(liveMajor, selectedMajor);
      var byCode := IndexByCode(courses);
      var updated := courses;
      var i := 0;
      while i < |rows|
        invariant i <= |rows| && courses == start.courses
        invariant CatalogState(updated, nextId) == MergeRows(start, rows[..i], major)
        invariant CatalogInv(CatalogState(updated, nextId)) && IndexOk(byCode, updated)
      {
        MergeRowsNext(start, rows, i, major);
        updated, byCode, nextId := MergeItem(updated, byCode, nextId, rows[i], major);
        i := i + 1;
      }
      assert rows[..i] == rows;
      courses := updated;
    }
  }
}
