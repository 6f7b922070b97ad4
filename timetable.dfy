/**
 * The `timetable` memo: the grid of day -> period -> bucket of selected courses,
 * filled by three nested loops over courses, slots and periods, and the set of
 * ids found in a bucket holding more than one course.
 */
module Timetable {
  import opened Lists
  import opened Courses
  import opened Conflicts

  /** `Record<Day, Record<number, Course[]>>`. */
  type Grid = map<Day, map<nat, seq<Course>>>

  /** `grid[d][p] ?? []`. */
  function CellAt(g: Grid, d: Day, p: nat): seq<Course> {
    if d in g && p in g[d] then g[d][p] else []
  }

  /** Every day has a row, and a period key is only present once something was pushed under it. */
  predicate WellFormed(g: Grid) {
    (forall e :: e in g) && (forall e, q :: e in g && q in g[e] ==> g[e][q] != [])
  }

  // ---------------------------------------------------------------- specification

  /** How often `p` occurs in `ps`. */
  function Count(ps: seq<nat>, p: nat): nat {
    if ps == [] then 0 else Count(ps[..|ps| - 1], p) + (if ps[|ps| - 1] == p then 1 else 0)
  }

  /** How often the slot and period loops visit cell (`d`, `p`) for one course. */
  function Hits(slots: seq<Slot>, d: Day, p: nat): nat {
    if slots == [] then 0
    else
      var s := slots[|slots| - 1];
      Hits(slots[..|slots| - 1], d, p) + (if s.day == d then Count(s.periods, p) else 0)
  }

  /** `n` copies of `c`. */
  function Copies(c: Course, n: nat): (r: seq<Course>)
    ensures |r| == n && forall k :: 0 <= k < n ==> r[k] == c
  {
    seq(n, _ => c)
  }

  /** The bucket of cell (`d`, `p`) after the selected courses were pushed in order. */
  function Bucket(sel: seq<Course>, d: Day, p: nat): seq<Course> {
    if sel == [] then []
    else
      var c := sel[|sel| - 1];
      Bucket(sel[..|sel| - 1], d, p) + Copies(c, Hits(c.slots, d, p))
  }

  /** The ids of the courses in a bucket. */
  function Ids(cs: seq<Course>): set<int> {
    set c | c in cs :: c.id
  }

  /** Id `x` belongs to a course sharing a bucket with another entry. */
  ghost predicate InConflict(sel: seq<Course>, x: int) {
    exists d: Day, p: nat :: |Bucket(sel, d, p)| > 1 && x in Ids(Bucket(sel, d, p))
  }

  // ---------------------------------------------------------------- step lemmas

  lemma CopiesAdd(c: Course, a: nat, b: nat)
    ensures Copies(c, a) + Copies(c, b) == Copies(c, a + b)
  {
    assert forall k :: 0 <= k < a + b ==> (Copies(c, a) + Copies(c, b))[k] == c;
  }

  lemma CountStep(ps: seq<nat>, k: nat, p: nat)
    requires k < |ps|
    ensures Count(ps[..k + 1], p) == Count(ps[..k], p) + (if ps[k] == p then 1 else 0)
  {
    assert ps[..k + 1][..k] == ps[..k];
  }

  lemma HitsStep(slots: seq<Slot>, j: nat, d: Day, p: nat)
    requires j < |slots|
    ensures Hits(slots[..j + 1], d, p) == Hits(slots[..j], d, p) + (if slots[j].day == d then Count(slots[j].periods, p) else 0)
  {
    assert slots[..j + 1][..j] == slots[..j];
  }

  lemma BucketStep(sel: seq<Course>, i: nat, d: Day, p: nat)
    requires i < |sel|
    ensures Bucket(sel[..i + 1], d, p) == Bucket(sel[..i], d, p) + Copies(sel[i], Hits(sel[i].slots, d, p))
  {
    assert sel[..i + 1][..i] == sel[..i];
  }

  /** `grid[d][p] = [...(grid[d][p] ?? []), c]`. */
  function Push(g: Grid, d: Day, p: nat, c: Course): Grid
    requires d in g
  {
    var row: map<nat, seq<Course>> := g[d][p := CellAt(g, d, p) + [c]];
    g[d := row]
  }

  /** Pushing `c` onto the bucket of (`d`, `p`) changes that bucket only. */
  lemma PushCell(g: Grid, d: Day, p: nat, c: Course)
    requires WellFormed(g)
    ensures WellFormed(Push(g, d, p, c))
    ensures CellAt(Push(g, d, p, c), d, p) == CellAt(g, d, p) + [c]
    ensures forall e, q :: (e != d || q != p) ==> CellAt(Push(g, d, p, c), e, q) == CellAt(g, e, q)
  {
  }

  /** The invariant of the period loop, carried over one push. */
  ghost predicate PeriodsPushed(g: Grid, g': Grid, c: Course, d: Day, ps: seq<nat>) {
    && WellFormed(g')
    && (forall q :: CellAt(g', d, q) == CellAt(g, d, q) + Copies(c, Count(ps, q)))
    && (forall e, q :: e != d ==> CellAt(g', e, q) == CellAt(g, e, q))
  }

  lemma PeriodStep(g: Grid, g': Grid, c: Course, d: Day, ps: seq<nat>, k: nat)
    requires k < |ps| && PeriodsPushed(g, g', c, d, ps[..k])
    ensures PeriodsPushed(g, Push(g', d, ps[k], c), c, d, ps[..k + 1])
  {
    PushCell(g', d, ps[k], c);
    forall q ensures CellAt(Push(g', d, ps[k], c), d, q) == CellAt(g, d, q) + Copies(c, Count(ps[..k + 1], q)) {
      CountStep(ps, k, q);
      CopiesAdd(c, Count(ps[..k], q), 1);
    }
  }

  /** The grid the memo starts from: one empty row per day. */
  const EmptyGrid: Grid := map[Mon := map[], Tue := map[], Wed := map[], Thu := map[], Fri := map[]]

  lemma EmptyGridWellFormed()
    ensures WellFormed(EmptyGrid)
  {
    forall e: Day ensures e in EmptyGrid {
      assert e.Mon? || e.Tue? || e.Wed? || e.Thu? || e.Fri?;
    }
  }

  // ---------------------------------------------------------------- the loops

  /** `slot.periods.forEach(...)`: `c` is pushed onto the bucket of each period of day `d`. */
  method AddPeriods(g: Grid, c: Course, d: Day, ps: seq<nat>) returns (g': Grid)
    requires WellFormed(g)
    ensures WellFormed(g')
    ensures forall q :: CellAt(g', d, q) == CellAt(g, d, q) + Copies(c, Count(ps, q))
    ensures forall e, q :: e != d ==> CellAt(g', e, q) == CellAt(g, e, q)
  {
    g' := g;
    var k := 0;
    assert ps[..0] == [];
    while k < |ps|
      invariant k <= |ps| && PeriodsPushed(g, g', c, d, ps[..k])
    {
      var p := ps[k];
      var bucket := CellAt(g', d, p);
      bucket := bucket + [c];
      PeriodStep(g, g', c, d, ps, k);
      assert g'[d := g'[d][p := bucket]] == Push(g', d, p, c);
      g' := g'[d := g'[d][p := bucket]];
      k := k + 1;
    }
    assert ps[..k] == ps;
  }

  /** `course.slots.forEach(...)`: `c` is pushed once per cell visit of its slots. */
  method AddSlots(g: Grid, c: Course) returns (g': Grid)
    requires WellFormed(g)
    ensures WellFormed(g')
    ensures forall e, q :: CellAt(g', e, q) == CellAt(g, e, q) + Copies(c, Hits(c.slots, e, q))
  {
    g' := g;
    var j := 0;
    while j < |c.slots|
      invariant j <= |c.slots| && WellFormed(g')
      invariant forall e, q :: CellAt(g', e, q) == CellAt(g, e, q) + Copies(c, Hits(c.slots[..j], e, q))
    {
      var slot := c.slots[j];
      ghost var before := g';
      g' := AddPeriods(g', c, slot.day, slot.periods);
      forall e, q ensures CellAt(g', e, q) == CellAt(g, e, q) + Copies(c, Hits(c.slots[..j + 1], e, q)) {
        HitsStep(c.slots, j, e, q);
        var n := if slot.day == e then Count(slot.periods, q) else 0;
        CopiesAdd(c, Hits(c.slots[..j], e, q), n);
        assert CellAt(g', e, q) == CellAt(before, e, q) + Copies(c, n);
      }
      j := j + 1;
    }
    assert c.slots[..j] == c.slots;
  }

  /** `selectedCourses.forEach(...)` over an empty grid with one row per day. */
  method BuildGrid(sel: seq<Course>) returns (g: Grid)
    ensures WellFormed(g)
    ensures forall e, q :: CellAt(g, e, q) == Bucket(sel, e, q)
  {
    EmptyGridWellFormed();
    g := EmptyGrid;
    var i := 0;
    while i < |sel|
      invariant i <= |sel| && WellFormed(g)
      invariant forall e, q :: CellAt(g, e, q) == Bucket(sel[..i], e, q)
    {
      ghost var before := g;
      g := AddSlots(g, sel[i]);
      forall e, q ensures CellAt(g, e, q) == Bucket(sel[..i + 1], e, q) {
        BucketStep(sel, i, e, q);
      }
      i := i + 1;
    }
    assert sel[..i] == sel;
  }

  /** Id `x` is in a bucket of `g` under a present key, and that bucket holds more than one entry. */
  ghost predicate Crowded(g: Grid, d: Day, p: nat, x: int) {
    d in g && p in g[d] && |g[d][p]| > 1 && x in Ids(g[d][p])
  }

  /** Some crowded bucket of a day before position `i` of `DayOrder` holds id `x`. */
  ghost predicate SeenBefore(g: Grid, i: nat, x: int) {
    exists d: Day, p: nat :: DayIndex(d) < i && Crowded(g, d, p, x)
  }

  /** Some crowded bucket of `day` under a key in `keys` holds id `x`. */
  ghost predicate SeenIn(g: Grid, day: Day, keys: set<nat>, x: int) {
    exists p: nat :: p in keys && Crowded(g, day, p, x)
  }

  /** `bucket.forEach((course) => conflicts.add(course.id))`. */
  method AddIds(conflicts: set<int>, bucket: seq<Course>) returns (conflicts': set<int>)
    ensures conflicts' == conflicts + Ids(bucket)
  {
    conflicts' := conflicts;
    var k := 0;
    while k < |bucket|
      invariant k <= |bucket|
      invariant conflicts' == conflicts + Ids(bucket[..k])
    {
      assert bucket[..k + 1] == bucket[..k] + [bucket[k]];
      conflicts' := conflicts' + {bucket[k].id};
      k := k + 1;
    }
    assert bucket[..k] == bucket;
  }

  /** The two `Object.values(...).forEach` loops: ids of every bucket longer than one. */
  method CollectConflicts(g: Grid) returns (conflicts: set<int>)
    requires WellFormed(g)
    ensures forall x :: x in conflicts <==> SeenBefore(g, |DayOrder|, x)
  {
    conflicts := {};
    var i := 0;
    while i < |DayOrder|
      invariant i <= |DayOrder|
      invariant forall x :: x in conflicts <==> SeenBefore(g, i, x)
    {
      var day := DayOrder[i];
      var dayMap := g[day];
      var keys := dayMap.Keys;
      ghost var done: set<nat> := {};
      while keys != {}
        invariant keys <= dayMap.Keys && done == dayMap.Keys - keys
        invariant forall x :: x in conflicts <==> SeenBefore(g, i, x) || SeenIn(g, day, done, x)
      {
        var p :| p in keys;
        var bucket := dayMap[p];
        ghost var before := conflicts;
        if |bucket| > 1 {
          conflicts := AddIds(conflicts, bucket);
        }
        keys := keys - {p};
        forall x ensures x in conflicts <==> SeenBefore(g, i, x) || SeenIn(g, day, done + {p}, x) {
          if SeenIn(g, day, done + {p}, x) && !Crowded(g, day, p, x) {
            var q: nat :| q in done + {p} && Crowded(g, day, q, x);
            assert q in done;
          }
          if Crowded(g, day, p, x) {
            assert SeenIn(g, day, done + {p}, x);
          }
          if SeenIn(g, day, done, x) {
            var q: nat :| q in done && Crowded(g, day, q, x);
            assert q in done + {p};
          }
        }
        done := done + {p};
      }
      assert done == dayMap.Keys;
      forall x ensures x in conflicts <==> SeenBefore(g, i + 1, x) {
        if SeenBefore(g, i + 1, x) && !SeenBefore(g, i, x) {
          var d: Day, p: nat :| DayIndex(d) < i + 1 && Crowded(g, d, p, x);
          assert d == day && p in dayMap.Keys;
        }
        if SeenIn(g, day, dayMap.Keys, x) {
          var p: nat :| p in dayMap.Keys && Crowded(g, day, p, x);
          assert DayIndex(day) < i + 1;
        }
      }
      i := i + 1;
    }
  }

  /** The `timetable` memo: the filled grid and the conflicting ids. */
  method BuildTimetable(sel: seq<Course>) returns (grid: Grid, conflicts: set<int>)
    ensures WellFormed(grid)
    ensures forall e, q :: CellAt(grid, e, q) == Bucket(sel, e, q)
    ensures forall x :: x in conflicts <==> InConflict(sel, x)
  {
    grid := BuildGrid(sel);
    conflicts := CollectConflicts(grid);
    forall x ensures x in conflicts <==> InConflict(sel, x) {
      if x in conflicts {
        var d: Day, p: nat :| Crowded(grid, d, p, x);
        assert CellAt(grid, d, p) == Bucket(sel, d, p);
      }
      if InConflict(sel, x) {
        var d: Day, p: nat :| |Bucket(sel, d, p)| > 1 && x in Ids(Bucket(sel, d, p));
        assert CellAt(grid, d, p) == Bucket(sel, d, p);
        assert Crowded(grid, d, p, x);
      }
    }
  }

  // ---------------------------------------------------------------- what the buckets hold

  lemma {:induction false} CountPositive(ps: seq<nat>, p: nat)
    ensures Count(ps, p) > 0 <==> p in ps
  {
    if ps != [] {
      var init := ps[..|ps| - 1];
      CountPositive(init, p);
      assert ps == init + [ps[|ps| - 1]];
    }
  }

  /** One course is pushed onto a cell's bucket exactly when one of its slots occupies the cell. */
  lemma {:induction false} HitsPositive(slots: seq<Slot>, d: Day, p: nat)
    ensures Hits(slots, d, p) > 0 <==> InSlots(slots, d, p)
  {
    if slots != [] {
      var init, s := slots[..|slots| - 1], slots[|slots| - 1];
      HitsPositive(init, d, p);
      CountPositive(s.periods, p);
      assert slots == init + [s];
      if InSlots(slots, d, p) {
        var t :| t in slots && t.day == d && p in t.periods;
        if t != s {
          assert t in init;
        }
      }
      if InSlots(init, d, p) {
        var t :| t in init && t.day == d && p in t.periods;
        assert t in slots;
      }
    }
  }

  /** A course is in the bucket of a cell exactly when it is selected and occupies that cell. */
  lemma {:induction false} BucketMembers(sel: seq<Course>, d: Day, p: nat, c: Course)
    ensures c in Bucket(sel, d, p) <==> c in sel && InSlots(c.slots, d, p)
  {
    if sel != [] {
      var init, last := sel[..|sel| - 1], sel[|sel| - 1];
      BucketMembers(init, d, p, c);
      HitsPositive(last.slots, d, p);
      assert sel == init + [last];
      if Hits(last.slots, d, p) > 0 {
        assert Copies(last, Hits(last.slots, d, p))[0] == last;
      }
    }
  }

  /** Buckets keep selection order: selecting more courses appends to every bucket. */
  lemma {:induction false} BucketAppend(a: seq<Course>, b: seq<Course>, d: Day, p: nat)
    ensures Bucket(a + b, d, p) == Bucket(a, d, p) + Bucket(b, d, p)
  {
    if b == [] {
      assert a + b == a;
    } else {
      var init := b[..|b| - 1];
      assert (a + b)[..|a + b| - 1] == a + init;
      assert (a + b)[|a + b| - 1] == b[|b| - 1];
      BucketAppend(a, init, d, p);
    }
  }

  lemma {:induction false} CopiesCount(x: Course, n: nat, c: Course)
    ensures multiset(Copies(x, n))[c] == if c == x then n else 0
  {
    if n > 0 {
      CopiesAdd(x, n - 1, 1);
      CopiesCount(x, n - 1, c);
    }
  }

  /** With no course selected twice, a course sits in a bucket once per visit of that cell. */
  lemma {:induction false} BucketMultiplicity(sel: seq<Course>, d: Day, p: nat, c: Course)
    requires NoDup(sel)
    ensures multiset(Bucket(sel, d, p))[c] == if c in sel then Hits(c.slots, d, p) else 0
  {
    if sel != [] {
      var init, last := sel[..|sel| - 1], sel[|sel| - 1];
      assert sel == init + [last];
      assert NoDup(init) by {
        forall i, j | 0 <= i < j < |init| ensures init[i] != init[j] {
          assert init[i] == sel[i] && init[j] == sel[j];
        }
      }
      assert last !in init by {
        forall k | 0 <= k < |init| ensures init[k] != last {
          assert init[k] == sel[k];
        }
      }
      BucketMultiplicity(init, d, p, c);
      CopiesCount(last, Hits(last.slots, d, p), c);
    }
  }

  // ---------------------------------------------------------------- conflicts and overlap

  /** No (day, period) cell is listed twice among a course's slots. */
  ghost predicate SimpleSlots(c: Course) {
    forall d: Day, p: nat :: Hits(c.slots, d, p) <= 1
  }

  lemma SameIdSameCourse(sel: seq<Course>, a: Course, b: Course)
    requires DistinctIds(sel) && a in sel && b in sel
    ensures a.id == b.id ==> a == b
  {
    var i :| 0 <= i < |sel| && sel[i] == a;
    var j :| 0 <= j < |sel| && sel[j] == b;
    assert i < j || j < i || i == j;
  }

  /** A list holding two different values has at least two entries. */
  lemma TwoMembers<T>(b: seq<T>, x: T, y: T)
    requires x in b && y in b && x != y
    ensures |b| > 1
  {
    var i :| 0 <= i < |b| && b[i] == x;
    var j :| 0 <= j < |b| && b[j] == y;
    assert i != j;
  }

  /** A list of length two or more whose value `c` occurs at most once holds another value. */
  lemma OtherMember(b: seq<Course>, c: Course)
    requires |b| > 1 && multiset(b)[c] <= 1
    ensures b[0] != c || b[1] != c
  {
    assert b == [b[0], b[1]] + b[2..];
    assert multiset(b)[b[0]] >= multiset([b[0], b[1]])[b[0]];
  }

  /** A selected course that overlaps another selected course is marked as conflicting. */
  lemma OverlapMarksConflict(sel: seq<Course>, c: Course)
    requires c in sel && OverlapsCourse(c, sel)
    ensures InConflict(sel, c.id)
  {
    var o :| o in sel && o.id != c.id && Meet(c, o);
    var d: Day, p: nat :| InSlots(c.slots, d, p) && InSlots(o.slots, d, p);
    var b := Bucket(sel, d, p);
    BucketMembers(sel, d, p, c);
    BucketMembers(sel, d, p, o);
    TwoMembers(b, c, o);
    assert c.id in Ids(b);
  }

  /** Conversely, a conflict mark on a course with simple slots comes from an overlap with another course. */
  lemma ConflictMeansOverlap(sel: seq<Course>, c: Course)
    requires c in sel && DistinctIds(sel) && SimpleSlots(c) && InConflict(sel, c.id)
    ensures OverlapsCourse(c, sel)
  {
    var d: Day, p: nat :| |Bucket(sel, d, p)| > 1 && c.id in Ids(Bucket(sel, d, p));
    var b := Bucket(sel, d, p);
    var c' :| c' in b && c'.id == c.id;
    BucketMembers(sel, d, p, c');
    SameIdSameCourse(sel, c, c');
    assert NoDup(sel) by {
      forall i, j | 0 <= i < j < |sel| ensures sel[i] != sel[j] {
        assert sel[i].id != sel[j].id;
      }
    }
    BucketMultiplicity(sel, d, p, c);
    OtherMember(b, c);
    var o := if b[0] != c then b[0] else b[1];
    BucketMembers(sel, d, p, o);
    SameIdSameCourse(sel, c, o);
    assert Meet(c, o);
  }

  /** Under the same assumptions the conflict mark and `overlapsCourse` agree. */
  lemma ConflictIffOverlap(sel: seq<Course>, c: Course)
    requires c in sel && DistinctIds(sel) && SimpleSlots(c)
    ensures InConflict(sel, c.id) <==> OverlapsCourse(c, sel)
  {
    if OverlapsCourse(c, sel) {
      OverlapMarksConflict(sel, c);
    }
    if InConflict(sel, c.id) {
      ConflictMeansOverlap(sel, c);
    }
  }

  /** A course listing period 1 of Monday twice shares its own bucket with itself: it is marked
      as conflicting although it overlaps no other course. */
  lemma RepeatedPeriodSelfConflict()
    ensures var c := Course(1, "C1", "A", "B", 3, 1, "", [Slot(Mon, [1, 1])], false, "", "");
      InConflict([c], c.id) && !OverlapsCourse(c, [c])
  {
    var c := Course(1, "C1", "A", "B", 3, 1, "", [Slot(Mon, [1, 1])], false, "", "");
    assert [c][..0] == [];
    assert [c.slots[0]][..0] == [];
    assert [1, 1][..1] == [1] && [1][..0] == [];
    assert Hits(c.slots, Mon, 1) == 2;
    assert Bucket([c], Mon, 1) == [c, c];
    assert c.id in Ids([c, c]);
    OverlapsIgnoresOwnId(c, [c]);
  }
}
