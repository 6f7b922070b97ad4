/**
 * The entities of the timetable engine: weekdays, time slots, courses, and the
 * rows the course service delivers.
 */
module Courses {
  import opened Text

  /** The five teaching days 월, 화, 수, 목, 금 (Monday to Friday). */
  datatype Day = Mon | Tue | Wed | Thu | Fri

  /** `dayOrder`: the order in which days are listed and scanned. */
  const DayOrder: seq<Day> := [Mon, Tue, Wed, Thu, Fri]

  /** Position of a day in `DayOrder`. */
  function DayIndex(d: Day): (k: nat)
    ensures k < |DayOrder| && DayOrder[k] == d
  {
    match d
    case Mon => 0
    case Tue => 1
    case Wed => 2
    case Thu => 3
    case Fri => 4
  }

  /** Every day is listed in `DayOrder`. */
  lemma EveryDayListed()
    ensures forall d :: d in DayOrder
  {
    forall d ensures d in DayOrder {
      assert DayOrder[DayIndex(d)] == d;
    }
  }

  /** The Korean one-character name the source uses as the `Day` value. */
  function Glyph(d: Day): char {
    match d
    case Mon => '월'
    case Tue => '화'
    case Wed => '수'
    case Thu => '목'
    case Fri => '금'
  }

  /** A meeting day and the periods taught on it. */
  datatype Slot = Slot(day: Day, periods: seq<nat>)

  /**
   * A catalog entry. `sourceMajor` is the major or field whose query produced the row;
   * the empty string stands for an absent value (both are falsy in the source).
   */
  datatype Course = Course(
    id: int,
    code: string,
    name: string,
    professor: string,
    credit: nat,
    grade: nat,
    area: string,
    slots: seq<Slot>,
    english: bool,
    remarks: string,
    sourceMajor: string)

  /** No two entries of a course list share an id. */
  predicate DistinctIds(cs: seq<Course>) {
    forall i, j :: 0 <= i < j < |cs| ==> cs[i].id != cs[j].id
  }

  /** A row delivered by the course service, with `grade` already converted to a number. */
  datatype CourseRow = CourseRow(
    code: string,
    name: string,
    professor: string,
    credit: nat,
    grade: nat,
    time: string,
    timeEng: string,
    area: string,
    isEnglish: bool,
    remark: string)

  // ---------------------------------------------------------------- formatSlots

  /** `periods.join('·')`. */
  function JoinPeriods(ps: seq<nat>): string {
    if ps == [] then "" else if |ps| == 1 then NatToString(ps[0]) else NatToString(ps[0]) + "·" + JoinPeriods(ps[1..])
  }

  /** One slot as the course list shows it: `월 1·2`, or `월 -` when it has no periods. */
  function SlotText(s: Slot): (r: string)
    ensures |r| >= 3 && r[0] == Glyph(s.day) && r[1] == ' '
    ensures s.periods == [] <==> r[2..] == "-"
  {
    if s.periods == [] then [Glyph(s.day)] + " -"
    else
      var j := JoinPeriods(s.periods);
      assert j[0] != '-' by { assert j[0] == NatToString(s.periods[0])[0]; }
      [Glyph(s.day)] + " " + j
  }

  /** `formatSlots`: the slots' texts joined by `, `. */
  function FormatSlots(slots: seq<Slot>): (r: string)
    ensures r == [] <==> slots == []
    ensures slots != [] ==> r[0] == Glyph(slots[0].day)
  {
    if slots == [] then "" else if |slots| == 1 then SlotText(slots[0]) else SlotText(slots[0]) + ", " + FormatSlots(slots[1..])
  }
}
