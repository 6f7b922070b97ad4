/**
 * `overlapsCourse`: whether a course shares a meeting day and a period with any
 * other course of a list, mirrored as the source's four nested `some` calls and
 * tied to a reference definition over the (day, period) cells a course occupies.
 */
module Conflicts {
  import opened Courses

  /** Some slot of `slots` meets on day `d` in period `p`: the course occupies that grid cell. */
  ghost predicate InSlots(slots: seq<Slot>, d: Day, p: nat) {
    exists s :: s in slots && s.day == d && p in s.periods
  }

  /** The reference notion of a clash: both courses occupy a common cell. */
  ghost predicate Meet(a: Course, b: Course) {
    exists d: Day, p: nat :: InSlots(a.slots, d, p) && InSlots(b.slots, d, p)
  }

  /** `ps.some((period) => qs.includes(period))`. */
  function SharesPeriod(ps: seq<nat>, qs: seq<nat>): (r: bool)
    ensures r <==> exists p :: p in ps && p in qs
  {
    ps != [] && (ps[0] in qs || SharesPeriod(ps[1..], qs))
  }

  /** `slots.some((slot) => slot.day === other.day && <the periods intersect>)`. */
  function SlotsMeet(slots: seq<Slot>, other: Slot): (r: bool)
    ensures r <==> exists p :: p in other.periods && InSlots(slots, other.day, p)
  {
    if slots == [] then false
    else
      var s := slots[0];
      assert forall p :: InSlots(slots, other.day, p) <==>
        (s.day == other.day && p in s.periods) || InSlots(slots[1..], other.day, p)
      by {
        forall p ensures InSlots(slots, other.day, p) ==>
          (s.day == other.day && p in s.periods) || InSlots(slots[1..], other.day, p)
        {
          if t :| t in slots && t.day == other.day && p in t.periods {
            if t != s {
              assert t in slots[1..];
            }
          }
        }
      }
      (s.day == other.day && SharesPeriod(s.periods, other.periods)) || SlotsMeet(slots[1..], other)
  }

  /** `otherSlots.some((otherSlot) => SlotsMeet(target.slots, otherSlot))`. */
  function CellsMeet(target: seq<Slot>, otherSlots: seq<Slot>): (r: bool)
    ensures r <==> exists d: Day, p: nat :: InSlots(target, d, p) && InSlots(otherSlots, d, p)
  {
    if otherSlots == [] then false
    else
      var o := otherSlots[0];
      var rest := CellsMeet(target, otherSlots[1..]);
      var here := SlotsMeet(target, o);
      assert here ==> exists d: Day, p: nat :: InSlots(target, d, p) && InSlots(otherSlots, d, p) by {
        if here {
          var p :| p in o.periods && InSlots(target, o.day, p);
          assert InSlots(otherSlots, o.day, p);
        }
      }
      assert rest ==> exists d: Day, p: nat :: InSlots(target, d, p) && InSlots(otherSlots, d, p) by {
        if rest {
          var d: Day, p: nat :| InSlots(target, d, p) && InSlots(otherSlots[1..], d, p);
          var t :| t in otherSlots[1..] && t.day == d && p in t.periods;
          assert t in otherSlots;
        }
      }
      assert (exists d: Day, p: nat :: InSlots(target, d, p) && InSlots(otherSlots, d, p)) ==> here || rest by {
        if d: Day, p: nat :| InSlots(target, d, p) && InSlots(otherSlots, d, p) {
          var t :| t in otherSlots && t.day == d && p in t.periods;
          if t != o {
            assert t in otherSlots[1..];
            assert InSlots(otherSlots[1..], d, p);
          }
        }
      }
      here || rest
  }

  /** `overlapsCourse(target, others)`: some other course (by id) shares a cell with `target`. */
  function OverlapsCourse(target: Course, others: seq<Course>): (r: bool)
    ensures r <==> exists o :: o in others && o.id != target.id && Meet(target, o)
  {
    if others == [] then false
    else
      var o := others[0];
      assert forall c :: c in others <==> c == o || c in others[1..];
      (o.id != target.id && CellsMeet(target.slots, o.slots)) || OverlapsCourse(target, others[1..])
  }

  /** A course never overlaps itself, nor any entry carrying its own id. */
  lemma OverlapsIgnoresOwnId(target: Course, others: seq<Course>)
    requires forall k :: 0 <= k < |others| ==> others[k].id == target.id
    ensures !OverlapsCourse(target, others)
  {
  }

  /** Between two courses with distinct ids the relation is symmetric. */
  lemma OverlapsSymmetric(a: Course, b: Course)
    requires a.id != b.id
    ensures OverlapsCourse(a, [b]) == OverlapsCourse(b, [a])
  {
    if OverlapsCourse(a, [b]) {
      var d: Day, p: nat :| InSlots(a.slots, d, p) && InSlots(b.slots, d, p);
      assert Meet(b, a);
    }
    if OverlapsCourse(b, [a]) {
      var d: Day, p: nat :| InSlots(b.slots, d, p) && InSlots(a.slots, d, p);
      assert Meet(a, b);
    }
  }

  /** Checking a concatenated list is checking either part. */
  lemma OverlapsAppend(target: Course, xs: seq<Course>, ys: seq<Course>)
    ensures OverlapsCourse(target, xs + ys) == (OverlapsCourse(target, xs) || OverlapsCourse(target, ys))
  {
    if OverlapsCourse(target, xs + ys) {
      var o :| o in xs + ys && o.id != target.id && Meet(target, o);
      assert o in xs || o in ys;
    }
    if OverlapsCourse(target, xs) {
      var o :| o in xs && o.id != target.id && Meet(target, o);
      assert o in xs + ys;
    }
    if OverlapsCourse(target, ys) {
      var o :| o in ys && o.id != target.id && Meet(target, o);
      assert o in xs + ys;
    }
  }
}
