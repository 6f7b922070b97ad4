/**
 * The saved-plan list: `saveCurrentPlan`, `loadPlan` and `deletePlan` over a plain
 * list of plans, the newest first. The random id, the clock and the store are inputs.
 */
module Plans {
  import opened Wrappers
  import opened Lists
  import opened Text

  /** `SavedPlan`: a named snapshot of the selected course ids. */
  datatype SavedPlan = SavedPlan(id: string, name: string, selectedIds: seq<int>, createdAt: nat)

  /** The name given to the `n`-th plan when none is typed: `시간표 n`. */
  function DefaultName(n: nat): (r: string)
    ensures r != [] && !IsSpace(r[0]) && !IsSpace(r[|r| - 1])
  {
    var digits := NatToString(n);
    assert IsDigit(digits[|digits| - 1]);
    "시간표 " + digits
  }

  /** Different plan numbers give different default names. */
  lemma DefaultNamesDiffer(m: nat, n: nat)
    requires m != n
    ensures DefaultName(m) != DefaultName(n)
  {
    var prefix := "시간표 ";
    if DefaultName(m) == DefaultName(n) {
      assert DefaultName(m)[|prefix|..] == NatToString(m);
      assert DefaultName(n)[|prefix|..] == NatToString(n);
      DigitsRoundTrip(m);
      DigitsRoundTrip(n);
    }
  }

  /**
   * `saveCurrentPlan`: a new plan is put in front of the list. `uuid` is what
   * `crypto.randomUUID` returns when it exists; `idClock` is the `Date.now()` read for the
   * fallback id and `now` the one stored as `createdAt`.
   */
  function SaveCurrentPlan(plans: seq<SavedPlan>, planName: string, selectedIds: seq<int>,
                           uuid: Option<string>, idClock: nat, now: nat): (r: seq<SavedPlan>)
    ensures |r| == |plans| + 1 && r[1..] == plans
    ensures r[0].selectedIds == selectedIds && r[0].createdAt == now
    ensures r[0].id == (if uuid.Some? then uuid.value else NatToString(idClock))
    ensures r[0].name != [] && Trim(r[0].name) == r[0].name
    ensures AllSpace(planName) ==> r[0].name == DefaultName(|plans| + 1)
    ensures !AllSpace(planName) ==> r[0].name == Trim(planName)
  {
    var name := if |Trim(planName)| > 0 then Trim(planName) else DefaultName(|plans| + 1);
    var id := match uuid case Some(u) => u case None => NatToString(idClock);
    TrimIdempotent(planName);
    TrimmedAlready(DefaultName(|plans| + 1));
    var next := SavedPlan(id, name, selectedIds, now);
    assert ([next] + plans)[1..] == plans;
    [next] + plans
  }

  /** `loadPlan`: the selection becomes the plan's ids, order and repeats included. */
  function LoadPlan(plan: SavedPlan): (r: seq<int>)
    ensures r == plan.selectedIds
  {
    plan.selectedIds
  }

  /** `deletePlan`: every plan carrying the id of `plan` is dropped, the rest keep their order. */
  function DeletePlan(plans: seq<SavedPlan>, plan: SavedPlan): (r: seq<SavedPlan>)
    ensures |r| <= |plans|
    ensures forall p :: p in r <==> p in plans && p.id != plan.id
  {
    Filter((item: SavedPlan) => item.id != plan.id, plans)
  }

  /** Deleting from a list is deleting from each part, so the remaining plans stay newest first. */
  lemma DeleteAppend(a: seq<SavedPlan>, b: seq<SavedPlan>, plan: SavedPlan)
    ensures DeletePlan(a + b, plan) == DeletePlan(a, plan) + DeletePlan(b, plan)
  {
    FilterAppend((item: SavedPlan) => item.id != plan.id, a, b);
  }

  /** Loading the plan just saved restores the selection that was saved. */
  lemma LoadAfterSave(plans: seq<SavedPlan>, planName: string, selectedIds: seq<int>,
                      uuid: Option<string>, idClock: nat, now: nat)
    ensures LoadPlan(SaveCurrentPlan(plans, planName, selectedIds, uuid, idClock, now)[0]) == selectedIds
  {
  }

  /** Deleting a plan whose id no stored plan carries leaves the list as it was. */
  lemma DeleteMissing(plans: seq<SavedPlan>, plan: SavedPlan)
    requires forall k :: 0 <= k < |plans| ==> plans[k].id != plan.id
    ensures DeletePlan(plans, plan) == plans
  {
    FilterKeepsAll((item: SavedPlan) => item.id != plan.id, plans);
  }

  /** Deleting twice is deleting once. */
  lemma DeleteIdempotent(plans: seq<SavedPlan>, plan: SavedPlan)
    ensures DeletePlan(DeletePlan(plans, plan), plan) == DeletePlan(plans, plan)
  {
    var r := DeletePlan(plans, plan);
    assert forall k :: 0 <= k < |r| ==> r[k] in r;
    DeleteMissing(r, plan);
  }

  /** Deleting the plan just saved, under an id no stored plan carries, gives back the old list. */
  lemma DeleteAfterSave(plans: seq<SavedPlan>, planName: string, selectedIds: seq<int>,
                        uuid: Option<string>, idClock: nat, now: nat)
    requires forall k :: 0 <= k < |plans| ==> plans[k].id != (if uuid.Some? then uuid.value else NatToString(idClock))
    ensures var saved := SaveCurrentPlan(plans, planName, selectedIds, uuid, idClock, now);
      DeletePlan(saved, saved[0]) == plans
  {
    var saved := SaveCurrentPlan(plans, planName, selectedIds, uuid, idClock, now);
    assert saved == [saved[0]] + plans;
    DeleteMissing(plans, saved[0]);
  }
}
