/** An optional value: `T | null | undefined` in the original, `None` where it is absent. */
module Wrappers {

  datatype Option<+T> = None | Some(value: T)
}

/** Sequence helpers shared by the model: `Array.prototype.filter` and a few predicates on lists. */
module Lists {

  /** `s.filter(keep)`: the elements of `s` that satisfy `keep`, in their original order. */
  function Filter<T(!new)>(keep: T -> bool, s: seq<T>): (r: seq<T>)
    ensures |r| <= |s|
    ensures forall x :: x in r <==> x in s && keep(x)
  {
    if s == [] then []
    else if keep(s[0]) then [s[0]] + Filter(keep, s[1..])
    else Filter(keep, s[1..])
  }

  /** Filtering distributes over concatenation, so the kept elements stay in their order. */
  lemma {:induction false} FilterAppend<T(!new)>(keep: T -> bool, a: seq<T>, b: seq<T>)
    ensures Filter(keep, a + b) == Filter(keep, a) + Filter(keep, b)
  {
    if a != [] {
      assert (a + b)[0] == a[0] && (a + b)[1..] == a[1..] + b;
      FilterAppend(keep, a[1..], b);
      if keep(a[0]) {
        assert Filter(keep, a + b) == [a[0]] + (Filter(keep, a[1..]) + Filter(keep, b));
      }
    } else {
      assert a + b == b;
    }
  }

  /** A filter that rejects nothing returns its input unchanged. */
  lemma {:induction false} FilterKeepsAll<T(!new)>(keep: T -> bool, s: seq<T>)
    requires forall k :: 0 <= k < |s| ==> keep(s[k])
    ensures Filter(keep, s) == s
  {
    if s != [] {
      FilterKeepsAll(keep, s[1..]);
    }
  }

  /** Filtering out one rejected element between kept ones gives the rest in their order. */
  lemma FilterDropsOne<T(!new)>(keep: T -> bool, a: seq<T>, x: T, b: seq<T>)
    requires !keep(x)
    requires forall k :: 0 <= k < |a| ==> keep(a[k])
    requires forall k :: 0 <= k < |b| ==> keep(b[k])
    ensures Filter(keep, a + [x] + b) == a + b
  {
    assert [x][1..] == [] && Filter(keep, [x]) == Filter(keep, []);
    FilterAppend(keep, a, [x]);
    FilterKeepsAll(keep, a);
    assert Filter(keep, a + [x]) == a;
    FilterAppend(keep, a + [x], b);
    FilterKeepsAll(keep, b);
  }

  /** No value occurs twice. */
  predicate NoDup<T(==)>(s: seq<T>) {
    forall i, j :: 0 <= i < j < |s| ==> s[i] != s[j]
  }

  /** Filtering a duplicate-free list keeps it duplicate-free. */
  lemma {:induction false} FilterNoDup<T(!new)>(keep: T -> bool, s: seq<T>)
    requires NoDup(s)
    ensures NoDup(Filter(keep, s))
  {
    if s != [] {
      assert NoDup(s[1..]) by {
        forall i, j | 0 <= i < j < |s[1..]| ensures s[1..][i] != s[1..][j] {
          assert s[1..][i] == s[i + 1] && s[1..][j] == s[j + 1];
        }
      }
      FilterNoDup(keep, s[1..]);
      var rest := Filter(keep, s[1..]);
      if keep(s[0]) {
        assert s[0] !in s[1..] by {
          forall k | 0 <= k < |s[1..]| ensures s[1..][k] != s[0] {
            assert s[1..][k] == s[k + 1];
          }
        }
        assert s[0] !in rest;
        var r := [s[0]] + rest;
        forall i, j | 0 <= i < j < |r| ensures r[i] != r[j] {
          if i == 0 {
            assert r[j] == rest[j - 1];
          } else {
            assert r[i] == rest[i - 1] && r[j] == rest[j - 1];
          }
        }
      }
    }
  }

  /** Ascending order: no element exceeds the one after it. */
  predicate Sorted(s: seq<nat>) {
    forall i :: 0 < i < |s| ==> s[i - 1] <= s[i]
  }

  /** `x` placed before the first element it does not exceed. */
  function Insert(x: nat, s: seq<nat>): seq<nat> {
    if s == [] || x <= s[0] then [x] + s else [s[0]] + Insert(x, s[1..])
  }

  /** Insertion adds exactly one occurrence of `x`. */
  lemma {:induction false} InsertCount(x: nat, s: seq<nat>)
    ensures multiset(Insert(x, s)) == multiset(s) + multiset{x}
  {
    if s != [] && x > s[0] {
      assert s == [s[0]] + s[1..];
      InsertCount(x, s[1..]);
    }
  }

  /** Insertion into an ascending list keeps it ascending; the new head is `x` or the old one. */
  lemma {:induction false} InsertSorted(x: nat, s: seq<nat>)
    requires Sorted(s)
    ensures Sorted(Insert(x, s)) && |Insert(x, s)| == |s| + 1
    ensures Insert(x, s)[0] == x || Insert(x, s)[0] == s[0]
  {
    if s != [] && x > s[0] {
      var t := Insert(x, s[1..]);
      assert Sorted(s[1..]) by {
        forall i | 0 < i < |s[1..]| ensures s[1..][i - 1] <= s[1..][i] {
          assert s[i] <= s[i + 1];
        }
      }
      InsertSorted(x, s[1..]);
      var r := [s[0]] + t;
      forall i | 0 < i < |r| ensures r[i - 1] <= r[i] {
        if i == 1 {
          assert s[1..] == [] || s[0] <= s[1];
        } else {
          assert r[i - 1] == t[i - 2] && r[i] == t[i - 1];
        }
      }
    }
  }

  /** `periods.sort((a, b) => a - b)`, as an insertion sort: the values in ascending order. */
  function SortAsc(s: seq<nat>): (r: seq<nat>)
    ensures Sorted(r) && |r| == |s|
  {
    if s == [] then []
    else
      var t := SortAsc(s[1..]);
      InsertSorted(s[0], t);
      Insert(s[0], t)
  }

  /** The numeric sort returns the same values, duplicates kept. */
  lemma {:induction false} SortAscSpec(s: seq<nat>)
    ensures multiset(SortAsc(s)) == multiset(s)
  {
    if s != [] {
      assert s == [s[0]] + s[1..];
      SortAscSpec(s[1..]);
      InsertCount(s[0], SortAsc(s[1..]));
    }
  }
}
