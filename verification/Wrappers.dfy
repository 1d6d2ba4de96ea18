/** Result shapes, bytes, filtering and two laws that the modules share. */
module Wrappers {

  datatype Option<+T> = None | Some(value: T)

  datatype Result<+T, +E> = Ok(value: T) | Err(error: E)

  type Byte = b: int | 0 <= b < 256

  lemma Regroup<T>(a: seq<T>, b: seq<T>, c: seq<T>)
    ensures (a + b) + c == a + (b + c)
  {
  }

  /** Induction along the positions of a run. */
  lemma {:induction false} StepByStep(holds: nat -> bool, first: nat, i: nat)
    requires first <= i && holds(first) && forall j: nat | first <= j < i && holds(j) :: holds(j + 1)
    ensures holds(i)
    decreases i
  {
    if i > first { StepByStep(holds, first, i - 1); }
  }

  /** The elements that pass, in order. */
  function Filter<T(!new)>(s: seq<T>, keep: T -> bool): (r: seq<T>)
    ensures forall x :: x in r <==> x in s && keep(x)
    ensures |r| <= |s|
  {
    if s == [] then []
    else
      assert s == [s[0]] + s[1..];
      (if keep(s[0]) then [s[0]] else []) + Filter(s[1..], keep)
  }

  /** `r` is what passes of `s`: everything that does, as often as it is there and in the old order. `at`
      is where from. */
  ghost predicate PassesOf<T(!new)>(r: seq<T>, s: seq<T>, keep: T -> bool, at: seq<nat>) {
    && |at| == |r|
    && (forall k | 0 <= k < |at| :: at[k] < |s| && keep(s[at[k]]) && r[k] == s[at[k]])
    && (forall j, k | 0 <= j < k < |at| :: at[j] < at[k])
    && (forall i | 0 <= i < |s| && keep(s[i]) :: i in at)
  }

  ghost predicate Passes<T(!new)>(r: seq<T>, s: seq<T>, keep: T -> bool) {
    exists at :: PassesOf(r, s, keep, at)
  }

  lemma FilterPasses<T(!new)>(s: seq<T>, keep: T -> bool, also: T -> bool)
    requires forall x | x in s :: keep(x) == also(x)
    ensures Passes(Filter(s, keep), s, also)
  {
    FilterSame(s, keep, also);
    var at := FilterKeeps(s, also);
  }

  lemma {:induction false} FilterKeeps<T(!new)>(s: seq<T>, keep: T -> bool) returns (at: seq<nat>)
    ensures PassesOf(Filter(s, keep), s, keep, at)
  {
    at := [];
    if s != [] {
      var n := |s| - 1;
      at := FilterKeeps(s[..n], keep);
      FilterLast(s, keep);
      OneMorePasses(Filter(s[..n], keep), s[..n], keep, at, s[n]);
      assert s[..n] + [s[n]] == s;
      if keep(s[n]) { at := at + [n]; } else { assert Filter(s[..n], keep) + [] == Filter(s[..n], keep); }
    }
  }

  lemma OneMorePasses<T(!new)>(r: seq<T>, s: seq<T>, keep: T -> bool, at: seq<nat>, x: T)
    requires PassesOf(r, s, keep, at)
    ensures if keep(x) then PassesOf(r + [x], s + [x], keep, at + [|s|]) else PassesOf(r, s + [x], keep, at)
  {
    var t := s + [x];
    forall i | 0 <= i < |t| && keep(t[i]) ensures i in at + [|s|] && (i < |s| ==> i in at) {
      if i < |s| { assert keep(s[i]) && i in at; } else { assert (at + [|s|])[|at|] == i; }
    }
    forall k | 0 <= k < |at| ensures t[at[k]] == s[at[k]] {}
  }

  lemma {:induction false} FilterLast<T(!new)>(s: seq<T>, keep: T -> bool)
    requires s != []
    ensures Filter(s, keep) == Filter(s[..|s| - 1], keep) + if keep(s[|s| - 1]) then [s[|s| - 1]] else []
  {
    var last := [s[|s| - 1]];
    assert s == s[..|s| - 1] + last;
    FilterAppend(s[..|s| - 1], last, keep);
    assert last[1..] == [];
  }

  lemma {:induction false} FilterAppend<T(!new)>(a: seq<T>, b: seq<T>, keep: T -> bool)
    ensures Filter(a + b, keep) == Filter(a, keep) + Filter(b, keep)
  {
    if a == [] {
      assert a + b == b;
    } else {
      assert (a + b)[1..] == a[1..] + b;
      FilterAppend(a[1..], b, keep);
    }
  }

  lemma {:induction false} FilterSame<T(!new)>(s: seq<T>, keep: T -> bool, also: T -> bool)
    requires forall x | x in s :: keep(x) == also(x)
    ensures Filter(s, keep) == Filter(s, also)
  {
    if s != [] {
      assert s[0] in s && forall x | x in s[1..] :: x in s;
      FilterSame(s[1..], keep, also);
    }
  }

  /** What holds of any two elements in order still does. */
  lemma FilterStaysApart<T(!new)>(s: seq<T>, keep: T -> bool, apart: (T, T) -> bool)
    requires forall i, j | 0 <= i < j < |s| :: apart(s[i], s[j])
    ensures forall i, j | 0 <= i < j < |Filter(s, keep)| :: apart(Filter(s, keep)[i], Filter(s, keep)[j])
  {
    var at := FilterKeeps(s, keep);
  }

  /** Nothing is lost exactly if everything passes. */
  lemma {:induction false} FilterKeepsAll<T(!new)>(s: seq<T>, keep: T -> bool)
    ensures |Filter(s, keep)| == |s| <==> forall x | x in s :: keep(x)
    ensures |Filter(s, keep)| == |s| ==> Filter(s, keep) == s
  {
    if s != [] {
      assert s == [s[0]] + s[1..];
      FilterKeepsAll(s[1..], keep);
    }
  }
}
