/**
 * JavaScript `Set` and `Map` keys iterate in insertion order. A set is
 * modelled as a duplicate-free sequence in that order: adding a member that
 * is already present leaves the sequence as it is.
 */
module OrderedSets {

  ghost predicate NoDuplicates<T>(s: seq<T>)
  {
    forall i, j :: 0 <= i < j < |s| ==> s[i] != s[j]
  }

  /** `set.add(x)`. */
  function AddToSet<T(==,!new)>(s: seq<T>, x: T): (r: seq<T>)
    ensures NoDuplicates(s) ==> NoDuplicates(r)
    ensures x in r && s <= r
  {
    if x in s then s else s + [x]
  }

  /** The members of `xs` in order of first occurrence: `new Set(xs)`. */
  function Distinct<T(==,!new)>(xs: seq<T>): (r: seq<T>)
    ensures NoDuplicates(r)
    ensures |r| <= |xs|
  {
    if xs == [] then [] else AddToSet(Distinct(xs[..|xs| - 1]), xs[|xs| - 1])
  }

  /** `for (const y of ys) set.add(y)`. */
  function AddAll<T(==,!new)>(s: seq<T>, ys: seq<T>): (r: seq<T>)
    ensures NoDuplicates(s) ==> NoDuplicates(r)
  {
    if ys == [] then s else AddToSet(AddAll(s, ys[..|ys| - 1]), ys[|ys| - 1])
  }

  lemma AddToSetMembers<T(!new)>(s: seq<T>, x: T, y: T)
    ensures y in AddToSet(s, x) <==> y in s || y == x
  {
  }

  /** `new Set(xs)` has exactly the members of `xs`. */
  lemma {:induction false} DistinctMembers<T(!new)>(xs: seq<T>, y: T)
    ensures y in Distinct(xs) <==> y in xs
  {
    if xs != [] {
      DistinctMembers(xs[..|xs| - 1], y);
      AddToSetMembers(Distinct(xs[..|xs| - 1]), xs[|xs| - 1], y);
      assert xs == xs[..|xs| - 1] + [xs[|xs| - 1]];
    }
  }

  /** Removing duplicates keeps the set of elements. */
  lemma DistinctSameSet<T(!new)>(xs: seq<T>)
    ensures (set x | x in Distinct(xs)) == (set x | x in xs)
  {
    forall y ensures y in Distinct(xs) <==> y in xs {
      DistinctMembers(xs, y);
    }
  }

  lemma {:induction false} AddAllMembers<T(!new)>(s: seq<T>, ys: seq<T>, y: T)
    ensures y in AddAll(s, ys) <==> y in s || y in ys
  {
    if ys != [] {
      AddAllMembers(s, ys[..|ys| - 1], y);
      AddToSetMembers(AddAll(s, ys[..|ys| - 1]), ys[|ys| - 1], y);
      assert ys == ys[..|ys| - 1] + [ys[|ys| - 1]];
    }
  }

  /** Adding the members of `ys` one at a time to the set of `xs` is the set of `xs + ys`. */
  lemma {:induction false} DistinctAppend<T(!new)>(xs: seq<T>, ys: seq<T>)
    ensures AddAll(Distinct(xs), ys) == Distinct(xs + ys)
    decreases |ys|
  {
    if ys == [] {
      assert xs + ys == xs;
    } else {
      var n := |ys| - 1;
      DistinctAppend(xs, ys[..n]);
      DistinctSnoc(xs + ys[..n], ys[n]);
      AppendLast(xs, ys);
    }
  }

  /** Splitting off the last element of `ys` and putting it back. */
  lemma AppendLast<T>(xs: seq<T>, ys: seq<T>)
    requires ys != []
    ensures (xs + ys[..|ys| - 1]) + [ys[|ys| - 1]] == xs + ys
  {
    assert ys == ys[..|ys| - 1] + [ys[|ys| - 1]];
  }

  /** The set of `xs + [y]` is the set of `xs` with `y` added. */
  lemma DistinctSnoc<T(!new)>(xs: seq<T>, y: T)
    ensures Distinct(xs + [y]) == AddToSet(Distinct(xs), y)
  {
    assert (xs + [y])[..|xs|] == xs;
  }

  /** Adding `ys + [y]` is adding `ys`, then `y`. */
  lemma AddAllSnoc<T(!new)>(s: seq<T>, ys: seq<T>, y: T)
    ensures AddAll(s, ys + [y]) == AddToSet(AddAll(s, ys), y)
  {
    assert (ys + [y])[..|ys|] == ys;
  }

  /** Adding `a` and then `b` is adding `a + b`. */
  lemma {:induction false} AddAllAppend<T(!new)>(s: seq<T>, a: seq<T>, b: seq<T>)
    ensures AddAll(AddAll(s, a), b) == AddAll(s, a + b)
  {
    if b == [] {
      assert a + b == a;
    } else {
      AddAllAppend(s, a, b[..|b| - 1]);
      assert (a + b)[..|a + b| - 1] == a + b[..|b| - 1];
    }
  }

  /** The index of the first occurrence of `x`, or -1: a lookup by key. */
  function IndexOf<T(==)>(s: seq<T>, x: T): (r: int)
    ensures -1 <= r < |s|
    ensures r == -1 <==> x !in s
    ensures 0 <= r ==> s[r] == x && x !in s[..r]
  {
    if s == [] then -1
    else if s[|s| - 1] == x && x !in s[..|s| - 1] then |s| - 1
    else IndexOf(s[..|s| - 1], x)
  }

  function Reversed<T>(s: seq<T>): (r: seq<T>)
    ensures |r| == |s|
    ensures forall i :: 0 <= i < |s| ==> r[i] == s[|s| - 1 - i]
  {
    if s == [] then [] else [s[|s| - 1]] + Reversed(s[..|s| - 1])
  }
}
