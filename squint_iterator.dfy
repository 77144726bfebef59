/**
 * Lazy number iterators and `take`. A generator is modelled by where its
 * values come from and how many it has handed out: the counting integers
 * from 1, the squares of another source, or a finite list.
 */
module SquintIterators {
  import opened Wrappers

  /** Where a generator's values come from. */
  datatype NumberSource =
    | Integers
    | Squares(ints: NumberSource)
    | Items(items: seq<int>)

  /** A source built on the integers alone never runs out. */
  predicate Endless(source: NumberSource)
  {
    source.Integers? || (source.Squares? && Endless(source.ints))
  }

  /**
   * The value a generator over `source` yields at step `k` (from 0), or
   * `None` once it is done: an endless source always yields a positive
   * value, a list yields exactly while items remain.
   */
  function NthValue(source: NumberSource, k: nat): (r: Option<int>)
    ensures Endless(source) ==> r.Some? && r.value >= 1
    ensures source.Items? ==> (r.Some? <==> k < |source.items|)
  {
    match source
    case Integers => Some(k + 1)
    case Squares(ints) =>
      var v := NthValue(ints, k);
      if v.Some? then Some(v.value * v.value) else None
    case Items(items) => if k < |items| then Some(items[k]) else None
  }

  /** A running generator: its source and the number of `next` calls made so far. */
  class NumberIterator {
    const source: NumberSource
    var position: nat

    constructor(source: NumberSource)
      ensures this.source == source && position == 0
    {
      this.source := source;
      position := 0;
    }

    /** `next()`: the value at the current step, or done. */
    method Next() returns (value: Option<int>)
      modifies this
      ensures value == NthValue(source, old(position)) && position == old(position) + 1
    {
      value := NthValue(source, position);
      position := position + 1;
    }
  }

  /** What `take(n, ...)` collects from a generator over `source` that has already made `start` steps. */
  function Take(source: NumberSource, start: nat, n: int): (r: seq<int>)
    decreases if n < 0 then 0 else n
    ensures forall i :: 0 <= i < |r| ==> NthValue(source, start + i) == Some(r[i])
    ensures n > 0 && |r| < n ==> NthValue(source, start + |r|).None?
  {
    if n <= 0 then []
    else
      var v := NthValue(source, start);
      if v.None? then [] else [v.value] + Take(source, start + 1, n - 1)
  }

  /** How many `next` calls `take(n, ...)` makes: one per value collected, plus the one that found the generator done. */
  function TakeSteps(source: NumberSource, start: nat, n: int): nat
    decreases if n < 0 then 0 else n
  {
    if n <= 0 then 0
    else if NthValue(source, start).None? then 1
    else 1 + TakeSteps(source, start + 1, n - 1)
  }

  /** `take`: calls `next` up to `n` times and stops early when the generator is done. */
  method TakeFrom(n: int, iter: NumberIterator) returns (result: seq<int>)
    modifies iter
    ensures result == Take(iter.source, old(iter.position), n)
    ensures iter.position == old(iter.position) + TakeSteps(iter.source, old(iter.position), n)
  {
    result := [];
    var i := 0;
    while i < n
      invariant 0 <= i && (n > 0 ==> i <= n)
      invariant iter.position == old(iter.position) + i
      invariant result + Take(iter.source, iter.position, n - i) == Take(iter.source, old(iter.position), n)
      invariant TakeSteps(iter.source, old(iter.position), n) == i + TakeSteps(iter.source, iter.position, n - i)
      decreases n - i
    {
      ghost var p := iter.position;
      var next := iter.Next();
      if next.None? {
        i := i + 1;
        break;
      }
      assert Take(iter.source, p, n - i) == [next.value] + Take(iter.source, p + 1, n - i - 1);
      assert result + [next.value] + Take(iter.source, p + 1, n - i - 1) == result + ([next.value] + Take(iter.source, p + 1, n - i - 1));
      result := result + [next.value];
      i := i + 1;
    }
  }

  /** `take` never collects more than `n` values. */
  lemma {:induction false} TakeLength(source: NumberSource, start: nat, n: int)
    ensures |Take(source, start, n)| <= if n < 0 then 0 else n
    decreases if n < 0 then 0 else n
  {
    if n > 0 && NthValue(source, start).Some? {
      TakeLength(source, start + 1, n - 1);
    }
  }

  /** From a list, `take` collects the first `n` items, or all of them when there are fewer. */
  lemma {:induction false} TakeItems(items: seq<int>, start: nat, n: int)
    requires start <= |items|
    ensures Take(Items(items), start, n) == items[start..if n <= 0 then start else if start + n <= |items| then start + n else |items|]
    decreases if n < 0 then 0 else n
  {
    if n > 0 && start < |items| {
      TakeItems(items, start + 1, n - 1);
    }
  }

  /** The integers generator counts from 1: `take(n, integers())` is 1, 2, ..., n. */
  lemma {:induction false} TakeIntegers(start: nat, n: nat)
    ensures |Take(Integers, start, n)| == n
    ensures forall k :: 0 <= k < n ==> Take(Integers, start, n)[k] == start + k + 1
    decreases n
  {
    if n > 0 {
      TakeIntegers(start + 1, n - 1);
    }
  }

  /** Taking from a squares generator squares what would have been taken from its source. */
  lemma {:induction false} TakeSquares(ints: NumberSource, start: nat, n: int)
    ensures |Take(Squares(ints), start, n)| == |Take(ints, start, n)|
    ensures forall k :: 0 <= k < |Take(ints, start, n)| ==>
      Take(Squares(ints), start, n)[k] == Take(ints, start, n)[k] * Take(ints, start, n)[k]
    decreases if n < 0 then 0 else n
  {
    if n > 0 && NthValue(ints, start).Some? {
      TakeSquares(ints, start + 1, n - 1);
    }
  }

  /** The first five squares of the integers. */
  lemma FirstFiveSquares()
    ensures Take(Squares(Integers), 0, 5) == [1, 4, 9, 16, 25]
  {
    TakeIntegers(0, 5);
    TakeSquares(Integers, 0, 5);
  }
}
