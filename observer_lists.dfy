/**
 * The observer list every subject keeps: `push` to register, `indexOf` and
 * `splice(index, 1)` to unregister, and a loop calling each observer in
 * list order to notify.
 */
module ObserverLists {
  import opened OrderedSets

  /** `removeObserver`'s effect on the list: the first occurrence of `o` goes; no occurrence, no change. */
  function RemoveFirst<O(==)>(observers: seq<O>, o: O): (r: seq<O>)
    ensures o !in observers ==> r == observers
    ensures o in observers ==> |r| == |observers| - 1
  {
    var index := IndexOf(observers, o);
    if index == -1 then observers else observers[..index] + observers[index + 1..]
  }

  /** The calls a push notification with `message` makes, in list order. */
  function Pushed<O>(observers: seq<O>, message: string): (calls: seq<(O, string)>)
    ensures |calls| == |observers|
    ensures forall i :: 0 <= i < |observers| ==> calls[i] == (observers[i], message)
  {
    seq(|observers|, i requires 0 <= i < |observers| => (observers[i], message))
  }

  /** Only the first occurrence is removed; everything before and after it stays, in order. */
  lemma RemoveFirstOccurrence<O>(observers: seq<O>, o: O)
    requires o in observers
    ensures exists i :: (0 <= i < |observers| && observers[i] == o && o !in observers[..i] &&
      RemoveFirst(observers, o) == observers[..i] + observers[i + 1..])
  {
    var i := IndexOf(observers, o);
    assert observers[i] == o && o !in observers[..i];
  }

  /** Removal takes exactly one `o` out of the list, and nothing else. */
  lemma RemoveFirstMultiset<O>(observers: seq<O>, o: O)
    ensures multiset(RemoveFirst(observers, o)) == multiset(observers) - multiset{o}
  {
    var i := IndexOf(observers, o);
    if i != -1 {
      RemoveAtMultiset(observers, i);
    } else {
      assert multiset(observers)[o] == 0;
    }
  }

  /** Cutting out the element at `i` takes exactly that element out of the multiset. */
  lemma RemoveAtMultiset<O>(xs: seq<O>, i: nat)
    requires i < |xs|
    ensures multiset(xs[..i] + xs[i + 1..]) == multiset(xs) - multiset{xs[i]}
  {
    var before, after := xs[..i], xs[i + 1..];
    assert multiset(xs) == multiset(before) + multiset{xs[i]} + multiset(after) by {
      assert xs == (before + [xs[i]]) + after;
    }
  }

  /** An observer registered twice is still registered after one removal. */
  lemma RemoveOneOfTwo<O>(observers: seq<O>, o: O)
    requires multiset(observers)[o] >= 2
    ensures o in RemoveFirst(observers, o)
  {
    RemoveFirstMultiset(observers, o);
    assert multiset(RemoveFirst(observers, o))[o] >= 1;
  }

  /** Removing an observer just registered, and not registered before, restores the list. */
  lemma AddThenRemove<O>(observers: seq<O>, o: O)
    requires o !in observers
    ensures RemoveFirst(observers + [o], o) == observers
  {
    var s := observers + [o];
    var i := IndexOf(s, o);
    assert s[..i] == observers;
  }

  /** A newly registered observer is notified last, after everyone registered before it. */
  lemma PushedAfterAdd<O>(observers: seq<O>, o: O, message: string)
    ensures Pushed(observers + [o], message) == Pushed(observers, message) + [(o, message)]
  {
  }
}
