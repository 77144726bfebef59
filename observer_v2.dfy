/**
 * The decoupled pull observer: the observer list lives in `PullSubjectImpl`
 * and the subject with the message delegates its observer operations to
 * one. `PullSubjectImpl` records each `update` call by the observer called.
 * A `ConcretePullObserverV2` reads the message of the subject it was built
 * with; for observers built on the `ObservedPullSubject` that notifies them,
 * that subject records each read as the observer paired with the message it read.
 */
module PullObserversV2 {
  import opened OrderedSets
  import opened ObserverLists

  class PullSubjectImpl<O(==)> {
    var observers: seq<O>
    var updates: seq<O>

    constructor()
      ensures observers == [] && updates == []
    {
      observers := [];
      updates := [];
    }

    method AddObserver(observer: O)
      modifies this
      ensures observers == old(observers) + [observer] && updates == old(updates)
    {
      observers := observers + [observer];
    }

    method RemoveObserver(observer: O)
      modifies this
      ensures observers == RemoveFirst(old(observers), observer) && updates == old(updates)
    {
      var index := IndexOf(observers, observer);
      if index != -1 {
        observers := observers[..index] + observers[index + 1..];
      }
    }

    /** `notifyObservers`: one `update` call per list entry, in list order. */
    method NotifyObservers()
      modifies this
      ensures updates == old(updates) + observers && observers == old(observers)
    {
      for i := 0 to |observers|
        invariant observers == old(observers)
        invariant updates == old(updates) + observers[..i]
      {
        updates := updates + [observers[i]];
        assert observers[..i + 1] == observers[..i] + [observers[i]];
      }
      assert observers[..|observers|] == observers;
    }
  }

  class ObservedPullSubject<O(==)> {
    const subject: PullSubjectImpl<O>
    var message: string
    var pulls: seq<(O, string)>

    constructor()
      ensures fresh(subject) && subject.observers == [] && subject.updates == []
      ensures message == "" && pulls == []
    {
      subject := new PullSubjectImpl();
      message := "";
      pulls := [];
    }

    method AddObserver(observer: O)
      modifies subject
      ensures subject.observers == old(subject.observers) + [observer] && subject.updates == old(subject.updates)
    {
      subject.AddObserver(observer);
    }

    method RemoveObserver(observer: O)
      modifies subject
      ensures subject.observers == RemoveFirst(old(subject.observers), observer) && subject.updates == old(subject.updates)
    {
      subject.RemoveObserver(observer);
    }

    /** Delegated: every observer is called once, in list order, and reads this subject's current message. */
    method NotifyObservers()
      modifies this, subject
      ensures subject.updates == old(subject.updates) + subject.observers && subject.observers == old(subject.observers)
      ensures pulls == old(pulls) + Pushed(subject.observers, message) && message == old(message)
    {
      subject.NotifyObservers();
      pulls := pulls + Pushed(subject.observers, message);
    }

    /** `setMessage`: the message is stored first, so every observer notified reads the new one. */
    method SetMessage(m: string)
      modifies this, subject
      ensures message == m
      ensures subject.updates == old(subject.updates) + subject.observers && subject.observers == old(subject.observers)
      ensures pulls == old(pulls) + Pushed(subject.observers, m)
    {
      message := m;
      NotifyObservers();
    }

    method GetMessage() returns (m: string)
      ensures m == message
    {
      m := message;
    }
  }
}
