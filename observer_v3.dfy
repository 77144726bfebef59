/**
 * The push observer: `update` receives the message. The list lives in
 * `PushSubjectImpl`, which records each `update` call as the observer and
 * the message pushed to it.
 */
module PushObservers {
  import opened OrderedSets
  import opened ObserverLists

  class PushSubjectImpl<O(==)> {
    var observers: seq<O>
    var updates: seq<(O, string)>

    constructor()
      ensures observers == [] && updates == []
    {
      observers := [];
      updates := [];
    }

    method AddObserver(observer: O)
      modifies this
      ensures observers == old(observers) + [observer] && updates == old(updates)
    {
      observers := observers + [observer];
    }

    method RemoveObserver(observer: O)
      modifies this
      ensures observers == RemoveFirst(old(observers), observer) && updates == old(updates)
    {
      var index := IndexOf(observers, observer);
      if index != -1 {
        observers := observers[..index] + observers[index + 1..];
      }
    }

    /** `notifyObservers(message)`: `update(message)` on each list entry, in list order. */
    method NotifyObservers(message: string)
      modifies this
      ensures updates == old(updates) + Pushed(observers, message) && observers == old(observers)
    {
      for i := 0 to |observers|
        invariant observers == old(observers)
        invariant updates == old(updates) + Pushed(observers[..i], message)
      {
        updates := updates + [(observers[i], message)];
        assert observers[..i + 1] == observers[..i] + [observers[i]];
      }
      assert observers[..|observers|] == observers;
    }
  }

  class ObservedPushSubject<O(==)> {
    const subject: PushSubjectImpl<O>
    var message: string

    constructor()
      ensures fresh(subject) && subject.observers == [] && subject.updates == [] && message == ""
    {
      subject := new PushSubjectImpl();
      message := "";
    }

    method AddObserver(observer: O)
      modifies subject
      ensures subject.observers == old(subject.observers) + [observer] && subject.updates == old(subject.updates)
    {
      subject.AddObserver(observer);
    }

    method RemoveObserver(observer: O)
      modifies subject
      ensures subject.observers == RemoveFirst(old(subject.observers), observer) && subject.updates == old(subject.updates)
    {
      subject.RemoveObserver(observer);
    }

    method NotifyObservers(m: string)
      modifies subject
      ensures subject.updates == old(subject.updates) + Pushed(subject.observers, m) && subject.observers == old(subject.observers)
    {
      subject.NotifyObservers(m);
    }

    /** `setMessage(m)`: stores `m` and pushes that same `m` to every observer. */
    method SetMessage(m: string)
      modifies this, subject
      ensures message == m
      ensures subject.updates == old(subject.updates) + Pushed(subject.observers, m) && subject.observers == old(subject.observers)
    {
      message := m;
      NotifyObservers(m);
    }

    method GetMessage() returns (m: string)
      ensures m == message
    {
      m := message;
    }
  }
}
