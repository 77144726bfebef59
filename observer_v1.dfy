/**
 * The first observer design: the subject with the business message keeps
 * the observer list itself. A pull observer's `update` reads the subject's
 * message; the subject records each such call as the observer paired with
 * the message it read.
 */
module PullObserversV1 {
  import opened OrderedSets
  import opened ObserverLists

  /** `ConcretePullSubject` with the list it inherits from `PullSubject`. */
  class ConcretePullSubject<O(==)> {
    var observers: seq<O>
    var message: string
    var updates: seq<(O, string)>

    constructor()
      ensures observers == [] && message == "" && updates == []
    {
      observers := [];
      message := "";
      updates := [];
    }

    method AddObserver(observer: O)
      modifies this
      ensures observers == old(observers) + [observer]
      ensures message == old(message) && updates == old(updates)
    {
      observers := observers + [observer];
    }

    method RemoveObserver(observer: O)
      modifies this
      ensures observers == RemoveFirst(old(observers), observer)
      ensures message == old(message) && updates == old(updates)
    {
      var index := IndexOf(observers, observer);
      if index != -1 {
        observers := observers[..index] + observers[index + 1..];
      }
    }

    /** An observer's `update`: it pulls the current message. */
    method Update(observer: O)
      modifies this
      ensures updates == old(updates) + [(observer, message)]
      ensures observers == old(observers) && message == old(message)
    {
      var m := GetMessage();
      updates := updates + [(observer, m)];
    }

    /** `notifyObservers`: every registered observer, in list order, pulls the current message once. */
    method NotifyObservers()
      modifies this
      ensures updates == old(updates) + Pushed(observers, message)
      ensures observers == old(observers) && message == old(message)
    {
      for i := 0 to |observers|
        invariant observers == old(observers) && message == old(message)
        invariant updates == old(updates) + Pushed(observers[..i], message)
      {
        Update(observers[i]);
        assert observers[..i + 1] == observers[..i] + [observers[i]];
      }
      assert observers[..|observers|] == observers;
    }

    /** `setMessage`: the message is stored first, so every observer notified reads the new one. */
    method SetMessage(m: string)
      modifies this
      ensures message == m && observers == old(observers)
      ensures updates == old(updates) + Pushed(observers, m)
    {
      message := m;
      NotifyObservers();
    }

    method GetMessage() returns (m: string)
      ensures m == message
    {
      m := message;
    }
  }
}
