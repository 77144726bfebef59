/**
 * Header classification of the semantic analyzer (`setHeaders`, `setHeader`,
 * `checkMissingHeaders`) as functions over the analyzer's three header slots.
 */
module AnalyzerHeaders {
  import opened Wrappers
  import opened Strings
  import opened FsmSyntax
  import opened AnalysisErrors

  /** The analyzer's `fsmHeader`, `actionsHeader` and `initialHeader` fields. */
  datatype HeaderSlots = HeaderSlots(fsm: Header, actions: Header, initial: Header)

  const FreshSlots := HeaderSlots(NullHeader, NullHeader, NullHeader)

  datatype HeaderKind = FsmKind | ActionsKind | InitialKind | OtherKind

  /**
   * `isNamed(header, target)`: the name, lower-cased, equals the target. The
   * targets are the lower-case literals "fsm", "actions" and "initial", so
   * lower-casing them too changes nothing.
   */
  function IsNamed(h: Header, target: string): (r: bool)
    ensures r ==> h.name.Some? && |h.name.value| == |target|
  {
    h.name.Some? && Lower(h.name.value) == target
  }

  /** The comparison ignores case: character by character, the lower-cased name is the target. */
  lemma IsNamedMeaning(h: Header, target: string)
    ensures IsNamed(h, target) <==>
      h.name.Some? && |h.name.value| == |target| &&
      forall k :: 0 <= k < |target| ==> LowerChar(h.name.value[k]) == target[k]
  {
    if h.name.Some? && |h.name.value| == |target| &&
       forall k :: 0 <= k < |target| ==> LowerChar(h.name.value[k]) == target[k] {
      assert Lower(h.name.value) == target;
    }
  }

  /** Which slot a header goes to, tried in the order fsm, actions, initial. */
  function KindOf(h: Header): (k: HeaderKind)
    ensures k == FsmKind <==> IsNamed(h, "fsm")
    ensures k == ActionsKind <==> IsNamed(h, "actions")
    ensures k == InitialKind <==> IsNamed(h, "initial")
    ensures k != OtherKind ==> h.name.Some?
  {
    if IsNamed(h, "fsm") then FsmKind
    else if IsNamed(h, "actions") then ActionsKind
    else if IsNamed(h, "initial") then InitialKind
    else OtherKind
  }

  function Slot(slots: HeaderSlots, k: HeaderKind): Header
  {
    match k
    case FsmKind => slots.fsm
    case ActionsKind => slots.actions
    case InitialKind => slots.initial
    case OtherKind => NullHeader
  }

  function WithSlot(slots: HeaderSlots, k: HeaderKind, h: Header): HeaderSlots
  {
    match k
    case FsmKind => slots.(fsm := h)
    case ActionsKind => slots.(actions := h)
    case InitialKind => slots.(initial := h)
    case OtherKind => slots
  }

  /** One iteration of `setHeaders`: the new slots and the errors it records. */
  function HeaderStep(slots: HeaderSlots, h: Header): (HeaderSlots, seq<AnalysisError>)
  {
    var k := KindOf(h);
    if k == OtherKind then (slots, [AnalysisError(InvalidHeader, HeaderExtra(h))])
    else if Slot(slots, k).name.None? then (WithSlot(slots, k, Header(h.name, h.value)), [])
    else (slots, [AnalysisError(ExtraHeaderIgnored, HeaderExtra(h))])
  }

  /** `setHeaders` over the first `|hs|` headers. */
  function SetHeaders(hs: seq<Header>, slots: HeaderSlots): (HeaderSlots, seq<AnalysisError>)
  {
    if hs == [] then (slots, [])
    else
      var (s, e) := SetHeaders(hs[..|hs| - 1], slots);
      var (s2, e2) := HeaderStep(s, hs[|hs| - 1]);
      (s2, e + e2)
  }

  /** The header pass over one more header is one more step. */
  lemma SetHeadersStep(hs: seq<Header>, i: nat, slots: HeaderSlots)
    requires i < |hs|
    ensures var (s, e) := SetHeaders(hs[..i], slots);
      SetHeaders(hs[..i + 1], slots) == (HeaderStep(s, hs[i]).0, e + HeaderStep(s, hs[i]).1)
  {
    assert hs[..i + 1][..i] == hs[..i];
  }

  /** `checkMissingHeaders`. */
  function MissingHeaderErrors(slots: HeaderSlots): seq<AnalysisError>
  {
    (if slots.fsm.name.None? then [AnalysisError(NoFsm, NoExtra)] else []) +
    (if slots.initial.name.None? then [AnalysisError(NoInitial, NoExtra)] else [])
  }

  // ---------------------------------------------------------------------
  // An independent description of the header pass

  /** A slot of kind `k` is already taken before header `i`. */
  ghost predicate TakenBefore(hs: seq<Header>, slots: HeaderSlots, k: HeaderKind, i: nat)
    requires i <= |hs|
  {
    Slot(slots, k).name.Some? || exists j :: 0 <= j < i && KindOf(hs[j]) == k
  }

  /** The error header `i` earns: INVALID_HEADER for an unknown name, EXTRA_HEADER_IGNORED for a taken slot. */
  ghost function ErrorFor(hs: seq<Header>, slots: HeaderSlots, i: nat): seq<AnalysisError>
    requires i < |hs|
  {
    if KindOf(hs[i]) == OtherKind then [AnalysisError(InvalidHeader, HeaderExtra(hs[i]))]
    else if TakenBefore(hs, slots, KindOf(hs[i]), i) then [AnalysisError(ExtraHeaderIgnored, HeaderExtra(hs[i]))]
    else []
  }

  ghost function ErrorsFor(hs: seq<Header>, slots: HeaderSlots, n: nat): seq<AnalysisError>
    requires n <= |hs|
  {
    if n == 0 then [] else ErrorsFor(hs, slots, n - 1) + ErrorFor(hs, slots, n - 1)
  }

  /** The index of the first header of kind `k`, or `|hs|` when there is none. */
  function FirstOfKind(hs: seq<Header>, k: HeaderKind): (i: nat)
    ensures i <= |hs|
  {
    if hs == [] then 0
    else
      var f := FirstOfKind(hs[..|hs| - 1], k);
      if f < |hs| - 1 then f
      else if KindOf(hs[|hs| - 1]) == k then |hs| - 1
      else |hs|
  }

  lemma {:induction false} FirstOfKindMeaning(hs: seq<Header>, k: HeaderKind)
    ensures FirstOfKind(hs, k) < |hs| <==> exists j :: 0 <= j < |hs| && KindOf(hs[j]) == k
    ensures FirstOfKind(hs, k) < |hs| ==> KindOf(hs[FirstOfKind(hs, k)]) == k
    ensures forall j :: 0 <= j < FirstOfKind(hs, k) && j < |hs| ==> KindOf(hs[j]) != k
  {
    if hs != [] {
      var p := hs[..|hs| - 1];
      FirstOfKindMeaning(p, k);
      assert forall j :: 0 <= j < |p| ==> p[j] == hs[j];
    }
  }

  lemma TakenBeforePrefix(hs: seq<Header>, slots: HeaderSlots, k: HeaderKind, n: nat, i: nat)
    requires i <= n <= |hs|
    ensures TakenBefore(hs[..n], slots, k, i) == TakenBefore(hs, slots, k, i)
  {
    var p := hs[..n];
    if exists j :: 0 <= j < i && KindOf(p[j]) == k {
      var j :| 0 <= j < i && KindOf(p[j]) == k;
      assert KindOf(hs[j]) == k;
    }
    if exists j :: 0 <= j < i && KindOf(hs[j]) == k {
      var j :| 0 <= j < i && KindOf(hs[j]) == k;
      assert KindOf(p[j]) == k;
    }
  }

  lemma {:induction false} ErrorsForPrefix(hs: seq<Header>, slots: HeaderSlots, n: nat, m: nat)
    requires m <= n <= |hs|
    ensures ErrorsFor(hs[..n], slots, m) == ErrorsFor(hs, slots, m)
  {
    if m > 0 {
      ErrorsForPrefix(hs, slots, n, m - 1);
      var p := hs[..n];
      assert p[m - 1] == hs[m - 1];
      TakenBeforePrefix(hs, slots, KindOf(hs[m - 1]), n, m - 1);
      assert ErrorFor(p, slots, m - 1) == ErrorFor(hs, slots, m - 1);
    }
  }

  /** The slot of kind `k` after the header pass. */
  lemma {:induction false} SetHeadersSlot(hs: seq<Header>, slots: HeaderSlots, k: HeaderKind)
    requires k != OtherKind
    ensures Slot(SetHeaders(hs, slots).0, k) ==
      if Slot(slots, k).name.Some? then Slot(slots, k)
      else if FirstOfKind(hs, k) < |hs| then hs[FirstOfKind(hs, k)]
      else Slot(slots, k)
  {
    if hs != [] {
      var p := hs[..|hs| - 1];
      SetHeadersSlot(p, slots, k);
      FirstOfKindMeaning(p, k);
    }
  }

  /** A slot is filled after the header pass exactly when it was filled before or a header of its kind came. */
  lemma SlotTaken(hs: seq<Header>, slots: HeaderSlots, k: HeaderKind)
    requires k != OtherKind
    ensures Slot(SetHeaders(hs, slots).0, k).name.Some? <==> TakenBefore(hs, slots, k, |hs|)
  {
    SetHeadersSlot(hs, slots, k);
    FirstOfKindMeaning(hs, k);
  }

  /** The header pass records exactly the errors of `ErrorFor`, in header order. */
  lemma {:induction false} SetHeadersErrors(hs: seq<Header>, slots: HeaderSlots)
    ensures SetHeaders(hs, slots).1 == ErrorsFor(hs, slots, |hs|)
  {
    if hs != [] {
      var n := |hs| - 1;
      var p := hs[..n];
      SetHeadersErrors(p, slots);
      ErrorsForPrefix(hs, slots, n, n);
      var k := KindOf(hs[n]);
      if k != OtherKind {
        SlotTaken(p, slots, k);
        TakenBeforePrefix(hs, slots, k, n, n);
      }
    }
  }

  /** NO_FSM and NO_INITIAL are recorded exactly when no such header reached a fresh analyzer. */
  lemma MissingHeadersMeaning(hs: seq<Header>)
    ensures var slots := SetHeaders(hs, FreshSlots).0;
      (AnalysisError(NoFsm, NoExtra) in MissingHeaderErrors(slots) <==> forall j :: 0 <= j < |hs| ==> !IsNamed(hs[j], "fsm")) &&
      (AnalysisError(NoInitial, NoExtra) in MissingHeaderErrors(slots) <==> forall j :: 0 <= j < |hs| ==> !IsNamed(hs[j], "initial"))
  {
    var slots := SetHeaders(hs, FreshSlots).0;
    SlotTaken(hs, FreshSlots, FsmKind);
    SlotTaken(hs, FreshSlots, InitialKind);
    assert (AnalysisError(NoFsm, NoExtra) in MissingHeaderErrors(slots)) == slots.fsm.name.None?;
    assert (AnalysisError(NoInitial, NoExtra) in MissingHeaderErrors(slots)) == slots.initial.name.None?;
    assert (forall j :: 0 <= j < |hs| ==> !IsNamed(hs[j], "fsm")) <==> !(exists j :: 0 <= j < |hs| && KindOf(hs[j]) == FsmKind);
    assert (forall j :: 0 <= j < |hs| ==> !IsNamed(hs[j], "initial")) <==> !(exists j :: 0 <= j < |hs| && KindOf(hs[j]) == InitialKind);
  }
}
