/**
 * A text editor that hands out mementos of its text and takes them back,
 * and an undo wrapper that stacks a memento before every edit and pops one
 * on undo.
 */
module Mementos {

  /** `TextEditorMemento`: the text, kept as opaque metadata. */
  datatype TextEditorMemento = TextEditorMemento(stateMetadata: string)

  /** The constructor's `getMetadataFromState`: a memento of `state`, from which `ReconstructState` gives `state` back. */
  function MementoOf(state: string): (m: TextEditorMemento)
    ensures ReconstructState(m) == state
  {
    TextEditorMemento(state)
  }

  /** `reconstructState`. */
  function ReconstructState(m: TextEditorMemento): string
  {
    m.stateMetadata
  }

  class TextEditorWithMemento {
    var state: string

    constructor(text: string := "")
      ensures state == text
    {
      state := text;
    }

    method SetText(text: string)
      modifies this
      ensures state == text
    {
      state := text;
    }

    method GetText() returns (text: string)
      ensures text == state
    {
      text := state;
    }

    /** `getMemento`: restoring the result gives back the current text. */
    method GetMemento() returns (m: TextEditorMemento)
      ensures ReconstructState(m) == state
    {
      m := MementoOf(state);
    }

    method SetMemento(m: TextEditorMemento)
      modifies this
      ensures state == ReconstructState(m)
    {
      state := ReconstructState(m);
    }
  }

  /** What an undoable editor holds: its current text and the stacked earlier texts, oldest first. */
  datatype UndoState = UndoState(text: string, history: seq<string>)

  /** `setText` on an undoable editor: the current text goes on the stack. */
  function AfterSetText(e: UndoState, text: string): (r: UndoState)
    ensures r.text == text && |r.history| == |e.history| + 1
    ensures r.history[..|e.history|] == e.history && r.history[|e.history|] == e.text
  {
    UndoState(text, e.history + [e.text])
  }

  /** `undo`: the newest stacked text comes back; on an empty stack nothing changes. */
  function AfterUndo(e: UndoState): (r: UndoState)
    ensures e.history == [] ==> r == e
    ensures e.history != [] ==> |r.history| + 1 == |e.history| && AfterSetText(r, e.text) == e
  {
    if e.history == [] then e
    else UndoState(e.history[|e.history| - 1], e.history[..|e.history| - 1])
  }

  function SetTexts(e: UndoState, texts: seq<string>): UndoState
  {
    if texts == [] then e else AfterSetText(SetTexts(e, texts[..|texts| - 1]), texts[|texts| - 1])
  }

  function Undos(e: UndoState, n: nat): UndoState
    decreases n
  {
    if n == 0 then e else Undos(AfterUndo(e), n - 1)
  }

  function Texts(history: seq<TextEditorMemento>): (texts: seq<string>)
    ensures |texts| == |history|
    ensures forall i :: 0 <= i < |history| ==> texts[i] == ReconstructState(history[i])
  {
    seq(|history|, i requires 0 <= i < |history| => ReconstructState(history[i]))
  }

  class TextEditorWithUndo {
    var history: seq<TextEditorMemento>
    const editor: TextEditorWithMemento

    constructor(editor: TextEditorWithMemento)
      ensures this.editor == editor && history == []
    {
      this.editor := editor;
      history := [];
    }

    ghost function Value(): UndoState
      reads this, editor
    {
      UndoState(editor.state, Texts(history))
    }

    method SetText(text: string)
      modifies this, editor
      ensures Value() == AfterSetText(old(Value()), text)
    {
      RememberCurrentState();
      editor.SetText(text);
    }

    method RememberCurrentState()
      modifies this
      ensures Value() == UndoState(editor.state, old(Value()).history + [editor.state])
    {
      var m := editor.GetMemento();
      history := history + [m];
      assert Texts(history) == Texts(old(history)) + [editor.state];
    }

    method GetText() returns (text: string)
      ensures text == Value().text
    {
      text := editor.GetText();
    }

    method Undo()
      modifies this, editor
      ensures Value() == AfterUndo(old(Value()))
    {
      if history == [] {
        return;
      }
      var m := history[|history| - 1];
      history := history[..|history| - 1];
      editor.SetMemento(m);
      assert Texts(history) == Texts(old(history))[..|old(history)| - 1];
    }
  }

  /** An undo right after an edit restores the editor as it was. */
  lemma UndoAfterSetText(e: UndoState, text: string)
    ensures AfterUndo(AfterSetText(e, text)) == e
  {
    assert (e.history + [e.text])[..|e.history|] == e.history;
  }

  /** As many undos as edits restore the editor as it was before the edits. */
  lemma {:induction false} UndosAfterSetTexts(e: UndoState, texts: seq<string>)
    ensures Undos(SetTexts(e, texts), |texts|) == e
    decreases |texts|
  {
    if texts != [] {
      var prefix := texts[..|texts| - 1];
      UndoAfterSetText(SetTexts(e, prefix), texts[|texts| - 1]);
      UndosAfterSetTexts(e, prefix);
    }
  }

  /** Undoing once per stacked memento brings back the oldest text and empties the stack; further undos do nothing. */
  lemma {:induction false} UndoEverything(e: UndoState, extra: nat)
    ensures var r := Undos(e, |e.history| + extra);
      r.history == [] && r.text == (if e.history == [] then e.text else e.history[0])
    decreases |e.history| + extra
  {
    if |e.history| + extra == 0 {
    } else if e.history == [] {
      UndoEverything(e, extra - 1);
    } else {
      var next := AfterUndo(e);
      UndoEverything(next, extra);
      if next.history != [] {
        assert next.history[0] == e.history[0];
      }
    }
  }
}
