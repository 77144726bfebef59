/**
 * Model-view-presenter: the model reports whether a write changed its data,
 * and the presenter copies the view's input into the model and writes the
 * model's data to the view's output only when it changed.
 */
module ModelViewPresenter {
  import opened Wrappers

  /** `Model<T>`: the data, null until first set. */
  class Model<T(==)> {
    var data: Option<T>

    constructor()
      ensures data == None
    {
      data := None;
    }

    method GetData() returns (d: Option<T>)
      ensures d == data
    {
      d := data;
    }

    /** `setData`: always stores `d`, and reports whether it differs from what was there. */
    method SetData(d: T) returns (hasChanged: bool)
      modifies this
      ensures data == Some(d)
      ensures hasChanged <==> old(data) != Some(d)
    {
      hasChanged := data != Some(d);
      data := Some(d);
    }
  }

  /** A `Stringable` element, such as a text field. */
  class Element {
    var value: string

    constructor(value: string)
      ensures this.value == value
    {
      this.value := value;
    }
  }

  class View {
    const inputElement: Element
    const outputElement: Element

    constructor(inputElement: Element, outputElement: Element)
      ensures this.inputElement == inputElement && this.outputElement == outputElement
    {
      this.inputElement := inputElement;
      this.outputElement := outputElement;
    }

    method GetInputValue() returns (v: string)
      ensures v == inputElement.value
    {
      v := inputElement.value;
    }

    method SetOutputValue(v: string)
      modifies outputElement
      ensures outputElement.value == v
    {
      outputElement.value := v;
    }
  }

  /** The model's data and the view's output after the presenter has handled input `input`. */
  function HandleInput(data: Option<string>, output: string, input: string): (r: (Option<string>, string))
    ensures r.0 == Some(input)
    ensures r.1 == input || (data == Some(input) && r.1 == output)
    ensures data == Some(input) ==> r.1 == output
    ensures data != Some(input) ==> r.1 == input
  {
    if data == Some(input) then (Some(input), output) else (Some(input), input)
  }

  class Presenter {
    const model: Model<string>
    const view: View

    constructor(model: Model<string>, view: View)
      ensures this.model == model && this.view == view
    {
      this.model := model;
      this.view := view;
    }

    /** `handleInputChange`: the input goes to the model; the output is rewritten only when the model changed. */
    method HandleInputChange()
      modifies model, view.outputElement
      ensures (model.data, view.outputElement.value) ==
        HandleInput(old(model.data), old(view.outputElement.value), old(view.inputElement.value))
    {
      var inputValue := view.GetInputValue();
      var shouldUpdate := model.SetData(inputValue);
      if !shouldUpdate {
        return;
      }
      var data := model.GetData();
      var outputValue := if data.Some? then data.value else "";
      view.SetOutputValue(outputValue);
    }
  }

  /** Handling the same input twice has the effect of handling it once. */
  lemma HandleInputIdempotent(data: Option<string>, output: string, input: string)
    ensures var (d, o) := HandleInput(data, output, input);
      HandleInput(d, o, input) == (d, o)
  {
  }

  /** Once the output shows the model's data, every handled input keeps it that way. */
  lemma HandleInputKeepsOutputInSync(data: Option<string>, output: string, input: string)
    requires data.Some? ==> output == data.value
    ensures var (d, o) := HandleInput(data, output, input);
      d.Some? && o == d.value
  {
  }
}
