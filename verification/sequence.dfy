/**
 * The value logic of a control's change sequence: which model value a checkbox, or any other
 * control, dispatches. Event plumbing, parsers and memoisation are outside this model.
 */
module Sequence {
  import opened Wrappers
  import opened Values
  import opened Seqs
  import Utils
  import ModelActions
  import Lodash
  import Paths

  /** The `modelValueUpdaterMap` entries. */
  datatype Updater = Checkbox | Default

  /** `modelValueUpdaterMap[control.props.type] || modelValueUpdaterMap.default` */
  function UpdaterFor(propsType: Value): (u: Updater)
    ensures u == Checkbox <==> propsType == Str("checkbox")
  {
    if propsType == Str("checkbox") then Checkbox else Default
  }

  /**
   * The checkbox updater. For a multi-value model (ending in `[]`) the event value is added
   * to the current array (a missing one reads as `[]`) when no element equals it, and every
   * equal element is removed otherwise; a single checkbox negates the current value.
   */
  function CheckboxValue(model: string, modelValue: Value, eventValue: Value): (r: Result<Value>)
    ensures !Utils.IsMulti(model) ==> r == Ok(Not(modelValue))
    ensures Utils.IsMulti(model) ==> (r.Err? <==> Truthy(modelValue) && !modelValue.Arr?)
    ensures Utils.IsMulti(model) && r.Ok? ==> r.value.Arr?
  {
    if Utils.IsMulti(model) then
      var withItem := if Truthy(modelValue) then modelValue else Arr([]);
      if !withItem.Arr? then Err(NotAnArray)
      else
        var withoutItem := Filter(withItem.items, Differs(eventValue));
        Ok(Arr(if |withoutItem| == |withItem.items| then withItem.items + [eventValue] else withoutItem))
    else Ok(Not(modelValue))
  }

  /** The elements other than `v`. */
  function Differs(v: Value): Value -> bool
  {
    x => x != v
  }

  /** A multi checkbox does what the `xor` model action does with the default iteratee. */
  lemma MultiCheckboxIsXor(model: string, items: seq<Value>, eventValue: Value)
    requires Utils.IsMulti(model)
    ensures CheckboxValue(model, Arr(items), eventValue)
      == Ok(Arr(ModelActions.XorItems(items, eventValue, ModelActions.SameAs(eventValue))))
  {
    var same := ModelActions.SameAs(eventValue);
    forall x | x in items
      ensures Differs(eventValue)(x) == ModelActions.Unmatched(same)(x)
    {
      assert same(x) == Bool(x == eventValue);
    }
    FilterAgree(items, Differs(eventValue), ModelActions.Unmatched(same));
    var kept := Filter(items, Differs(eventValue));
    assert CheckboxValue(model, Arr(items), eventValue) ==
      Ok(Arr(if |kept| == |items| then items + [eventValue] else kept));
    assert ModelActions.XorItems(items, eventValue, same) == (if |kept| == |items| then items + [eventValue] else kept);
  }

  /** For a multi checkbox an unchecked value is appended. */
  lemma MultiCheckboxAdds(model: string, items: seq<Value>, eventValue: Value)
    requires Utils.IsMulti(model) && eventValue !in items
    ensures CheckboxValue(model, Arr(items), eventValue) == Ok(Arr(items + [eventValue]))
  {
    MultiCheckboxIsXor(model, items, eventValue);
    ModelActions.XorTwice(items, eventValue);
  }

  /** For a multi checkbox a checked value is removed with all its copies; nothing else changes count. */
  lemma MultiCheckboxRemoves(model: string, items: seq<Value>, eventValue: Value)
    requires Utils.IsMulti(model) && eventValue in items
    ensures CheckboxValue(model, Arr(items), eventValue).Ok?
    ensures var r := CheckboxValue(model, Arr(items), eventValue).value.items;
      eventValue !in r && forall x :: x != eventValue ==> multiset(r)[x] == multiset(items)[x]
  {
    MultiCheckboxIsXor(model, items, eventValue);
    ModelActions.XorRemovesAll(items, eventValue);
  }

  /** A missing multi-value model reads as the empty array, so the first check makes a singleton. */
  lemma MultiCheckboxFromNothing(model: string, eventValue: Value)
    requires Utils.IsMulti(model)
    ensures CheckboxValue(model, Undef, eventValue) == Ok(Arr([eventValue]))
  {
    assert CheckboxValue(model, Undef, eventValue) == CheckboxValue(model, Arr([]), eventValue);
    MultiCheckboxAdds(model, [], eventValue);
    assert [] + [eventValue] == [eventValue];
  }

  /** Checking and unchecking the same value gives the array back. */
  lemma MultiCheckboxTwice(model: string, items: seq<Value>, eventValue: Value)
    requires Utils.IsMulti(model) && eventValue !in items
    ensures var once := CheckboxValue(model, Arr(items), eventValue).value;
      CheckboxValue(model, once, eventValue) == Ok(Arr(items))
  {
    MultiCheckboxIsXor(model, items, eventValue);
    MultiCheckboxIsXor(model, items + [eventValue], eventValue);
    ModelActions.XorTwice(items, eventValue);
  }

  /** A single checkbox dispatches what the `toggle` model action would. */
  lemma SingleCheckboxIsToggle(state: Value, model: string, eventValue: Value)
    requires !Utils.IsMulti(model)
    ensures var current := Lodash.GetIn(state, Paths.CastPath(model));
      CheckboxValue(model, current, eventValue) == Ok(ModelActions.Toggle(state, model).value)
  {
  }

  /** The updater a control uses; the default one dispatches the event value unchanged. */
  function UpdateValue(u: Updater, model: string, modelValue: Value, eventValue: Value): (r: Result<Value>)
    ensures u == Default ==> r == Ok(eventValue)
    ensures u == Checkbox ==> r == CheckboxValue(model, modelValue, eventValue)
  {
    match u
    case Checkbox => CheckboxValue(model, modelValue, eventValue)
    case Default => Ok(eventValue)
  }

  /** The parts of a rendered control the sequence reads: element type, `props.type`, `props.value`. */
  datatype Control = Control(elementType: string, propsType: Value, propsValue: Value)

  /** `isReadOnlyValue(control)`: a radio or checkbox `input`, whose value comes from its own props. */
  predicate IsReadOnlyValue(control: Control)
  {
    control.elementType == "input" && control.propsType in {Str("radio"), Str("checkbox")}
  }

  /**
   * The model value `dispatchChange` dispatches: for a read-only-value control the updater
   * applied to the control's own `value` prop, otherwise what the change pipeline produced.
   */
  function DispatchChangeValue(control: Control, model: string, modelValue: Value, event: Value): (r: Result<Value>)
    ensures !IsReadOnlyValue(control) ==> r == Ok(event)
  {
    if IsReadOnlyValue(control) then UpdateValue(UpdaterFor(control.propsType), model, modelValue, control.propsValue)
    else Ok(event)
  }

  /** A radio input dispatches its own value; a checkbox input runs the checkbox updater on it. */
  lemma ReadOnlyControls(model: string, modelValue: Value, event: Value, value: Value)
    ensures DispatchChangeValue(Control("input", Str("radio"), value), model, modelValue, event) == Ok(value)
    ensures DispatchChangeValue(Control("input", Str("checkbox"), value), model, modelValue, event)
      == CheckboxValue(model, modelValue, value)
    ensures DispatchChangeValue(Control("select", Str("checkbox"), value), model, modelValue, event) == Ok(event)
  {
    assert IsReadOnlyValue(Control("input", Str("radio"), value));
    assert IsReadOnlyValue(Control("input", Str("checkbox"), value));
  }
}
