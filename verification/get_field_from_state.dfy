/**
 * Looking up a field's metadata in the flat-field generation's state. The form lookup
 * `getForm` is defined outside this file, so it is a parameter here.
 */
module GetFieldFromState {
  import opened Wrappers
  import opened Values
  import opened Paths
  import Lodash

  /** `toPath(form.$form.model)`: the form's own model path (`undefined` gives no keys). */
  function ModelPath(model: Value): seq<string>
  {
    if model.Str? then ToPath(model.s) else []
  }

  /** The form the lookup starts from: the state itself when it carries `$form`, else what `getForm` finds. */
  function ResolveForm(state: Value, modelString: string, getForm: (Value, string) -> Value): (r: Result<Value>)
    ensures Truthy(state) && HasKey(state, "$form") ==> r == Ok(state)
    ensures !Truthy(state) ==> r == Ok(getForm(state, modelString))
    ensures Truthy(state) && !IsContainer(state) ==> r == Err(NotAnObject)
  {
    if Truthy(state) && !IsContainer(state) then Err(NotAnObject)
    else if Truthy(state) && HasKey(state, "$form") then Ok(state)
    else Ok(getForm(state, modelString))
  }

  /**
   * `getFieldFromState(state, modelString)`: `None` (the source's `null`) when there is no form
   * or no field; the form for the empty model string; otherwise the entry at the model path
   * below the form's own model, a sub-form answering with its `$form`.
   */
  function GetFieldFromState(state: Value, modelString: string, getForm: (Value, string) -> Value): (r: Result<Option<Value>>)
    ensures ResolveForm(state, modelString, getForm).Err? ==> r.Err?
    ensures ResolveForm(state, modelString, getForm).Ok? && !Truthy(ResolveForm(state, modelString, getForm).value) ==>
      r == Ok(None)
    ensures var form := ResolveForm(state, modelString, getForm);
      form.Ok? && Truthy(form.value) && modelString == "" ==> r == Ok(Some(form.value))
    ensures var form := ResolveForm(state, modelString, getForm);
      form.Ok? && Truthy(form.value) && modelString != "" && Get(form.value, "$form") != Undef && Get(form.value, "$form") != Null ==>
        var path := ToPath(modelString);
        var skip := |ModelPath(Get(Get(form.value, "$form"), "model"))|;
        var field := Lodash.GetIn(form.value, if skip <= |path| then path[skip..] else []);
        && (!Truthy(field) ==> r == Ok(None))
        && (Truthy(field) && field.Obj? && "$form" in field.fields ==> r == Ok(Some(field.fields["$form"])))
        && (Truthy(field) && !(field.Obj? && "$form" in field.fields) ==> r == Ok(Some(field)))
  {
    match ResolveForm(state, modelString, getForm)
    case Err(e) => Err(e)
    case Ok(form) =>
      if !Truthy(form) then Ok(None)
      else if modelString == "" then Ok(Some(form))
      else
        var meta := Get(form, "$form");
        if meta == Undef || meta == Null then Err(NullAccess)
        else
          var formPath := ModelPath(Get(meta, "model"));
          var path := ToPath(modelString);
          var fieldPath := if |formPath| <= |path| then path[|formPath|..] else [];
          var field := Lodash.GetIn(form, fieldPath);
          if !Truthy(field) then Ok(None)
          else if IsPlainObject(field) && HasKey(field, "$form") then Ok(Some(Get(field, "$form")))
          else Ok(Some(field))
  }

  /** A state that is itself a form is searched directly: `getForm` plays no part. */
  lemma OwnFormIgnoresLookup(state: Value, modelString: string, g1: (Value, string) -> Value, g2: (Value, string) -> Value)
    requires Truthy(state) && HasKey(state, "$form")
    ensures GetFieldFromState(state, modelString, g1) == GetFieldFromState(state, modelString, g2)
  {
  }

  /**
   * The lookup strips the form's own model path: for a model string whose path is the
   * form's path followed by `rest`, the answer is what is found at `rest` inside the form.
   */
  lemma FieldBelowForm(form: Value, modelString: string, getForm: (Value, string) -> Value, rest: seq<string>)
    requires form.Obj? && "$form" in form.fields && form.fields["$form"].Obj?
    requires modelString != ""
    requires ToPath(modelString) == ModelPath(Get(form.fields["$form"], "model")) + rest
    ensures var field := Lodash.GetIn(form, rest);
      GetFieldFromState(form, modelString, getForm) ==
        if !Truthy(field) then Ok(None)
        else if field.Obj? && "$form" in field.fields then Ok(Some(field.fields["$form"]))
        else Ok(Some(field))
  {
    var p := ModelPath(Get(form.fields["$form"], "model"));
    assert ToPath(modelString)[|p|..] == rest;
  }
}
