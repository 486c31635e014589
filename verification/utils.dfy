/** Field predicates and validity helpers shared by the reducers, actions and controls. */
module Utils {
  import opened Values
  import opened Paths
  import FormReducer

  /** `isMulti(model)`: the model string names a multi-value field ("tags[]"). */
  predicate IsMulti(model: string)
  {
    EndsWith(model, "[]")
  }

  /** A model is multi exactly when it is some string followed by "[]". */
  lemma IsMultiForm(model: string)
    ensures IsMulti(model) <==> exists p: string :: model == p + "[]"
  {
    if IsMulti(model) {
      var p := model[..|model| - 2];
      assert model == p + "[]";
    }
    if exists p: string :: model == p + "[]" {
      var p: string :| model == p + "[]";
      assert model[|model| - 2..] == "[]";
    }
  }

  /** `isFocused(field)`: `field && field.focus`. */
  function IsFocused(field: Value): (r: Value)
    ensures Truthy(r) <==> Truthy(field) && Truthy(Get(field, "focus"))
    ensures !Truthy(field) ==> r == field
  {
    if Truthy(field) then Get(field, "focus") else field
  }

  /** `isPristine(field)`: the field's flag, or the initial field state's when there is no field. */
  function IsPristine(field: Value): (r: Value)
    ensures Truthy(field) ==> r == Get(field, "pristine")
    ensures !Truthy(field) ==> r == FormReducer.InitialFieldState["pristine"] && r == Bool(true)
  {
    if Truthy(field) then Get(field, "pristine") else FormReducer.InitialFieldState["pristine"]
  }

  /** `isTouched(field)`: the field's flag, or the initial field state's when there is no field. */
  function IsTouched(field: Value): (r: Value)
    ensures Truthy(field) ==> r == Get(field, "touched")
    ensures !Truthy(field) ==> r == FormReducer.InitialFieldState["touched"] && r == Bool(false)
  {
    if Truthy(field) then Get(field, "touched") else FormReducer.InitialFieldState["touched"]
  }

  /** A missing field answers as the initial field state does. */
  lemma MissingFieldIsInitial(field: Value)
    requires !Truthy(field)
    ensures IsPristine(field) == Get(Obj(FormReducer.InitialFieldState), "pristine")
    ensures IsTouched(field) == Get(Obj(FormReducer.InitialFieldState), "touched")
    ensures !Truthy(IsFocused(field))
  {
  }

  /** `getValue(value)` for anything that is not a DOM event: the value itself. */
  function GetValue(value: Value): Value
  {
    value
  }

  /** A validator argument: one function, or an object of named functions. */
  datatype Validator =
    | Fn(f: Value -> Value)
    | Named(fs: map<string, Value -> Value>)

  /** `validate(validators, value)` */
  function Validate(validators: Validator, value: Value): (r: Value)
    ensures validators.Fn? ==> r == validators.f(value)
    ensures validators.Named? ==> r.Obj? && r.fields.Keys == validators.fs.Keys
    ensures validators.Named? ==> forall k :: k in r.fields ==> r.fields[k] == validators.fs[k](value)
    ensures validators.Named? ==> (IsValid(r) <==> forall k :: k in validators.fs ==> Truthy(validators.fs[k](value)))
  {
    match validators
    case Fn(f) => f(GetValue(value))
    case Named(fs) => Obj(map k | k in fs :: fs[k](GetValue(value)))
  }

  /** `isValid(validity)`: an object is valid when every entry is truthy, anything else by its truthiness. */
  predicate IsValid(validity: Value)
    ensures validity == Obj(map[]) ==> IsValid(validity)
  {
    if IsPlainObject(validity) then EveryTruthy(validity) else Truthy(validity)
  }

  /** Inverting errors gives a validity that is valid exactly when no error is set. */
  lemma InvertedErrorsValid(errors: Value)
    ensures IsValid(Invert(errors)) <==> (if errors.Obj? then EveryFalsy(errors) else !Truthy(errors))
  {
  }
}
