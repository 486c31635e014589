/**
 * The field action creators (`trackable` wrappers are the identity here) and the synchronous
 * parts of the validation thunks: which validity each computes and which action it dispatches.
 */
module FieldActions {
  import opened Wrappers
  import opened Values
  import opened Paths
  import opened Actions
  import Lodash
  import Utils

  /** An omitted flag argument (`undefined`) takes the default `true`. */
  function FlagOrTrue(flag: Value): (r: Value)
    ensures flag == Undef ==> r == Bool(true)
    ensures flag != Undef ==> r == flag
  {
    if flag == Undef then Bool(true) else flag
  }

  /** `setPending(model, pending = true)` */
  function SetPendingAction(model: string, pending: Value): (a: Action)
    ensures TypeOf(a) == Some(SET_PENDING) && a.model == model
    ensures PendingOf(a) == FlagOrTrue(pending)
  {
    SetPending(model, FlagOrTrue(pending))
  }

  /** `setValidating(model, validating = true)` */
  function SetValidatingAction(model: string, validating: Value): (a: Action)
    ensures a.SetValidating? && a.model == model && a.validating == FlagOrTrue(validating)
  {
    SetValidating(model, FlagOrTrue(validating))
  }

  /** `setSubmitted(model, submitted = true)` */
  function SetSubmittedAction(model: string, submitted: Value): (a: Action)
    ensures TypeOf(a) == Some(SET_SUBMITTED) && a.model == model
    ensures SubmittedOf(a) == FlagOrTrue(submitted)
  {
    SetSubmitted(model, FlagOrTrue(submitted))
  }

  /** `setSubmitFailed(model, submitFailed = true)` */
  function SetSubmitFailedAction(model: string, submitFailed: Value): (a: Action)
    ensures a.SetSubmitFailed? && a.model == model && SubmitFailedOf(a) == FlagOrTrue(submitFailed)
  {
    SetSubmitFailed(model, FlagOrTrue(submitFailed))
  }

  /** `setValidity(model, validity, options)`: SET_ERRORS carrying `errors` when `options.errors` is set. */
  function SetValidityAction(model: string, validity: Value, options: Attrs): (a: Action)
    ensures a.model == model
    ensures Truthy(Get(Obj(options), "errors")) ==> TypeOf(a) == Some(SET_ERRORS) && ErrorsOf(a) == validity
    ensures !Truthy(Get(Obj(options), "errors")) ==> TypeOf(a) == Some(SET_VALIDITY) && ValidityOf(a) == validity
  {
    if Truthy(Get(Obj(options), "errors")) then SetErrors(model, validity) else SetValidity(model, validity)
  }

  /** `setErrors(model, errors, options)` */
  function SetErrorsAction(model: string, errors: Value, options: Attrs): (a: Action)
    ensures TypeOf(a) == Some(SET_ERRORS) && a.model == model && ErrorsOf(a) == errors
    ensures a == SetValidityAction(model, errors, map["errors" := Bool(true)])
  {
    SetValidityAction(model, errors, options["errors" := Bool(true)])
  }

  /** `setFieldsValidity(model, fieldsValidity, options = {})` */
  function SetFieldsValidityAction(model: string, fieldsValidity: Value, options: Attrs): (a: Action)
    ensures a.SetFieldsValidity? && a.model == model && a.fieldsValidity == fieldsValidity && a.options == options
  {
    SetFieldsValidity(model, fieldsValidity, options)
  }

  /** `setFieldsErrors(model, fieldsErrors, options)` */
  function SetFieldsErrorsAction(model: string, fieldsErrors: Value, options: Attrs): (a: Action)
    ensures a.SetFieldsValidity? && a.model == model && a.fieldsValidity == fieldsErrors
    ensures Get(Obj(a.options), "errors") == Bool(true)
    ensures forall k :: k in options && k != "errors" ==> k in a.options && a.options[k] == options[k]
  {
    SetFieldsValidityAction(model, fieldsErrors, options["errors" := Bool(true)])
  }

  /** `validate(model, validators)`: the validity of the current value, as one SET_VALIDITY. */
  function ValidateAction(state: Value, model: string, validators: Utils.Validator): (a: Action)
    ensures TypeOf(a) == Some(SET_VALIDITY) && a.model == model
    ensures var value := Lodash.GetIn(state, CastPath(model));
      validators.Fn? ==> ValidityOf(a) == validators.f(value)
    ensures var value := Lodash.GetIn(state, CastPath(model));
      validators.Named? ==> (ValidityOf(a).Obj? && ValidityOf(a).fields.Keys == validators.fs.Keys
        && forall k :: k in validators.fs ==> ValidityOf(a).fields[k] == validators.fs[k](value))
  {
    var value := Lodash.GetIn(state, CastPath(model));
    SetValidityAction(model, Utils.Validate(validators, value), map[])
  }

  /** `validateErrors(model, errorValidators)`: the errors of the current value, as one SET_ERRORS. */
  function ValidateErrorsAction(state: Value, model: string, validators: Utils.Validator): (a: Action)
    ensures TypeOf(a) == Some(SET_ERRORS) && a.model == model
    ensures ErrorsOf(a) == Utils.Validate(validators, Lodash.GetIn(state, CastPath(model)))
  {
    var value := Lodash.GetIn(state, CastPath(model));
    SetValidityAction(model, Utils.Validate(validators, value), map["errors" := Bool(true)])
  }

  /**
   * `isFormValidWithoutFields(form, fieldsValidity)`. `isValidityValid` and `isValid` are the
   * library's own predicates, passed in. Reading `$form.validity` of a form without `$form`,
   * or taking the keys of an `undefined`/`null` validity, throws.
   */
  function IsFormValidWithoutFields(form: Value, fieldsValidity: Value,
                                    isValidityValid: Value -> bool, isValid: Value -> bool): (r: Result<bool>)
    ensures var meta := Get(form, "$form");
      r.Err? <==> meta == Undef || meta == Null || Get(meta, "validity") == Undef || Get(meta, "validity") == Null
    ensures var validity := Get(Get(form, "$form"), "validity");
      r.Ok? && KeyCount(validity) > 0 && !isValidityValid(validity) ==> r.value == false
    ensures var validity := Get(Get(form, "$form"), "validity");
      r.Ok? && !(KeyCount(validity) > 0 && !isValidityValid(validity)) ==>
        (r.value <==> forall k :: k in Entries(form) && k != "$form" && !HasKey(fieldsValidity, k) ==> isValid(Entries(form)[k]))
  {
    var meta := Get(form, "$form");
    if meta == Undef || meta == Null then Err(NullAccess)
    else
      var validity := Get(meta, "validity");
      if validity == Undef || validity == Null then Err(NullAccess)
      else if KeyCount(validity) > 0 && !isValidityValid(validity) then Ok(false)
      else
        var entries := Entries(form);
        Ok(forall k :: k in entries ==> (k == "$form" || HasKey(fieldsValidity, k) || isValid(entries[k])))
  }

  /**
   * A larger `fieldsValidity` can only help: every key it gains is one more field the check
   * skips, so whether the form throws does not change and a `true` answer stays `true`.
   */
  lemma WithoutFieldsMonotone(form: Value, fieldsValidity: Value, more: Value,
                              isValidityValid: Value -> bool, isValid: Value -> bool)
    requires forall k :: HasKey(fieldsValidity, k) ==> HasKey(more, k)
    ensures var r := IsFormValidWithoutFields(form, fieldsValidity, isValidityValid, isValid);
      var r' := IsFormValidWithoutFields(form, more, isValidityValid, isValid);
      && (r.Ok? <==> r'.Ok?)
      && (r == Ok(true) ==> r' == Ok(true))
  {
  }

  /**
   * A field that `fieldsValidity` covers is never asked whether it is valid: when it covers
   * every field, the answer depends on the form's own validity alone.
   */
  lemma WithoutFieldsCovered(form: Value, fieldsValidity: Value, isValidityValid: Value -> bool,
                             isValid: Value -> bool, isValid': Value -> bool)
    requires forall k :: k in Entries(form) && k != "$form" ==> HasKey(fieldsValidity, k)
    ensures IsFormValidWithoutFields(form, fieldsValidity, isValidityValid, isValid)
      == IsFormValidWithoutFields(form, fieldsValidity, isValidityValid, isValid')
  {
  }

  /** `field ? _get(value, field) : value`: the empty key validates the whole value. */
  function FieldValue(value: Value, field: string): (r: Value)
    ensures field == "" ==> r == value
    ensures field != "" ==> r == Lodash.GetIn(value, CastPath(field))
  {
    if field == "" then value else Lodash.GetIn(value, CastPath(field))
  }

  /** The `fieldsValidity` object `validateFields` computes: one entry per validator key. */
  function FieldsValidity(value: Value, fieldValidators: map<string, Utils.Validator>): (r: Value)
    ensures r.Obj? && r.fields.Keys == fieldValidators.Keys
    ensures forall k :: k in fieldValidators ==> r.fields[k] == Utils.Validate(fieldValidators[k], FieldValue(value, k))
  {
    Obj(map k | k in fieldValidators :: Utils.Validate(fieldValidators[k], FieldValue(value, k)))
  }

  /** `validateFields(model, fieldValidators, options)`: the action it dispatches. */
  function ValidateFieldsAction(state: Value, model: string, fieldValidators: map<string, Utils.Validator>,
                                options: Attrs): (a: Action)
    ensures a.SetFieldsValidity? && a.model == model
    ensures a.fieldsValidity == FieldsValidity(Lodash.GetIn(state, CastPath(model)), fieldValidators)
    ensures Truthy(Get(Obj(options), "errors")) <==> Get(Obj(a.options), "errors") == Bool(true)
  {
    var fieldsValidity := FieldsValidity(Lodash.GetIn(state, CastPath(model)), fieldValidators);
    if Truthy(Get(Obj(options), "errors")) then SetFieldsErrorsAction(model, fieldsValidity, map[])
    else SetFieldsValidityAction(model, fieldsValidity, map[])
  }

  /** Which of the `onValid`/`onInvalid` callbacks `validateFields` calls, if any. */
  datatype Callback = OnValid | OnInvalid | NoCallback

  /**
   * The callback choice of `validateFields`; `form` is the form `getForm` finds (`Undef` when
   * none), the validity predicates are the library's own, passed in.
   */
  function ValidateFieldsCallback(hasOnValid: bool, hasOnInvalid: bool, form: Value, fieldsValidity: Value,
                                  errors: bool, isValidityValid: Value -> bool, isValidityInvalid: Value -> bool,
                                  isValid: Value -> bool): (r: Result<Callback>)
    ensures !hasOnValid && !hasOnInvalid ==> r == Ok(NoCallback)
    ensures r == Ok(OnValid) ==> hasOnValid
    ensures r == Ok(OnInvalid) ==> hasOnInvalid
    ensures r.Ok? && r.value != OnValid && hasOnInvalid ==> r.value == OnInvalid
    ensures (hasOnValid || hasOnInvalid) && (!Truthy(form) || HasKey(fieldsValidity, "")) ==>
      r.Ok? && (r.value == OnValid <==>
        hasOnValid && (if errors then !isValidityInvalid(fieldsValidity) else isValidityValid(fieldsValidity)))
    ensures (hasOnValid || hasOnInvalid) && Truthy(form) && !HasKey(fieldsValidity, "") ==>
      match IsFormValidWithoutFields(form, fieldsValidity, isValidityValid, isValid)
      case Err(e) => r == Err(e)
      case Ok(fv) => r.Ok? && (r.value == OnValid <==>
        hasOnValid && fv && (if errors then !isValidityInvalid(fieldsValidity) else isValidityValid(fieldsValidity)))
  {
    if !hasOnValid && !hasOnInvalid then Ok(NoCallback)
    else
      var formValid :=
        if Truthy(form) && !HasKey(fieldsValidity, "") then IsFormValidWithoutFields(form, fieldsValidity, isValidityValid, isValid)
        else Ok(true);
      match formValid
      case Err(e) => Err(e)
      case Ok(fv) =>
        var fieldsValid := if errors then !isValidityInvalid(fieldsValidity) else isValidityValid(fieldsValidity);
        if hasOnValid && fv && fieldsValid then Ok(OnValid)
        else if hasOnInvalid then Ok(OnInvalid)
        else Ok(NoCallback)
  }

  /**
   * The synchronous run of `asyncSetValidity(model, validator)`: SET_VALIDATING first, then a
   * SET_VALIDITY with the validator's immediate result when it returns one. A result delivered
   * later through `done` is not modelled.
   */
  function AsyncSetValidity(state: Value, model: string, validator: Value -> Value): (r: seq<Action>)
    ensures |r| >= 1 && r[0] == SetValidating(model, Bool(true))
    ensures var result := validator(Lodash.GetIn(state, CastPath(model)));
      (result == Undef ==> |r| == 1) && (result != Undef ==> |r| == 2 && r[1] == SetValidity(model, result))
  {
    var result := validator(Lodash.GetIn(state, CastPath(model)));
    [SetValidatingAction(model, Bool(true))] + (if result != Undef then [SetValidityAction(model, result, map[])] else [])
  }
}
