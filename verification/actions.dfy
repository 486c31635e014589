/**
 * Action records as the reducers receive them. Each variant carries the properties its
 * creator sets; a property the creator leaves out reads as `undefined` through the accessors.
 */
module Actions {
  import opened Wrappers
  import opened Values

  const CHANGE := "rsf/change"
  const RESET := "rsf/reset"
  const FOCUS := "rsf/focus"
  const BLUR := "rsf/blur"
  const VALIDATE := "rsf/validate"
  const SET_DIRTY := "rsf/setDirty"
  const SET_PRISTINE := "rsf/setPristine"
  const SET_TOUCHED := "rsf/setTouched"
  const SET_UNTOUCHED := "rsf/setUntouched"
  const SET_INITIAL := "rsf/setInitial"
  const SET_PENDING := "rsf/setPending"
  const SET_VALIDITY := "rsf/setValidity"
  const SET_ERRORS := "rsf/setErrors"
  const SET_SUBMITTED := "rsf/setSubmitted"
  const SET_VIEW_VALUE := "rsf/setViewValue"

  /** The action types are pairwise distinct, so a `switch` over them takes exactly one case. */
  lemma TypesDistinct()
    ensures CHANGE != RESET && CHANGE != FOCUS && CHANGE != BLUR && CHANGE != VALIDATE && CHANGE != SET_DIRTY && CHANGE != SET_PRISTINE && CHANGE != SET_TOUCHED && CHANGE != SET_UNTOUCHED && CHANGE != SET_INITIAL && CHANGE != SET_PENDING && CHANGE != SET_VALIDITY && CHANGE != SET_ERRORS && CHANGE != SET_SUBMITTED && CHANGE != SET_VIEW_VALUE
    ensures RESET != FOCUS && RESET != BLUR && RESET != VALIDATE && RESET != SET_DIRTY && RESET != SET_PRISTINE && RESET != SET_TOUCHED && RESET != SET_UNTOUCHED && RESET != SET_INITIAL && RESET != SET_PENDING && RESET != SET_VALIDITY && RESET != SET_ERRORS && RESET != SET_SUBMITTED && RESET != SET_VIEW_VALUE
    ensures FOCUS != BLUR && FOCUS != VALIDATE && FOCUS != SET_DIRTY && FOCUS != SET_PRISTINE && FOCUS != SET_TOUCHED && FOCUS != SET_UNTOUCHED && FOCUS != SET_INITIAL && FOCUS != SET_PENDING && FOCUS != SET_VALIDITY && FOCUS != SET_ERRORS && FOCUS != SET_SUBMITTED && FOCUS != SET_VIEW_VALUE
    ensures BLUR != VALIDATE && BLUR != SET_DIRTY && BLUR != SET_PRISTINE && BLUR != SET_TOUCHED && BLUR != SET_UNTOUCHED && BLUR != SET_INITIAL && BLUR != SET_PENDING && BLUR != SET_VALIDITY && BLUR != SET_ERRORS && BLUR != SET_SUBMITTED && BLUR != SET_VIEW_VALUE
    ensures VALIDATE != SET_DIRTY && VALIDATE != SET_PRISTINE && VALIDATE != SET_TOUCHED && VALIDATE != SET_UNTOUCHED && VALIDATE != SET_INITIAL && VALIDATE != SET_PENDING && VALIDATE != SET_VALIDITY && VALIDATE != SET_ERRORS && VALIDATE != SET_SUBMITTED && VALIDATE != SET_VIEW_VALUE
    ensures SET_DIRTY != SET_PRISTINE && SET_DIRTY != SET_TOUCHED && SET_DIRTY != SET_UNTOUCHED && SET_DIRTY != SET_INITIAL && SET_DIRTY != SET_PENDING && SET_DIRTY != SET_VALIDITY && SET_DIRTY != SET_ERRORS && SET_DIRTY != SET_SUBMITTED && SET_DIRTY != SET_VIEW_VALUE
    ensures SET_PRISTINE != SET_TOUCHED && SET_PRISTINE != SET_UNTOUCHED && SET_PRISTINE != SET_INITIAL && SET_PRISTINE != SET_PENDING && SET_PRISTINE != SET_VALIDITY && SET_PRISTINE != SET_ERRORS && SET_PRISTINE != SET_SUBMITTED && SET_PRISTINE != SET_VIEW_VALUE
    ensures SET_TOUCHED != SET_UNTOUCHED && SET_TOUCHED != SET_INITIAL && SET_TOUCHED != SET_PENDING && SET_TOUCHED != SET_VALIDITY && SET_TOUCHED != SET_ERRORS && SET_TOUCHED != SET_SUBMITTED && SET_TOUCHED != SET_VIEW_VALUE
    ensures SET_UNTOUCHED != SET_INITIAL && SET_UNTOUCHED != SET_PENDING && SET_UNTOUCHED != SET_VALIDITY && SET_UNTOUCHED != SET_ERRORS && SET_UNTOUCHED != SET_SUBMITTED && SET_UNTOUCHED != SET_VIEW_VALUE
    ensures SET_INITIAL != SET_PENDING && SET_INITIAL != SET_VALIDITY && SET_INITIAL != SET_ERRORS && SET_INITIAL != SET_SUBMITTED && SET_INITIAL != SET_VIEW_VALUE
    ensures SET_PENDING != SET_VALIDITY && SET_PENDING != SET_ERRORS && SET_PENDING != SET_SUBMITTED && SET_PENDING != SET_VIEW_VALUE
    ensures SET_VALIDITY != SET_ERRORS && SET_VALIDITY != SET_SUBMITTED && SET_VALIDITY != SET_VIEW_VALUE
    ensures SET_ERRORS != SET_SUBMITTED && SET_ERRORS != SET_VIEW_VALUE
    ensures SET_SUBMITTED != SET_VIEW_VALUE
  {
  }

  /** `action.method` of a change: `'reset'`, or anything else (absent or `'change'`). */
  datatype Method = PlainChange | ResetChange

  datatype Action =
    | Change(model: string, value: Value, multi: Option<bool>, silent: Option<bool>,
             removeKeys: Option<seq<Value>>, changeMethod: Method)
    | Reset(model: string)
    | Focus(model: string)
    | Blur(model: string)
    | SetDirty(model: string)
    | SetPristine(model: string)
    | SetTouched(model: string)
    | SetUntouched(model: string)
    | SetInitial(model: string)
    | SetPending(model: string, pending: Value)
    | SetValidating(model: string, validating: Value)
    | SetValidity(model: string, validity: Value)
    | SetErrors(model: string, errors: Value)
    | SetFieldsValidity(model: string, fieldsValidity: Value, options: Attrs)
    | ResetValidity(model: string)
    | SetSubmitted(model: string, submitted: Value)
    | SetSubmitFailed(model: string, submitFailed: Value)
    | SetViewValue(model: string, value: Value)
    | Other(typ: string, model: string)

  /**
   * `action.type`. The type constants of submit-failed, validating, fields-validity and
   * reset-validity are not defined among the action types, so those actions carry `undefined`.
   */
  function TypeOf(a: Action): (t: Option<string>)
    ensures t.None? <==> (a.SetValidating? || a.SetFieldsValidity? || a.ResetValidity? || a.SetSubmitFailed?)
    ensures a.Other? ==> t == Some(a.typ)
    ensures !a.Other? ==> (a.Change? <==> t == Some(CHANGE))
    ensures !a.Other? ==> (a.SetValidity? <==> t == Some(SET_VALIDITY))
    ensures !a.Other? ==> (a.SetErrors? <==> t == Some(SET_ERRORS))
    ensures !a.Other? ==> (a.Reset? <==> t == Some(RESET))
    ensures !a.Other? ==> (a.Focus? <==> t == Some(FOCUS))
    ensures !a.Other? ==> (a.Blur? <==> t == Some(BLUR))
    ensures !a.Other? ==> (a.SetDirty? <==> t == Some(SET_DIRTY))
    ensures !a.Other? ==> (a.SetPristine? <==> t == Some(SET_PRISTINE))
    ensures !a.Other? ==> (a.SetTouched? <==> t == Some(SET_TOUCHED))
    ensures !a.Other? ==> (a.SetUntouched? <==> t == Some(SET_UNTOUCHED))
    ensures !a.Other? ==> (a.SetInitial? <==> t == Some(SET_INITIAL))
    ensures !a.Other? ==> (a.SetPending? <==> t == Some(SET_PENDING))
    ensures !a.Other? ==> (a.SetSubmitted? <==> t == Some(SET_SUBMITTED))
    ensures !a.Other? ==> (a.SetViewValue? <==> t == Some(SET_VIEW_VALUE))
    ensures !a.Other? ==> t != Some(VALIDATE)
  {
    match a
    case Change(_, _, _, _, _, _) => Some(CHANGE)
    case Reset(_) => Some(RESET)
    case Focus(_) => Some(FOCUS)
    case Blur(_) => Some(BLUR)
    case SetDirty(_) => Some(SET_DIRTY)
    case SetPristine(_) => Some(SET_PRISTINE)
    case SetTouched(_) => Some(SET_TOUCHED)
    case SetUntouched(_) => Some(SET_UNTOUCHED)
    case SetInitial(_) => Some(SET_INITIAL)
    case SetPending(_, _) => Some(SET_PENDING)
    case SetValidating(_, _) => None
    case SetValidity(_, _) => Some(SET_VALIDITY)
    case SetErrors(_, _) => Some(SET_ERRORS)
    case SetFieldsValidity(_, _, _) => None
    case ResetValidity(_) => None
    case SetSubmitted(_, _) => Some(SET_SUBMITTED)
    case SetSubmitFailed(_, _) => None
    case SetViewValue(_, _) => Some(SET_VIEW_VALUE)
    case Other(t, _) => Some(t)
  }

  /** `action.value` */
  function ValueOf(a: Action): Value
  {
    match a
    case Change(_, v, _, _, _, _) => v
    case SetViewValue(_, v) => v
    case _ => Undef
  }

  /** `action.method` (only changes carry one; everything else behaves as a plain change). */
  function MethodOf(a: Action): Method
  {
    if a.Change? then a.changeMethod else PlainChange
  }

  function PendingOf(a: Action): Value { if a.SetPending? then a.pending else Undef }
  function SubmittedOf(a: Action): Value { if a.SetSubmitted? then a.submitted else Undef }
  function SubmitFailedOf(a: Action): Value { if a.SetSubmitFailed? then a.submitFailed else Undef }
  function ValidityOf(a: Action): Value { if a.SetValidity? then a.validity else Undef }
  function ErrorsOf(a: Action): Value { if a.SetErrors? then a.errors else Undef }
}
