/**
 * The flat form reducer: one record for the form and a `fields` map from full model strings
 * ("test.foo") to field records. Field-level actions write the addressed field; some also
 * recompute the form's `valid` or `pristine` aggregate from all fields.
 */
module FormReducer {
  import opened Wrappers
  import opened Values
  import opened Paths
  import opened Actions

  /** `initialFieldState` of this reducer. */
  const InitialFieldState: Attrs := map[
    "viewValue" := Null,
    "focus" := Bool(false),
    "blur" := Bool(true),
    "pristine" := Bool(true),
    "dirty" := Bool(false),
    "touched" := Bool(false),
    "untouched" := Bool(true),
    "valid" := Bool(true),
    "validating" := Bool(false),
    "pending" := Bool(false),
    "submitted" := Bool(false),
    "errors" := Obj(map[])]

  /**
   * A form state: the form's own properties and its `fields`. The `field(name)` lookup closure
   * the source also stores is not part of the value.
   */
  datatype FlatForm = FlatForm(attrs: Attrs, fields: map<string, Value>)

  /** The record FOCUS deep-merges into the field. */
  const FocusedField: Attrs := InitialFieldState["focus" := Bool(true)]["blur" := Bool(false)]

  /** The record CHANGE and SET_DIRTY deep-merge into the field. */
  const DirtyField: Attrs := InitialFieldState["dirty" := Bool(true)]["pristine" := Bool(false)]

  /** The record BLUR and SET_TOUCHED deep-merge into the field. */
  const BlurredField: Attrs :=
    InitialFieldState["touched" := Bool(true)]["untouched" := Bool(false)]["focus" := Bool(false)]["blur" := Bool(true)]

  /** `initialFormState` */
  const InitialFormState := FlatForm(InitialFieldState, map[])

  /** `m[k]` on a record. */
  function At(m: Attrs, k: string): Value
  {
    if k in m then m[k] else Undef
  }

  /**
   * seamless-immutable `merge(t, s, {deep: true})`: where both sides are plain objects their
   * keys are merged recursively, anywhere else the source value replaces the target.
   */
  function DeepMerge(t: Value, s: Value): (r: Value)
    ensures !(t.Obj? && s.Obj?) ==> r == s
    ensures t.Obj? && s.Obj? ==> r.Obj? && r.fields.Keys == t.fields.Keys + s.fields.Keys
    ensures t.Obj? && s.Obj? ==> forall k :: k in t.fields && k !in s.fields ==> r.fields[k] == t.fields[k]
    decreases s
  {
    if t.Obj? && s.Obj? then
      Obj(map k | k in t.fields.Keys + s.fields.Keys ::
        if k in s.fields then DeepMerge(At(t.fields, k), s.fields[k]) else t.fields[k])
    else s
  }

  /** Deep-merging a value into itself changes nothing. */
  lemma {:induction false} DeepMergeSelf(v: Value)
    ensures DeepMerge(v, v) == v
    decreases v
  {
    if v.Obj? {
      forall k | k in v.fields
        ensures DeepMerge(At(v.fields, k), v.fields[k]) == v.fields[k]
      {
        DeepMergeSelf(v.fields[k]);
      }
    }
  }

  /** Deep-merging `{}` into a plain object changes nothing. */
  lemma DeepMergeEmpty(t: Value)
    requires t.Obj?
    ensures DeepMerge(t, Obj(map[])) == t
  {
  }

  /** A field record deep-merged with a record `rec` whose values are scalars or `{}`. */
  lemma DeepMergeRecord(prev: Value, rec: Attrs)
    requires forall k :: k in rec && rec[k].Obj? ==> rec[k] == Obj(map[])
    ensures var r := DeepMerge(prev, Obj(rec));
      && r.Obj?
      && (forall k :: k in rec && !rec[k].Obj? ==> r.fields[k] == rec[k])
      && (forall k :: k in rec && rec[k].Obj? ==> r.fields[k] == (if At(ObjMap(prev), k).Obj? then At(ObjMap(prev), k) else Obj(map[])))
      && (prev.Obj? ==> forall k :: k in prev.fields && k !in rec ==> r.fields[k] == prev.fields[k])
  {
    var r := DeepMerge(prev, Obj(rec));
    forall k | k in rec && rec[k].Obj?
      ensures r.fields[k] == (if At(ObjMap(prev), k).Obj? then At(ObjMap(prev), k) else Obj(map[]))
    {
      if prev.Obj? && At(prev.fields, k).Obj? {
        DeepMergeEmpty(At(prev.fields, k));
      }
    }
  }

  /** `getField(form, model)`: the record under "undefined.<model>", else under the model, else `{foo: undefined}`. */
  function GetField(form: FlatForm, m: string): (r: Value)
    ensures At(form.fields, "undefined." + m) != Undef ==> r == form.fields["undefined." + m]
    ensures At(form.fields, "undefined." + m) == Undef && At(form.fields, m) != Undef ==> r == form.fields[m]
    ensures At(form.fields, "undefined." + m) == Undef && At(form.fields, m) == Undef ==> r == Obj(map["foo" := Undef])
  {
    var alt := At(form.fields, "undefined." + m);
    if alt != Undef then alt
    else
      var f := At(form.fields, m);
      if f != Undef then f else Obj(map["foo" := Undef])
  }

  /**
   * `setField(form, model, props)`: assigned into the form itself when `model` is the form's
   * model, otherwise the field becomes the initial field state, its old properties and `props`.
   */
  function SetField(form: FlatForm, m: string, props: Attrs): (r: FlatForm)
  {
    if At(form.attrs, "model") == Str(m) then form.(attrs := form.attrs + props)
    else form.(fields := form.fields[m := Obj(InitialFieldState + ObjMap(At(form.fields, m)) + props)])
  }

  /**
   * On the form's own model `setField` assigns `props` into the form and leaves the fields; on
   * any other model it leaves the form's properties and writes one field record holding `props`
   * over its old properties over the initial field state.
   */
  lemma SetFieldEffect(form: FlatForm, m: string, props: Attrs)
    ensures var r := SetField(form, m, props);
      && (At(form.attrs, "model") == Str(m) ==>
            && r.fields == form.fields
            && (forall k :: k in props ==> At(r.attrs, k) == props[k])
            && (forall k :: k in form.attrs && k !in props ==> At(r.attrs, k) == form.attrs[k]))
      && (At(form.attrs, "model") != Str(m) ==>
            && r.attrs == form.attrs
            && r.fields.Keys == form.fields.Keys + {m}
            && (forall k :: k in form.fields && k != m ==> r.fields[k] == form.fields[k])
            && m in r.fields && r.fields[m].Obj?
            && (forall k :: k in props ==> Get(r.fields[m], k) == props[k])
            && (forall k :: k !in props && k in ObjMap(At(form.fields, m)) ==> Get(r.fields[m], k) == ObjMap(At(form.fields, m))[k])
            && (forall k :: k !in props && k !in ObjMap(At(form.fields, m)) ==> Get(r.fields[m], k) == At(InitialFieldState, k)))
  {
  }

  /** `fields[m]` deep-merged with the record `rec` (the `merge({fields: {[m]: rec}}, {deep: true})` calls). */
  function MergeField(fields: map<string, Value>, m: string, rec: Attrs): (r: map<string, Value>)
    ensures r.Keys == fields.Keys + {m}
    ensures forall k :: k in fields && k != m ==> r[k] == fields[k]
  {
    fields[m := DeepMerge(At(fields, m), Obj(rec))]
  }

  /** `every(mapValues(fields, f => f.valid))` */
  predicate AllFieldsValid(fields: map<string, Value>)
  {
    forall k :: k in fields ==> Truthy(Get(fields[k], "valid"))
  }

  /** `every(mapValues(fields, f => f.pristine))` */
  predicate AllFieldsPristine(fields: map<string, Value>)
  {
    forall k :: k in fields ==> Truthy(Get(fields[k], "pristine"))
  }

  /** The errors SET_VALIDITY stores: old errors overridden by the negated validity, or `!validity`. */
  function ValidityErrors(form: FlatForm, m: string, validity: Value): (e: Value)
  {
    if validity.Obj? then Obj(ObjMap(Get(GetField(form, m), "errors")) + NegateAll(validity.fields))
    else Not(validity)
  }

  /**
   * An object validity yields the field's old errors with every validity key overridden by its
   * negation; a scalar validity yields the boolean `!validity`.
   */
  lemma ValidityErrorsEffect(form: FlatForm, m: string, validity: Value)
    ensures var e := ValidityErrors(form, m, validity);
      var prev := ObjMap(Get(GetField(form, m), "errors"));
      && (validity.Obj? ==> e.Obj? && e.fields.Keys == prev.Keys + validity.fields.Keys)
      && (validity.Obj? ==> forall k :: k in validity.fields ==> (Truthy(e.fields[k]) <==> !Truthy(validity.fields[k])))
      && (validity.Obj? ==> forall k :: k in prev && k !in validity.fields ==> e.fields[k] == prev[k])
      && (!validity.Obj? ==> e.Bool? && (e.b <==> !Truthy(validity)))
  {
  }

  /** The reducer `createFormReducer(model)` returns, applied to `state` (`None` is `undefined`). */
  function Reduce(model: string, state: Option<FlatForm>, a: Action): (r: FlatForm)
    ensures var s := state.GetOr(InitialFormState);
      var path := ToPath(a.model);
      (|path| == 0 || path[0] != model) ==> r == s
    ensures var s := state.GetOr(InitialFormState);
      var path := ToPath(a.model);
      (|path| > 0 && path[0] == model) ==> At(r.attrs, "model") == Str(model)
  {
    var s := state.GetOr(InitialFormState);
    var path := ToPath(a.model);
    if |path| == 0 || path[0] != model then s
    else
      var form := s.(attrs := s.attrs["model" := Str(model)]);
      Apply(form, a)
  }

  /** The `switch` over the action type, on the form whose `model` is already set. */
  function Apply(form: FlatForm, a: Action): (r: FlatForm)
    ensures At(form.attrs, "model").Str? ==> At(r.attrs, "model") == At(form.attrs, "model")
  {
    match TypeOf(a)
    case Some(t) =>
      if t == FOCUS || t == CHANGE || t == SET_DIRTY || t == BLUR || t == SET_TOUCHED then ApplyMerge(form, t, a.model)
      else ApplyProps(form, t, a)
    case None => form
  }

  /** The cases that deep-merge a record into the field: FOCUS, CHANGE/SET_DIRTY, BLUR/SET_TOUCHED. */
  function ApplyMerge(form: FlatForm, t: string, m: string): (r: FlatForm)
    ensures At(r.attrs, "model") == At(form.attrs, "model")
  {
    if t == FOCUS then
      form.(fields := MergeField(form.fields, m, FocusedField))
    else if t == CHANGE || t == SET_DIRTY then
      FlatForm(form.attrs["dirty" := Bool(true)]["pristine" := Bool(false)], MergeField(form.fields, m, DirtyField))
    else
      form.(fields := MergeField(form.fields, m, BlurredField))
  }

  /** The cases that set properties with `setField`, and recompute an aggregate for two of them. */
  function ApplyProps(form: FlatForm, t: string, a: Action): (r: FlatForm)
    ensures At(form.attrs, "model").Str? ==> At(r.attrs, "model") == At(form.attrs, "model")
  {
    var m := a.model;
    if t == SET_PENDING then
      SetField(form, m, map["pending" := PendingOf(a), "submitted" := Bool(false)])
    else if t == SET_VALIDITY then
      var errors := ValidityErrors(form, m, ValidityOf(a));
      var valid := if errors.Bool? then errors else Bool(EveryFalsy(errors));
      var f := SetField(form, m, map["errors" := errors, "valid" := valid]);
      f.(attrs := f.attrs["valid" := Bool(AllFieldsValid(f.fields) && EveryFalsy(At(f.attrs, "errors")))])
    else if t == SET_PRISTINE then
      var f := SetField(form, m, map["dirty" := Bool(false), "pristine" := Bool(true)]);
      var p := AllFieldsPristine(f.fields);
      f.(attrs := f.attrs["pristine" := Bool(p)]["dirty" := Bool(!p)])
    else if t == SET_UNTOUCHED then
      SetField(form, m, map["touched" := Bool(false), "untouched" := Bool(true)])
    else if t == SET_SUBMITTED then
      SetField(form, m, map["submitted" := BoolOf(SubmittedOf(a))])
    else if t == SET_INITIAL || t == RESET then
      SetField(form, m, InitialFieldState)
    else if t == SET_VIEW_VALUE then
      SetField(form, m, map["viewValue" := ValueOf(a)])
    else form
  }

  /** The form `Apply` works on: the state (or the initial form state) with its `model` set. */
  function Formed(model: string, state: Option<FlatForm>): (f: FlatForm)
    ensures At(f.attrs, "model") == Str(model)
    ensures f.fields == state.GetOr(InitialFormState).fields
  {
    var s := state.GetOr(InitialFormState);
    s.(attrs := s.attrs["model" := Str(model)])
  }

  /** An action addressing the form is applied to the formed state. */
  lemma ReduceApplies(model: string, state: Option<FlatForm>, a: Action)
    requires Targets(model, a)
    ensures Reduce(model, state, a) == Apply(Formed(model, state), a)
  {
  }

  /** The SET_VALIDITY branch of `Apply`. */
  lemma ApplyValidity(form: FlatForm, a: Action)
    requires a.SetValidity?
    ensures var errors := ValidityErrors(form, a.model, a.validity);
      var valid := if errors.Bool? then errors else Bool(EveryFalsy(errors));
      var f := SetField(form, a.model, map["errors" := errors, "valid" := valid]);
      Apply(form, a) == f.(attrs := f.attrs["valid" := Bool(AllFieldsValid(f.fields) && EveryFalsy(At(f.attrs, "errors")))])
  {
    TypesDistinct();
    assert TypeOf(a) == Some(SET_VALIDITY);
  }

  /** The SET_PRISTINE branch of `Apply`. */
  lemma ApplyPristine(form: FlatForm, a: Action)
    requires a.SetPristine?
    ensures var f := SetField(form, a.model, map["dirty" := Bool(false), "pristine" := Bool(true)]);
      var p := AllFieldsPristine(f.fields);
      Apply(form, a) == f.(attrs := f.attrs["pristine" := Bool(p)]["dirty" := Bool(!p)])
  {
    TypesDistinct();
    assert TypeOf(a) == Some(SET_PRISTINE);
  }

  /** The SET_PENDING branch of `Apply`. */
  lemma ApplyPending(form: FlatForm, a: Action)
    requires a.SetPending?
    ensures Apply(form, a) == SetField(form, a.model, map["pending" := a.pending, "submitted" := Bool(false)])
  {
    assert TypeOf(a) == Some(SET_PENDING);
  }

  /** The SET_INITIAL and RESET branch of `Apply`. */
  lemma ApplyInitial(form: FlatForm, a: Action)
    requires a.SetInitial? || a.Reset?
    ensures Apply(form, a) == SetField(form, a.model, InitialFieldState)
  {
    if a.SetInitial? {
      assert TypeOf(a) == Some(SET_INITIAL);
    } else {
      assert TypeOf(a) == Some(RESET);
    }
  }

  /** The SET_UNTOUCHED and SET_SUBMITTED branches of `Apply`. */
  lemma ApplyFlags(form: FlatForm, a: Action)
    requires a.SetUntouched? || a.SetSubmitted?
    ensures a.SetUntouched? ==> Apply(form, a) == SetField(form, a.model, map["touched" := Bool(false), "untouched" := Bool(true)])
    ensures a.SetSubmitted? ==> Apply(form, a) == SetField(form, a.model, map["submitted" := BoolOf(a.submitted)])
  {
    TypesDistinct();
    if a.SetUntouched? {
      assert TypeOf(a) == Some(SET_UNTOUCHED);
    } else {
      assert TypeOf(a) == Some(SET_SUBMITTED);
    }
  }

  /** The SET_VIEW_VALUE branch of `Apply`. */
  lemma ApplyViewValue(form: FlatForm, a: Action)
    requires a.SetViewValue?
    ensures Apply(form, a) == SetField(form, a.model, map["viewValue" := a.value])
  {
    assert TypeOf(a) == Some(SET_VIEW_VALUE);
  }

  /** The action addresses this form: the first segment of its model path is the form's model. */
  predicate Targets(model: string, a: Action)
  {
    var path := ToPath(a.model);
    |path| > 0 && path[0] == model
  }

  /** The reducer's result on an action that addresses the form, given the case it takes. */
  lemma MergedField(model: string, state: Option<FlatForm>, a: Action, rec: Attrs)
    requires Targets(model, a)
    requires (a.Focus? && rec == FocusedField) || ((a.Blur? || a.SetTouched?) && rec == BlurredField)
      || ((a.Change? || a.SetDirty?) && rec == DirtyField)
    ensures var s := state.GetOr(InitialFormState);
      var r := Reduce(model, state, a);
      && r.fields == MergeField(s.fields, a.model, rec)
      && (a.Change? || a.SetDirty? ==> r.attrs == s.attrs["model" := Str(model)]["dirty" := Bool(true)]["pristine" := Bool(false)])
      && (!(a.Change? || a.SetDirty?) ==> r.attrs == s.attrs["model" := Str(model)])
  {
    var form := Formed(model, state);
    ReduceApplies(model, state, a);
    var t := if a.Focus? then FOCUS else if a.Blur? then BLUR else if a.SetTouched? then SET_TOUCHED
      else if a.Change? then CHANGE else SET_DIRTY;
    assert TypeOf(a) == Some(t);
    assert Apply(form, a) == ApplyMerge(form, t, a.model);
  }

  /** The field after a deep merge of `rec`: every scalar of `rec` is set, and other fields stay. */
  lemma MergedFieldRecord(fields: map<string, Value>, m: string, rec: Attrs)
    requires rec == FocusedField || rec == BlurredField || rec == DirtyField
    ensures var r := MergeField(fields, m, rec);
      && m in r
      && (forall k :: k in rec && k != "errors" ==> Get(r[m], k) == rec[k])
      && (forall k :: k in fields && k != m ==> r[k] == fields[k])
  {
    assert forall k :: k in rec && rec[k].Obj? ==> k == "errors";
    DeepMergeRecord(At(fields, m), rec);
  }

  /** FOCUS: the field is focused and not blurred, its other flags are reset, other fields stay. */
  lemma FocusField(model: string, state: Option<FlatForm>, a: Action)
    requires a.Focus? && Targets(model, a)
    ensures var s := state.GetOr(InitialFormState);
      var r := Reduce(model, state, a);
      && a.model in r.fields
      && (forall k :: k in FocusedField && k != "errors" ==> Get(r.fields[a.model], k) == FocusedField[k])
      && (forall k :: k in s.fields && k != a.model ==> r.fields[k] == s.fields[k])
  {
    MergedField(model, state, a, FocusedField);
    MergedFieldRecord(state.GetOr(InitialFormState).fields, a.model, FocusedField);
  }

  /** BLUR and SET_TOUCHED: the field is touched and blurred, its other flags are reset. */
  lemma BlurField(model: string, state: Option<FlatForm>, a: Action)
    requires (a.Blur? || a.SetTouched?) && Targets(model, a)
    ensures var s := state.GetOr(InitialFormState);
      var r := Reduce(model, state, a);
      && a.model in r.fields
      && (forall k :: k in BlurredField && k != "errors" ==> Get(r.fields[a.model], k) == BlurredField[k])
      && (forall k :: k in s.fields && k != a.model ==> r.fields[k] == s.fields[k])
  {
    MergedField(model, state, a, BlurredField);
    MergedFieldRecord(state.GetOr(InitialFormState).fields, a.model, BlurredField);
  }

  /** CHANGE and SET_DIRTY: the field and the form are both dirty and not pristine. */
  lemma ChangeMarksDirty(model: string, state: Option<FlatForm>, a: Action)
    requires (a.Change? || a.SetDirty?) && Targets(model, a)
    ensures var s := state.GetOr(InitialFormState);
      var r := Reduce(model, state, a);
      && a.model in r.fields
      && (forall k :: k in DirtyField && k != "errors" ==> Get(r.fields[a.model], k) == DirtyField[k])
      && At(r.attrs, "dirty") == Bool(true)
      && At(r.attrs, "pristine") == Bool(false)
      && (forall k :: k in s.fields && k != a.model ==> r.fields[k] == s.fields[k])
  {
    MergedField(model, state, a, DirtyField);
    MergedFieldRecord(state.GetOr(InitialFormState).fields, a.model, DirtyField);
  }

  /** The flags the three merged records set. */
  lemma MergedRecordFlags()
    ensures FocusedField["focus"] == Bool(true) && FocusedField["blur"] == Bool(false)
    ensures BlurredField["touched"] == Bool(true) && BlurredField["untouched"] == Bool(false)
    ensures BlurredField["focus"] == Bool(false) && BlurredField["blur"] == Bool(true)
    ensures DirtyField["dirty"] == Bool(true) && DirtyField["pristine"] == Bool(false)
    ensures forall k :: k in InitialFieldState <==> k in FocusedField
    ensures forall k :: k in InitialFieldState <==> k in BlurredField
    ensures forall k :: k in InitialFieldState <==> k in DirtyField
  {
  }

  /** SET_PRISTINE: the form is pristine exactly when every field is, and dirty otherwise. */
  lemma SetPristineAggregate(model: string, state: Option<FlatForm>, a: Action)
    requires a.SetPristine? && Targets(model, a)
    ensures var r := Reduce(model, state, a);
      && (Truthy(At(r.attrs, "pristine")) <==> forall k :: k in r.fields ==> Truthy(Get(r.fields[k], "pristine")))
      && (Truthy(At(r.attrs, "dirty")) <==> !Truthy(At(r.attrs, "pristine")))
      && (a.model != model ==> a.model in r.fields && Get(r.fields[a.model], "pristine") == Bool(true)
                               && Get(r.fields[a.model], "dirty") == Bool(false))
  {
    ReduceApplies(model, state, a);
    PristineApplied(Formed(model, state), a);
  }

  /**
   * SET_VALIDITY with an object: the field's errors are its old errors overridden by the negated
   * validity, the field is valid exactly when all those errors are falsy, and the form is valid
   * exactly when every field is valid and no form-level error is set.
   */
  lemma SetValidityObject(model: string, state: Option<FlatForm>, a: Action)
    requires a.SetValidity? && a.validity.Obj? && Targets(model, a) && a.model != model
    ensures var r := Reduce(model, state, a);
      && a.model in r.fields
      && var e := Get(r.fields[a.model], "errors");
      && e.Obj?
      && (forall k :: k in a.validity.fields ==> k in e.fields && (Truthy(e.fields[k]) <==> !Truthy(a.validity.fields[k])))
      && (Truthy(Get(r.fields[a.model], "valid")) <==> forall k :: k in e.fields ==> !Truthy(e.fields[k]))
      && (Truthy(At(r.attrs, "valid")) <==>
            (forall k :: k in r.fields ==> Truthy(Get(r.fields[k], "valid"))) && EveryFalsy(At(r.attrs, "errors")))
  {
    ReduceApplies(model, state, a);
    ValidityApplied(Formed(model, state), a);
  }

  /** `SetValidityObject` on the form `Apply` receives. */
  lemma ValidityApplied(form: FlatForm, a: Action)
    requires a.SetValidity? && a.validity.Obj? && At(form.attrs, "model") != Str(a.model)
    ensures var r := Apply(form, a);
      && a.model in r.fields
      && var e := Get(r.fields[a.model], "errors");
      && e.Obj?
      && (forall k :: k in a.validity.fields ==> k in e.fields && (Truthy(e.fields[k]) <==> !Truthy(a.validity.fields[k])))
      && (Truthy(Get(r.fields[a.model], "valid")) <==> forall k :: k in e.fields ==> !Truthy(e.fields[k]))
      && (Truthy(At(r.attrs, "valid")) <==>
            (forall k :: k in r.fields ==> Truthy(Get(r.fields[k], "valid"))) && EveryFalsy(At(r.attrs, "errors")))
  {
    var errors := ValidityErrors(form, a.model, a.validity);
    ValidityErrorsEffect(form, a.model, a.validity);
    ValidityFieldApplied(form, a);
    ValidityFormApplied(form, a);
  }

  /** The field's record after SET_VALIDITY holds the computed errors and their `valid` flag. */
  lemma ValidityFieldApplied(form: FlatForm, a: Action)
    requires a.SetValidity? && a.validity.Obj? && At(form.attrs, "model") != Str(a.model)
    ensures var r := Apply(form, a);
      var errors := ValidityErrors(form, a.model, a.validity);
      && a.model in r.fields
      && Get(r.fields[a.model], "errors") == errors
      && Get(r.fields[a.model], "valid") == Bool(EveryFalsy(errors))
  {
    ApplyValidity(form, a);
    var errors := ValidityErrors(form, a.model, a.validity);
    ValidityRecord(form, a.model, errors, Bool(EveryFalsy(errors)));
  }

  /** The form after SET_VALIDITY is valid exactly when its fields are and it has no errors. */
  lemma ValidityFormApplied(form: FlatForm, a: Action)
    requires a.SetValidity?
    ensures var r := Apply(form, a);
      (Truthy(At(r.attrs, "valid")) <==>
         (forall k :: k in r.fields ==> Truthy(Get(r.fields[k], "valid"))) && EveryFalsy(At(r.attrs, "errors")))
  {
    ApplyValidity(form, a);
    var errors := ValidityErrors(form, a.model, a.validity);
    var valid := if errors.Bool? then errors else Bool(EveryFalsy(errors));
    FormValidity(SetField(form, a.model, map["errors" := errors, "valid" := valid]));
  }

  /** The field record SET_VALIDITY writes holds the errors and the `valid` flag. */
  lemma ValidityRecord(form: FlatForm, m: string, errors: Value, valid: Value)
    requires At(form.attrs, "model") != Str(m)
    ensures var f := SetField(form, m, map["errors" := errors, "valid" := valid]);
      && m in f.fields
      && Get(f.fields[m], "errors") == errors
      && Get(f.fields[m], "valid") == valid
      && f.attrs == form.attrs
  {
    var props := map["errors" := errors, "valid" := valid];
    var rec := Obj(InitialFieldState + ObjMap(At(form.fields, m)) + props);
    assert SetField(form, m, props).fields == form.fields[m := rec];
  }

  /** Off the form's own model, `setField` writes one record: `props` over the old record over the initial field state. */
  lemma FieldRecord(form: FlatForm, m: string, props: Attrs)
    requires At(form.attrs, "model") != Str(m)
    ensures var f := SetField(form, m, props);
      && f.attrs == form.attrs
      && f.fields == form.fields[m := Obj(InitialFieldState + ObjMap(At(form.fields, m)) + props)]
  {
  }

  /** The form-level `pristine` and `dirty` SET_PRISTINE computes. */
  lemma FormPristine(f: FlatForm)
    ensures var p := AllFieldsPristine(f.fields);
      var r := f.(attrs := f.attrs["pristine" := Bool(p)]["dirty" := Bool(!p)]);
      && (Truthy(At(r.attrs, "pristine")) <==> forall k :: k in r.fields ==> Truthy(Get(r.fields[k], "pristine")))
      && (Truthy(At(r.attrs, "dirty")) <==> !Truthy(At(r.attrs, "pristine")))
  {
  }

  /** The form-level `valid` SET_VALIDITY computes. */
  lemma FormValidity(f: FlatForm)
    ensures var r := f.(attrs := f.attrs["valid" := Bool(AllFieldsValid(f.fields) && EveryFalsy(At(f.attrs, "errors")))]);
      && r.fields == f.fields
      && (Truthy(At(r.attrs, "valid")) <==>
            (forall k :: k in r.fields ==> Truthy(Get(r.fields[k], "valid"))) && EveryFalsy(At(r.attrs, "errors")))
  {
    var r := f.(attrs := f.attrs["valid" := Bool(AllFieldsValid(f.fields) && EveryFalsy(At(f.attrs, "errors")))]);
    assert At(r.attrs, "errors") == At(f.attrs, "errors");
  }

  /** SET_VALIDITY with a scalar stores `valid` equal to the errors flag `!validity` itself. */
  lemma SetValidityScalar(model: string, state: Option<FlatForm>, a: Action)
    requires a.SetValidity? && !a.validity.Obj? && Targets(model, a) && a.model != model
    ensures var r := Reduce(model, state, a);
      && a.model in r.fields
      && Get(r.fields[a.model], "errors") == Bool(!Truthy(a.validity))
      && Get(r.fields[a.model], "valid") == Get(r.fields[a.model], "errors")
  {
    var form := Formed(model, state);
    ReduceApplies(model, state, a);
    ApplyValidity(form, a);
    var errors := ValidityErrors(form, a.model, a.validity);
    ValidityErrorsEffect(form, a.model, a.validity);
    ValidityRecord(form, a.model, errors, errors);
  }

  /** SET_PENDING on the form's own model sets the form record's flags. */
  lemma SetPendingOnForm(model: string, state: Option<FlatForm>, a: Action)
    requires a.SetPending? && a.model == model && Targets(model, a)
    ensures var s := state.GetOr(InitialFormState);
      var r := Reduce(model, state, a);
      && At(r.attrs, "pending") == a.pending
      && At(r.attrs, "submitted") == Bool(false)
      && r.fields == s.fields
  {
    ReduceApplies(model, state, a);
    ApplyPending(Formed(model, state), a);
  }

  /** SET_INITIAL and RESET: every initial-state property of the field takes its initial value. */
  lemma SetInitialField(model: string, state: Option<FlatForm>, a: Action)
    requires (a.SetInitial? || a.Reset?) && Targets(model, a) && a.model != model
    ensures var s := state.GetOr(InitialFormState);
      var r := Reduce(model, state, a);
      && a.model in r.fields
      && (forall k :: k in InitialFieldState ==> Get(r.fields[a.model], k) == InitialFieldState[k])
      && (forall k :: k in s.fields && k != a.model ==> r.fields[k] == s.fields[k])
  {
    var form := Formed(model, state);
    ReduceApplies(model, state, a);
    ApplyInitial(form, a);
    FieldRecord(form, a.model, InitialFieldState);
  }

  /** SET_PENDING on a field stores `pending` and clears `submitted`; every other field stays. */
  lemma SetPendingField(model: string, state: Option<FlatForm>, a: Action)
    requires a.SetPending? && Targets(model, a) && a.model != model
    ensures var s := state.GetOr(InitialFormState);
      var r := Reduce(model, state, a);
      && a.model in r.fields
      && Get(r.fields[a.model], "pending") == a.pending && Get(r.fields[a.model], "submitted") == Bool(false)
      && (forall k :: k in s.fields && k != a.model ==> r.fields[k] == s.fields[k])
      && r.attrs == s.attrs["model" := Str(model)]
  {
    var form := Formed(model, state);
    ReduceApplies(model, state, a);
    ApplyPending(form, a);
    FieldRecord(form, a.model, map["pending" := a.pending, "submitted" := Bool(false)]);
  }

  /** SET_UNTOUCHED makes the field untouched; the form's own properties and every other field stay. */
  lemma SetUntouchedField(model: string, state: Option<FlatForm>, a: Action)
    requires a.SetUntouched? && Targets(model, a) && a.model != model
    ensures var s := state.GetOr(InitialFormState);
      var r := Reduce(model, state, a);
      && a.model in r.fields
      && Get(r.fields[a.model], "touched") == Bool(false) && Get(r.fields[a.model], "untouched") == Bool(true)
      && (forall k :: k in s.fields && k != a.model ==> r.fields[k] == s.fields[k])
      && r.attrs == s.attrs["model" := Str(model)]
  {
    var form := Formed(model, state);
    ReduceApplies(model, state, a);
    ApplyFlags(form, a);
    FieldRecord(form, a.model, map["touched" := Bool(false), "untouched" := Bool(true)]);
  }

  /** SET_SUBMITTED stores `!!submitted` in the field; the form's own properties and every other field stay. */
  lemma SetSubmittedField(model: string, state: Option<FlatForm>, a: Action)
    requires a.SetSubmitted? && Targets(model, a) && a.model != model
    ensures var s := state.GetOr(InitialFormState);
      var r := Reduce(model, state, a);
      && a.model in r.fields
      && Get(r.fields[a.model], "submitted") == Bool(Truthy(a.submitted))
      && (forall k :: k in s.fields && k != a.model ==> r.fields[k] == s.fields[k])
      && r.attrs == s.attrs["model" := Str(model)]
  {
    var form := Formed(model, state);
    ReduceApplies(model, state, a);
    ApplyFlags(form, a);
    FieldRecord(form, a.model, map["submitted" := BoolOf(a.submitted)]);
  }

  /**
   * SET_VIEW_VALUE: of an existing field record only `viewValue` changes (properties it lacks
   * are filled from the initial field state).
   */
  lemma SetViewValueOnly(model: string, state: Option<FlatForm>, a: Action)
    requires a.SetViewValue? && Targets(model, a) && a.model != model
    ensures var s := state.GetOr(InitialFormState);
      var r := Reduce(model, state, a);
      var prev := ObjMap(At(s.fields, a.model));
      && a.model in r.fields
      && Get(r.fields[a.model], "viewValue") == a.value
      && (forall k :: k in prev && k != "viewValue" ==> Get(r.fields[a.model], k) == prev[k])
      && (forall k :: k !in prev && k != "viewValue" ==> Get(r.fields[a.model], k) == At(InitialFieldState, k))
  {
    ReduceApplies(model, state, a);
    ViewValueApplied(Formed(model, state), a);
  }

  /** `SetViewValueOnly` on the form `Apply` receives. */
  lemma ViewValueApplied(form: FlatForm, a: Action)
    requires a.SetViewValue? && At(form.attrs, "model") != Str(a.model)
    ensures var r := Apply(form, a);
      var prev := ObjMap(At(form.fields, a.model));
      && a.model in r.fields
      && Get(r.fields[a.model], "viewValue") == a.value
      && (forall k :: k in prev && k != "viewValue" ==> Get(r.fields[a.model], k) == prev[k])
      && (forall k :: k !in prev && k != "viewValue" ==> Get(r.fields[a.model], k) == At(InitialFieldState, k))
  {
    var props := map["viewValue" := a.value];
    ApplyViewValue(form, a);
    FieldRecord(form, a.model, props);
    Layered(InitialFieldState, ObjMap(At(form.fields, a.model)), props);
  }

  /** A key of `init + prev + props` comes from the last of the three that has it. */
  lemma Layered(init: Attrs, prev: Attrs, props: Attrs)
    ensures forall k :: (Get(Obj(init + prev + props), k)
                         == if k in props then props[k] else if k in prev then prev[k] else At(init, k))
  {
  }

  /** `SetPristineAggregate` on the form `Apply` receives. */
  lemma PristineApplied(form: FlatForm, a: Action)
    requires a.SetPristine? && At(form.attrs, "model").Str?
    ensures var r := Apply(form, a);
      && (Truthy(At(r.attrs, "pristine")) <==> forall k :: k in r.fields ==> Truthy(Get(r.fields[k], "pristine")))
      && (Truthy(At(r.attrs, "dirty")) <==> !Truthy(At(r.attrs, "pristine")))
      && (At(form.attrs, "model") != Str(a.model) ==>
            a.model in r.fields && Get(r.fields[a.model], "pristine") == Bool(true)
            && Get(r.fields[a.model], "dirty") == Bool(false))
  {
    var props := map["dirty" := Bool(false), "pristine" := Bool(true)];
    ApplyPristine(form, a);
    FormPristine(SetField(form, a.model, props));
    if At(form.attrs, "model") != Str(a.model) {
      FieldRecord(form, a.model, props);
      Layered(InitialFieldState, ObjMap(At(form.fields, a.model)), props);
    }
  }
}
